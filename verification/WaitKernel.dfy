/**
 The wait queues of 0.12 in their own form: queue heads and task states are arrays,
 the sleepers' tables are filled by add_wait and drained by the loop of free_wait,
 which stops wherever the kernel calls schedule(). Each method is proved to compute
 the step of the same name.
*/
module WaitKernel {
  import opened WaitQueues

  class Kernel {
    const heads: array<Option<nat>>
    const states: array<RunState>
    const waiters: array<Waiter>
    ghost var stacks: seq<seq<nat>>
    var clock: nat  // numbers the sleepers; nothing depends on it

    ghost predicate Valid()
      reads this, heads, states, waiters
    {
      heads as object != states && heads as object != waiters && states as object != waiters
      && Shape(View())
    }

    ghost function View(): World
      reads this, heads, states, waiters
    {
      World(heads[..], states[..], waiters[..], stacks, clock)
    }

    method AddToTable(t: nat, q: nat)
      requires Valid() && t < states.Length && q < heads.Length && waiters[t].Waiting?
      modifies this, heads, waiters
      ensures Valid() && View() == AddWait(old(View()), t, q)
      ensures waiters[t].Waiting?
    {
      var entries := waiters[t].entries;
      for i := 0 to |entries|
        invariant forall e :: 0 <= e < i ==> entries[e].queue != q
      {
        if entries[i].queue == q {
          return;
        }
      }
      waiters[t] := waiters[t].(entries := entries + [WaitEntry(q, heads[q])]);
      heads[q] := Some(t);
      stacks := stacks[q := [t] + stacks[q]];
    }

    /** The part of sleep_on or do_select before schedule(). */
    method GoToSleep(t: nat, queues: seq<nat>, how: RunState)
      requires Valid() && t < states.Length && forall k :: 0 <= k < |queues| ==> queues[k] < heads.Length
      modifies this, heads, states, waiters
      ensures Valid() && View() == Enter(old(View()), t, queues, how)
    {
      waiters[t] := Waiting([], 0, false, clock);
      states[t] := how;
      clock := clock + 1;
      ghost var start := View();
      for k := 0 to |queues|
        invariant Valid() && waiters[t].Waiting?
        invariant AddAll(View(), t, queues[k..]) == AddAll(start, t, queues)
      {
        assert queues[k..][1..] == queues[k + 1..];
        AddToTable(t, queues[k]);
      }
    }

    /** The tail of the loop body: the queue gets its old head back, and that task is woken. */
    method Restore(t: nat)
      requires Valid() && t < states.Length && waiters[t].Waiting? && waiters[t].pos < |waiters[t].entries|
      modifies this, heads, states, waiters
      ensures Valid() && View() == Pop(old(View()), t)
    {
      var entry := waiters[t].entries[waiters[t].pos];
      heads[entry.queue] := entry.oldTask;
      stacks := stacks[entry.queue := if stacks[entry.queue] == [] then [] else stacks[entry.queue][1..]];
      waiters[t] := waiters[t].(pos := waiters[t].pos + 1);
      if entry.oldTask.Some? {
        states[entry.oldTask.value] := Running;
      }
    }

    /** free_wait, from where it stands to the next schedule(); true if the table is empty. */
    method FreeWait(t: nat) returns (done: bool)
      requires Valid() && t < states.Length && waiters[t].Waiting?
      modifies this, heads, states, waiters
      ensures Valid() && View() == Unwind(old(View()), t)
      ensures done <==> waiters[t] == NotWaiting
    {
      while waiters[t].pos < |waiters[t].entries|
        invariant Valid() && waiters[t].Waiting?
        invariant Unwind(View(), t) == Unwind(old(View()), t)
        decreases |waiters[t].entries| - waiters[t].pos
      {
        var head := heads[waiters[t].entries[waiters[t].pos].queue];
        if head.Some? && head.value != t {
          states[head.value] := Running;
          states[t] := Uninterruptible;
          waiters[t] := waiters[t].(unwinding := true);
          return false;
        }
        Restore(t);
      }
      waiters[t] := NotWaiting;
      return true;
    }

    method WakeTop(q: nat)
      requires Valid() && q < heads.Length
      modifies states
      ensures Valid() && View() == WakeUp(old(View()), q)
    {
      if heads[q].Some? {
        states[heads[q].value] := Running;
      }
    }
  }
}

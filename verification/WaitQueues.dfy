/**
 Wait queues of 0.12: `sleep_on` and `select` chain the sleepers of a queue only
 through what each of them saved when it went to sleep. The kernel is not
 preemptive, so everything between two calls of schedule() is one step.

 `sleep_on` is the one-queue case of `select`: both push the caller on top of the
 queue, and both unwind by waking the head until they are the head themselves.
*/
module WaitQueues {
  datatype Option<T> = None | Some(value: T)

  datatype RunState = Running | Interruptible | Uninterruptible

  /** A saved `*p` (tmp in __sleep_on, old_task in a select table). */
  datatype WaitEntry = WaitEntry(queue: nat, oldTask: Option<nat>)

  /** entries[pos..] are still to be unwound. `unwinding` (blocked inside the unwinding loop) and
      `stamp` (the moment of enqueueing) are history: no step looks at them. */
  datatype Waiter =
    | NotWaiting
    | Waiting(entries: seq<WaitEntry>, pos: nat, unwinding: bool, stamp: nat)

  /** `stack` and `clock` are history too: the sleepers of each queue, youngest first. */
  datatype World = World(
    head: seq<Option<nat>>,
    state: seq<RunState>,
    waiter: seq<Waiter>,
    stack: seq<seq<nat>>,
    clock: nat)

  ghost predicate Shape(w: World) {
    && |w.state| == |w.waiter|
    && |w.head| == |w.stack|
    && (forall q :: 0 <= q < |w.head| ==> w.head[q].Some? ==> w.head[q].value < |w.state|)
    && (forall t :: 0 <= t < |w.waiter| ==> w.waiter[t].Waiting? ==>
          w.waiter[t].pos <= |w.waiter[t].entries|
          && forall e :: 0 <= e < |w.waiter[t].entries| ==>
               && w.waiter[t].entries[e].queue < |w.head|
               && (w.waiter[t].entries[e].oldTask.Some? ==> w.waiter[t].entries[e].oldTask.value < |w.state|))
  }

  // ---------------------------------------------------------------- the steps

  function Wake(w: World, o: Option<nat>): (w': World)
    requires o.Some? ==> o.value < |w.state|
  {
    if o.Some? then w.(state := w.state[o.value := Running]) else w
  }

  /** `t` becomes the top of the queue and remembers who was. */
  function Push(w: World, t: nat, q: nat): (w': World)
    requires Shape(w) && t < |w.state| && q < |w.head| && w.waiter[t].Waiting?
    ensures Shape(w') && |w'.state| == |w.state| && |w'.head| == |w.head| && w'.waiter[t].Waiting?
  {
    var table := w.waiter[t];
    w.(waiter := w.waiter[t := table.(entries := table.entries + [WaitEntry(q, w.head[q])])],
       head := w.head[q := Some(t)],
       stack := w.stack[q := [t] + w.stack[q]])
  }

  predicate InTable(entries: seq<WaitEntry>, q: nat) {
    exists e :: 0 <= e < |entries| && entries[e].queue == q
  }

  /** add_wait: push on the queue, unless it is in the table already. */
  function AddWait(w: World, t: nat, q: nat): (w': World)
    requires Shape(w) && t < |w.state| && q < |w.head| && w.waiter[t].Waiting?
    ensures Shape(w') && |w'.state| == |w.state| && |w'.head| == |w.head| && w'.waiter[t].Waiting?
  {
    if InTable(w.waiter[t].entries, q) then w else Push(w, t, q)
  }

  function AddAll(w: World, t: nat, qs: seq<nat>): (w': World)
    requires Shape(w) && t < |w.state| && w.waiter[t].Waiting? && forall k :: 0 <= k < |qs| ==> qs[k] < |w.head|
    ensures Shape(w') && |w'.state| == |w.state| && |w'.head| == |w.head|
    decreases |qs|
  {
    if qs == [] then w else AddAll(AddWait(w, t, qs[0]), t, qs[1..])
  }

  /** Entering a sleep: `how` is the state to sleep in. Interrupts are off and nothing else runs,
      so the state may be set before the queues are joined. */
  function Enter(w: World, t: nat, qs: seq<nat>, how: RunState): (w': World)
    requires Shape(w) && t < |w.state| && forall k :: 0 <= k < |qs| ==> qs[k] < |w.head|
    ensures Shape(w') && |w'.state| == |w.state| && |w'.head| == |w.head|
  {
    AddAll(w.(waiter := w.waiter[t := Waiting([], 0, false, w.clock)], state := w.state[t := how],
        clock := w.clock + 1), t, qs)
  }

  /** One entry is unwound: the queue gets back what the sleeper saved, and that task is woken. */
  function Pop(w: World, t: nat): (w': World)
    requires Shape(w) && t < |w.state| && w.waiter[t].Waiting? && w.waiter[t].pos < |w.waiter[t].entries|
    ensures Shape(w') && |w'.state| == |w.state| && |w'.head| == |w.head|
  {
    var table := w.waiter[t];
    var e := table.entries[table.pos];
    Wake(w.(head := w.head[e.queue := e.oldTask],
            stack := w.stack[e.queue := if w.stack[e.queue] == [] then [] else w.stack[e.queue][1..]],
            waiter := w.waiter[t := table.(pos := table.pos + 1)]),
         e.oldTask)
  }

  /** Not at the head: wake the head, sleep uninterruptibly, try again when woken. */
  function Block(w: World, t: nat, h: nat): (w': World)
    requires Shape(w) && t < |w.state| && h < |w.state| && w.waiter[t].Waiting?
    ensures Shape(w') && |w'.state| == |w.state| && |w'.head| == |w.head|
  {
    w.(state := w.state[h := Running][t := Uninterruptible], waiter := w.waiter[t := w.waiter[t].(unwinding := true)])
  }

  /** free_wait, and __sleep_on after schedule(): unwind as far as possible. */
  function Unwind(w: World, t: nat): (w': World)
    requires Shape(w) && t < |w.state| && w.waiter[t].Waiting?
    ensures Shape(w') && |w'.state| == |w.state| && |w'.head| == |w.head|
    decreases |w.waiter[t].entries| - w.waiter[t].pos
  {
    var table := w.waiter[t];
    if table.pos == |table.entries| then w.(waiter := w.waiter[t := NotWaiting])
    else
      var h := w.head[table.entries[table.pos].queue];
      if h.Some? && h.value != t then Block(w, t, h.value)
      else
        var w1 := Pop(w, t);
        Unwind(w1, t)
  }

  predicate CanResume(w: World, t: nat) {
    t < |w.state| == |w.waiter| && w.state[t] == Running && w.waiter[t].Waiting?
  }

  /** wake_up: whoever is on top becomes runnable. */
  function WakeUp(w: World, q: nat): (w': World)
    requires Shape(w) && q < |w.head|
    ensures Shape(w')
  {
    Wake(w, w.head[q])
  }

  /** schedule() makes an interruptible sleeper with a signal or an expired timeout runnable. */
  function Signal(w: World, t: nat): (w': World)
    requires Shape(w) && t < |w.state|
    ensures Shape(w')
  {
    if w.state[t] == Interruptible then Wake(w, Some(t)) else w
  }

  // ---------------------------------------------------------------- invariant

  function Top(s: seq<nat>): Option<nat> {
    if s == [] then None else Some(s[0])
  }

  function Below(s: seq<nat>, k: nat): Option<nat>
    requires k < |s|
  {
    if k + 1 < |s| then Some(s[k + 1]) else None
  }

  ghost predicate Waits(w: World, t: nat) {
    t < |w.waiter| && w.waiter[t].Waiting?
  }

  /** Runnable, or woken before and now blocked in the unwinding loop. */
  ghost predicate Active(w: World, t: nat)
    requires Shape(w)
  {
    Waits(w, t) && (w.state[t] == Running || w.waiter[t].unwinding)
  }

  /** `t` still has to unwind queue `q`, and saved `next` when it joined. */
  ghost predicate Saved(w: World, t: nat, q: nat, next: Option<nat>) {
    Waits(w, t) && exists e ::
        w.waiter[t].pos <= e < |w.waiter[t].entries| && w.waiter[t].entries[e] == WaitEntry(q, next)
  }

  /** The queue head and the saved pointers spell out the stack of the queue. */
  ghost predicate Chained(w: World, q: nat)
    requires Shape(w) && q < |w.head|
  {
    && w.head[q] == Top(w.stack[q])
    && forall k: nat {:trigger Below(w.stack[q], k)} :: k < |w.stack[q]| ==>
         Saved(w, w.stack[q][k], q, Below(w.stack[q], k))
  }

  /** Each sleeper of the queue was enqueued after the one below it. */
  ghost predicate Ordered(w: World, q: nat)
    requires Shape(w) && q < |w.head|
  {
    forall k: nat, l: nat :: k < l < |w.stack[q]| && Waits(w, w.stack[q][k]) && Waits(w, w.stack[q][l]) ==>
      w.waiter[w.stack[q][k]].stamp > w.waiter[w.stack[q][l]].stamp
  }

  /** A waiter is on the stack of every queue it still has to unwind; its queues are distinct. */
  ghost predicate Listed(w: World, t: nat)
    requires Shape(w) && Waits(w, t)
  {
    var table := w.waiter[t];
    && table.stamp < w.clock
    && (forall e :: table.pos <= e < |table.entries| ==> t in w.stack[table.entries[e].queue])
    && (forall e, f :: 0 <= e < f < |table.entries| ==> table.entries[e].queue != table.entries[f].queue)
  }

  /** A waiter blocked while unwinding has an active, strictly younger waiter on top of it. */
  ghost predicate Backed(w: World, t: nat)
    requires Shape(w) && Waits(w, t)
  {
    var table := w.waiter[t];
    && table.pos < |table.entries|
    && exists u :: u in w.stack[table.entries[table.pos].queue] && Active(w, u) && w.waiter[u].stamp > table.stamp
  }

  ghost predicate Inv(w: World) {
    true == (
      && Shape(w)
      && (forall q: nat :: q < |w.head| ==> Chained(w, q))
      && (forall q: nat :: q < |w.head| ==> Ordered(w, q))
      && (forall t: nat :: Waits(w, t) ==> Listed(w, t))
      && (forall t: nat, u: nat {:trigger w.waiter[t].stamp, w.waiter[u].stamp} ::
          Waits(w, t) && Waits(w, u) && t != u ==> w.waiter[t].stamp != w.waiter[u].stamp)
      && (forall t: nat :: Waits(w, t) && w.waiter[t].unwinding && w.state[t] != Running ==> Backed(w, t)))
  }

  /** A kernel with nobody waiting. */
  lemma InitInv(tasks: nat, queues: nat)
    ensures Inv(World(seq(queues, _ => None), seq(tasks, _ => Running), seq(tasks, _ => NotWaiting),
        seq(queues, _ => []), 0))
  {
  }

  // ----------------------------------------------------- what the steps keep

  lemma StackAt(w: World, t: nat, q: nat) returns (k: nat)
    requires Inv(w) && q < |w.head| && t in w.stack[q]
    ensures k < |w.stack[q]| && w.stack[q][k] == t && Saved(w, t, q, Below(w.stack[q], k))
  {
    k :| k < |w.stack[q]| && w.stack[q][k] == t;
    assert Chained(w, q);
  }

  /** At the head of the queue it is about to unwind, a waiter saved exactly the task below it. */
  lemma HeadSaved(w: World, t: nat)
    requires Inv(w) && Waits(w, t) && w.waiter[t].pos < |w.waiter[t].entries|
    requires var q := w.waiter[t].entries[w.waiter[t].pos].queue; w.head[q] == None || w.head[q] == Some(t)
    ensures var e := w.waiter[t].entries[w.waiter[t].pos];
            && w.stack[e.queue] != [] && w.stack[e.queue][0] == t && e.oldTask == Below(w.stack[e.queue], 0)
            && e.oldTask == Top(w.stack[e.queue][1..])
            && t !in w.stack[e.queue][1..]
  {
    var e := w.waiter[t].entries[w.waiter[t].pos];
    assert Listed(w, t) && Chained(w, e.queue) && Ordered(w, e.queue);
    var s := w.stack[e.queue];
    assert t in s && s[0] == t;
    SavedUnique(w, t, e.queue, Below(s, 0), e.oldTask);
  }

  lemma SavedUnique(w: World, t: nat, q: nat, n1: Option<nat>, n2: Option<nat>)
    requires Inv(w) && Saved(w, t, q, n1) && Saved(w, t, q, n2)
    ensures n1 == n2
  {
    assert Listed(w, t);
  }

  lemma PopSaved(w: World, t: nat, u: nat, q: nat, next: Option<nat>)
    requires Shape(w) && t < |w.state| && Waits(w, t) && w.waiter[t].pos < |w.waiter[t].entries|
    requires Saved(w, u, q, next) && !(u == t && q == w.waiter[t].entries[w.waiter[t].pos].queue)
    ensures Saved(Pop(w, t), u, q, next)
  {
    var e :| w.waiter[u].pos <= e < |w.waiter[u].entries| && w.waiter[u].entries[e] == WaitEntry(q, next);
    assert Pop(w, t).waiter[u].pos <= e < |Pop(w, t).waiter[u].entries|
        && Pop(w, t).waiter[u].entries[e] == WaitEntry(q, next);
  }

  /** What popping does to the stacks and heads: the queue being unwound loses its top. */
  lemma PopStack(w: World, t: nat, q: nat) returns (off: nat)
    requires Inv(w) && Waits(w, t) && w.waiter[t].pos < |w.waiter[t].entries| && q < |w.head|
    requires var q0 := w.waiter[t].entries[w.waiter[t].pos].queue; w.head[q0] == None || w.head[q0] == Some(t)
    ensures off <= |w.stack[q]| && Pop(w, t).stack[q] == w.stack[q][off..]
    ensures q == w.waiter[t].entries[w.waiter[t].pos].queue ==> t !in w.stack[q][off..]
    ensures Pop(w, t).head[q] == Top(Pop(w, t).stack[q])
  {
    HeadSaved(w, t);
    assert Listed(w, t) && Chained(w, q);
    off := if q == w.waiter[t].entries[w.waiter[t].pos].queue then 1 else 0;
  }

  lemma PopChained(w: World, t: nat, q: nat)
    requires Inv(w) && Waits(w, t) && w.waiter[t].pos < |w.waiter[t].entries| && q < |w.head|
    requires var q0 := w.waiter[t].entries[w.waiter[t].pos].queue; w.head[q0] == None || w.head[q0] == Some(t)
    ensures Chained(Pop(w, t), q)
  {
    var off := PopStack(w, t, q);
    var w' := Pop(w, t);
    var s, s' := w.stack[q], w'.stack[q];
    assert Chained(w, q);
    forall k: nat | k < |s'|
      ensures Saved(w', s'[k], q, Below(s', k))
    {
      assert s'[k] == s[k + off] && Below(s', k) == Below(s, k + off);
      assert Saved(w, s[k + off], q, Below(s, k + off));
      assert s'[k] in s';
      PopSaved(w, t, s[k + off], q, Below(s, k + off));
    }
  }

  lemma PopOrdered(w: World, t: nat, q: nat)
    requires Inv(w) && Waits(w, t) && w.waiter[t].pos < |w.waiter[t].entries| && q < |w.head|
    requires var q0 := w.waiter[t].entries[w.waiter[t].pos].queue; w.head[q0] == None || w.head[q0] == Some(t)
    ensures Ordered(Pop(w, t), q)
  {
    var off := PopStack(w, t, q);
    var w' := Pop(w, t);
    var s, s' := w.stack[q], w'.stack[q];
    assert Ordered(w, q);
    forall k: nat, l: nat | k < l < |s'| && Waits(w', s'[k]) && Waits(w', s'[l])
      ensures w'.waiter[s'[k]].stamp > w'.waiter[s'[l]].stamp
    {
      assert s'[k] == s[k + off] && s'[l] == s[l + off];
      assert Waits(w, s[k + off]) && Waits(w, s[l + off]);
      assert k + off < l + off < |s|;
    }
  }

  lemma PopListed(w: World, t: nat, u: nat)
    requires Inv(w) && Waits(w, t) && w.waiter[t].pos < |w.waiter[t].entries| && Waits(w, u)
    requires var q0 := w.waiter[t].entries[w.waiter[t].pos].queue; w.head[q0] == None || w.head[q0] == Some(t)
    ensures Listed(Pop(w, t), u)
  {
    HeadSaved(w, t);
    assert Listed(w, u) && Listed(w, t);
    var e := w.waiter[t].entries[w.waiter[t].pos];
    assert w.stack[e.queue] == [t] + w.stack[e.queue][1..];
  }

  lemma PopBacked(w: World, t: nat, v: nat)
    requires Inv(w) && CanResume(w, t) && w.waiter[t].pos < |w.waiter[t].entries| && Waits(w, v) && v != t
    requires var q0 := w.waiter[t].entries[w.waiter[t].pos].queue; w.head[q0] == None || w.head[q0] == Some(t)
    requires w.waiter[v].unwinding && Pop(w, t).state[v] != Running
    ensures Backed(Pop(w, t), v)
  {
    HeadSaved(w, t);
    var w' := Pop(w, t);
    var e := w.waiter[t].entries[w.waiter[t].pos];
    var table := w.waiter[v];
    assert w.state[v] != Running && Backed(w, v) && Listed(w, v);
    var q := table.entries[table.pos].queue;
    var u :| u in w.stack[q] && Active(w, u) && w.waiter[u].stamp > table.stamp;
    var s := w.stack[q];
    if q == e.queue && u == t {
      // the next one down has just been woken; it is above v, since v itself is still asleep
      assert v in s && v != s[0];
      var k: nat :| k < |s| && s[k] == v;
      assert k > 1;
      assert Saved(w, s[1], q, Below(s, 1)) by { assert Chained(w, q); }
      assert Ordered(w, q);
      assert w'.stack[q][0] == s[1];
      assert Active(w', s[1]) && w'.waiter[s[1]].stamp > w'.waiter[v].stamp;
    } else {
      assert u in w'.stack[q];
      assert Active(w', u);
    }
  }

  lemma PopInv(w: World, t: nat)
    requires Inv(w) && CanResume(w, t) && w.waiter[t].pos < |w.waiter[t].entries|
    requires var q0 := w.waiter[t].entries[w.waiter[t].pos].queue; w.head[q0] == None || w.head[q0] == Some(t)
    ensures Inv(Pop(w, t)) && CanResume(Pop(w, t), t)
  {
    var w' := Pop(w, t);
    forall q: nat | q < |w'.head|
      ensures Chained(w', q) && Ordered(w', q)
    {
      PopChained(w, t, q);
      PopOrdered(w, t, q);
    }
    forall u: nat | Waits(w', u)
      ensures Listed(w', u)
    {
      PopListed(w, t, u);
    }
    forall v: nat | Waits(w', v) && w'.waiter[v].unwinding && w'.state[v] != Running
      ensures Backed(w', v)
    {
      PopBacked(w, t, v);
    }
  }

  lemma FinishInv(w: World, t: nat)
    requires Inv(w) && Waits(w, t) && w.waiter[t].pos == |w.waiter[t].entries|
    ensures Inv(w.(waiter := w.waiter[t := NotWaiting]))
  {
    var w' := w.(waiter := w.waiter[t := NotWaiting]);
    forall q: nat | q < |w.head|
      ensures t !in w.stack[q]
    {
      if t in w.stack[q] {
        var k := StackAt(w, t, q);
      }
    }
    forall q: nat | q < |w'.head|
      ensures Chained(w', q) && Ordered(w', q)
    {
      SameTablesChained(w, w', t, q);
    }
    forall u: nat | Waits(w', u)
      ensures Listed(w', u)
      ensures w'.waiter[u].unwinding && w'.state[u] != Running ==> Backed(w', u)
    {
      assert Listed(w, u);
      if w'.waiter[u].unwinding && w'.state[u] != Running {
        assert Backed(w, u);
        var q := w.waiter[u].entries[w.waiter[u].pos].queue;
        var v :| v in w.stack[q] && Active(w, v) && w.waiter[v].stamp > w.waiter[u].stamp;
        assert Active(w', v);
      }
    }
  }

  /** Queues and the tables of the old waiters, but for one, are as before; only states and history differ. */
  ghost predicate SameTables(w: World, w': World, except: nat) {
    && w'.head == w.head && w'.stack == w.stack && |w'.waiter| == |w.waiter|
    && forall u: nat :: Waits(w, u) && u != except ==>
         && Waits(w', u) && w'.waiter[u].entries == w.waiter[u].entries
         && w'.waiter[u].pos == w.waiter[u].pos && w'.waiter[u].stamp == w.waiter[u].stamp
  }

  lemma SameTablesChained(w: World, w': World, except: nat, q: nat)
    requires Inv(w) && Shape(w') && SameTables(w, w', except) && q < |w.head|
    requires !Waits(w, except) || except !in w.stack[q]
    ensures Chained(w', q) && Ordered(w', q)
  {
    assert Chained(w, q) && Ordered(w, q);
    var s := w.stack[q];
    forall k: nat | k < |s|
      ensures Saved(w', s[k], q, Below(s, k)) && Waits(w, s[k])
    {
      assert Saved(w, s[k], q, Below(s, k));
      var e :| w.waiter[s[k]].pos <= e < |w.waiter[s[k]].entries|
          && w.waiter[s[k]].entries[e] == WaitEntry(q, Below(s, k));
      assert w'.waiter[s[k]].entries[e] == WaitEntry(q, Below(s, k));
    }
  }

  lemma SameTablesBacked(w: World, w': World, except: nat, u: nat)
    requires Inv(w) && Shape(w') && SameTables(w, w', except) && Waits(w, u) && u != except && Backed(w, u)
    requires forall v: nat :: Active(w, v) && v != except ==> Active(w', v)
    requires forall q: nat :: q < |w.head| ==> except !in w.stack[q]
    ensures Backed(w', u)
  {
    var q := w.waiter[u].entries[w.waiter[u].pos].queue;
    var v :| v in w.stack[q] && Active(w, v) && w.waiter[v].stamp > w.waiter[u].stamp;
    assert v in w'.stack[q] && Active(w', v);
  }

  lemma StackBound(w: World, q: nat, t: nat)
    requires Inv(w) && q < |w.head| && t in w.stack[q]
    ensures Waits(w, t)
  {
    var k := StackAt(w, t, q);
  }

  /** A waiter that is not the head of its queue sits below a strictly younger one: the head. */
  lemma HeadIsYounger(w: World, t: nat, e: nat)
    requires Inv(w) && Waits(w, t) && w.waiter[t].pos <= e < |w.waiter[t].entries|
    ensures var h := w.head[w.waiter[t].entries[e].queue];
            h.Some? && Waits(w, h.value) && h.value in w.stack[w.waiter[t].entries[e].queue]
            && (h.value != t ==> w.waiter[h.value].stamp > w.waiter[t].stamp)
  {
    var q := w.waiter[t].entries[e].queue;
    assert Listed(w, t) && Chained(w, q) && Ordered(w, q);
    var k := StackAt(w, t, q);
    assert Saved(w, w.stack[q][0], q, Below(w.stack[q], 0));
  }

  lemma BlockInv(w: World, t: nat)
    requires Inv(w) && CanResume(w, t) && w.waiter[t].pos < |w.waiter[t].entries|
    requires var h := w.head[w.waiter[t].entries[w.waiter[t].pos].queue]; h.Some? && h.value != t
    ensures var h := w.head[w.waiter[t].entries[w.waiter[t].pos].queue].value;
            && Inv(Block(w, t, h))
            && CanResume(Block(w, t, h), h) && w.waiter[h].stamp > w.waiter[t].stamp
  {
    HeadIsYounger(w, t, w.waiter[t].pos);
    var q0 := w.waiter[t].entries[w.waiter[t].pos].queue;
    var h := w.head[q0].value;
    var w' := Block(w, t, h);
    assert forall u: nat :: u < |w.waiter| && Active(w, u) ==> Active(w', u);
    forall q: nat | q < |w'.head|
      ensures Chained(w', q) && Ordered(w', q)
    {
      SameTablesChained(w, w', |w.waiter|, q);
    }
    forall u: nat | Waits(w', u)
      ensures Listed(w', u)
      ensures w'.waiter[u].unwinding && w'.state[u] != Running ==> Backed(w', u)
    {
      assert Listed(w, u);
      if u == t {
        assert Active(w', h);
      } else if w'.waiter[u].unwinding && w'.state[u] != Running {
        assert Backed(w, u);
      }
    }
  }

  /** Running a waiter keeps the invariant whatever it finds. */
  lemma {:induction false} UnwindInv(w: World, t: nat)
    requires Inv(w) && CanResume(w, t)
    ensures Inv(Unwind(w, t))
    decreases |w.waiter[t].entries| - w.waiter[t].pos
  {
    var table := w.waiter[t];
    if table.pos == |table.entries| {
      FinishInv(w, t);
      return;
    }
    var h := w.head[table.entries[table.pos].queue];
    if h.Some? && h.value != t {
      BlockInv(w, t);
      return;
    }
    PopInv(w, t);
    UnwindInv(Pop(w, t), t);
  }

  /** A queue the task has left has lost its top, which it was; no other queue has changed. */
  ghost predicate LeftBy(w: World, t: nat, w': World, q: nat)
    requires Shape(w) && Shape(w') && |w'.head| == |w.head| && q < |w.head|
  {
    || (w'.stack[q] == w.stack[q] && w'.head[q] == w.head[q])
    || (w.stack[q] == [t] + w'.stack[q] && w'.head[q] == Top(w'.stack[q]))
  }

  /** What running a waiter changes: it leaves queues it is on top of, other tasks' tables stay, and the only other
      changes are tasks made runnable, each of them the head of a queue the waiter is on, or below it. */
  ghost predicate RanAlone(w: World, t: nat, w': World)
    requires Shape(w) && Shape(w') && |w'.head| == |w.head| && |w'.state| == |w.state| && Waits(w, t)
  {
    && w'.clock == w.clock
    && (forall q: nat :: q < |w.head| ==> LeftBy(w, t, w', q))
    && (forall u: nat :: u < |w.waiter| && u != t ==> w'.waiter[u] == w.waiter[u])
    && (forall u: nat :: u < |w.state| && u != t && w'.state[u] != w.state[u] ==>
          w'.state[u] == Running && ToldBy(w, t, u))
  }

  /** `u` is the head of one of the queues `t` still has to unwind, or what `t` saved of one. */
  ghost predicate ToldBy(w: World, t: nat, u: nat)
    requires Shape(w) && Waits(w, t)
  {
    var table := w.waiter[t];
    exists e :: table.pos <= e < |table.entries|
      && (w.head[table.entries[e].queue] == Some(u) || table.entries[e].oldTask == Some(u))
  }

  lemma PopAlone(w: World, t: nat)
    requires Inv(w) && Waits(w, t) && w.waiter[t].pos < |w.waiter[t].entries|
    requires var q0 := w.waiter[t].entries[w.waiter[t].pos].queue; w.head[q0] == None || w.head[q0] == Some(t)
    ensures RanAlone(w, t, Pop(w, t))
  {
    HeadSaved(w, t);
    var e := w.waiter[t].entries[w.waiter[t].pos];
    assert w.stack[e.queue] == [t] + w.stack[e.queue][1..];
    hide Inv;
  }

  lemma AloneTwice(w: World, t: nat, w1: World, w2: World)
    requires Shape(w) && Shape(w1) && Shape(w2) && Waits(w, t) && Waits(w1, t)
    requires |w.head| == |w1.head| == |w2.head| && |w.state| == |w1.state| == |w2.state|
    requires RanAlone(w, t, w1) && RanAlone(w1, t, w2)
    requires forall e :: w1.waiter[t].pos <= e < |w1.waiter[t].entries| ==>
               && w.waiter[t].pos <= e < |w.waiter[t].entries| && w1.waiter[t].entries[e] == w.waiter[t].entries[e]
               && w1.head[w1.waiter[t].entries[e].queue] == w.head[w1.waiter[t].entries[e].queue]
    requires forall q: nat :: q < |w.head| ==>
               w1.stack[q] == w.stack[q] || t !in w1.stack[q]
    ensures RanAlone(w, t, w2)
  {
    forall q: nat | q < |w.head|
      ensures LeftBy(w, t, w2, q)
    {
      assert LeftBy(w, t, w1, q) && LeftBy(w1, t, w2, q);
      assert w1.stack[q] == [t] + w2.stack[q] ==> w1.stack[q][0] == t;
    }
    forall u: nat | u < |w.state| && u != t && w2.state[u] != w.state[u]
      ensures w2.state[u] == Running && ToldBy(w, t, u)
    {
      if w2.state[u] != w1.state[u] {
        assert ToldBy(w1, t, u);
      }
    }
  }

  /** Running a waiter concerns nobody but itself and those it makes runnable. */
  lemma {:induction false} UnwindAlone(w: World, t: nat)
    requires Inv(w) && CanResume(w, t)
    ensures RanAlone(w, t, Unwind(w, t))
    decreases |w.waiter[t].entries| - w.waiter[t].pos
  {
    hide Inv;
    InvShape(w);
    var table := w.waiter[t];
    if table.pos == |table.entries| {
      return;
    }
    var h := w.head[table.entries[table.pos].queue];
    if h.Some? && h.value != t {
      assert ToldBy(w, t, h.value);
      return;
    }
    PopInv(w, t);
    PopAlone(w, t);
    UnwindAlone(Pop(w, t), t);
    ListedOf(w, t);
    HeadSaved(w, t);
    AloneTwice(w, t, Pop(w, t), Unwind(w, t));
  }

  lemma ListedOf(w: World, t: nat)
    requires Inv(w) && Waits(w, t)
    ensures Shape(w) && Listed(w, t)
  {
  }

  /** wake_up makes the youngest sleeper of the queue runnable and nobody else. */
  lemma WakeUpExact(w: World, q: nat)
    requires Inv(w) && q < |w.head|
    ensures var w' := WakeUp(w, q);
            && w' == w.(state := w'.state) && |w'.state| == |w.state|
            && forall u: nat :: u < |w.state| ==>
                 w'.state[u] == if w.stack[q] != [] && w.stack[q][0] == u then Running else w.state[u]
  {
    assert Chained(w, q);
  }

  /** Making a task runnable. */
  lemma WakeInv(w: World, t: nat)
    requires Inv(w) && t < |w.state|
    ensures Inv(Wake(w, Some(t)))
  {
    var w' := Wake(w, Some(t));
    assert forall u: nat :: u < |w.waiter| && Active(w, u) ==> Active(w', u);
    forall q: nat | q < |w'.head|
      ensures Chained(w', q) && Ordered(w', q)
    {
      SameTablesChained(w, w', |w.waiter|, q);
    }
    forall u: nat | Waits(w', u)
      ensures Listed(w', u)
      ensures w'.waiter[u].unwinding && w'.state[u] != Running ==> Backed(w', u)
    {
      assert Listed(w, u);
      if w'.waiter[u].unwinding && w'.state[u] != Running {
        assert Backed(w, u);
      }
    }
  }

  // ------------------------------------------------------------- going to sleep

  /** `t` is joining its queues now: it is younger than every other waiter. */
  ghost predicate Joining(w: World, t: nat)
    requires Shape(w)
  {
    Waits(w, t) && w.waiter[t].pos == 0 && !w.waiter[t].unwinding
    && forall u: nat :: Waits(w, u) && u != t ==> w.waiter[u].stamp < w.waiter[t].stamp
  }

  lemma StartInv(w: World, t: nat, how: RunState)
    requires Inv(w) && t < |w.state| && w.waiter[t] == NotWaiting
    ensures var w' := w.(waiter := w.waiter[t := Waiting([], 0, false, w.clock)], state := w.state[t := how],
        clock := w.clock + 1);
            Inv(w') && Joining(w', t)
  {
    var w' := w.(waiter := w.waiter[t := Waiting([], 0, false, w.clock)], state := w.state[t := how],
        clock := w.clock + 1);
    assert forall u: nat :: u < |w.waiter| && Active(w, u) ==> Active(w', u);
    forall q: nat | q < |w'.head|
      ensures Chained(w', q) && Ordered(w', q)
    {
      SameTablesChained(w, w', |w.waiter|, q);
    }
    forall q: nat | q < |w.head|
      ensures t !in w.stack[q]
    {
      if t in w.stack[q] { StackBound(w, q, t); }
    }
    forall u: nat | Waits(w', u)
      ensures Listed(w', u)
      ensures u != t ==> w'.waiter[u].stamp < w.clock
    {
      assert u != t ==> Listed(w, u);
    }
    forall u: nat | Waits(w', u) && w'.waiter[u].unwinding && w'.state[u] != Running
      ensures Backed(w', u)
    {
      SameTablesBacked(w, w', t, u);
    }
  }

  lemma PushSaved(w: World, t: nat, q: nat, p: nat, k: nat)
    requires Inv(w) && Joining(w, t) && !InTable(w.waiter[t].entries, q) && q < |w.head| && p < |w.head|
        && k < |w.stack[p]|
    ensures Saved(Push(w, t, q), w.stack[p][k], p, Below(w.stack[p], k)) && Waits(w, w.stack[p][k])
    ensures p == q ==> w.stack[p][k] != t
  {
    assert Chained(w, p);
    var u, next := w.stack[p][k], Below(w.stack[p], k);
    assert Saved(w, u, p, next);
    var e :| w.waiter[u].pos <= e < |w.waiter[u].entries| && w.waiter[u].entries[e] == WaitEntry(p, next);
    assert Push(w, t, q).waiter[u].entries[e] == WaitEntry(p, next);
  }

  /** The queue joined: its new top saved the old one. */
  lemma PushTop(w: World, t: nat, q: nat)
    requires Inv(w) && Joining(w, t) && !InTable(w.waiter[t].entries, q) && q < |w.head|
    ensures Chained(Push(w, t, q), q)
  {
    var w' := Push(w, t, q);
    var s, s' := w.stack[q], w'.stack[q];
    assert Chained(w, q) && s' == [t] + s;
    assert Saved(w', t, q, Below(s', 0)) by {
      assert w'.waiter[t].entries[|w.waiter[t].entries|] == WaitEntry(q, Below(s', 0));
    }
    forall k: nat | 0 < k < |s'|
      ensures Saved(w', s'[k], q, Below(s', k))
    {
      PushSaved(w, t, q, q, k - 1);
      assert s'[k] == s[k - 1] && Below(s', k) == Below(s, k - 1);
    }
  }

  lemma PushTopOrdered(w: World, t: nat, q: nat)
    requires Inv(w) && Joining(w, t) && !InTable(w.waiter[t].entries, q) && q < |w.head|
    ensures Ordered(Push(w, t, q), q)
  {
    var w' := Push(w, t, q);
    var s, s' := w.stack[q], w'.stack[q];
    assert Ordered(w, q) && s' == [t] + s;
    forall k: nat | 0 < k < |s'|
      ensures Waits(w, s'[k]) && s'[k] != t
    {
      PushSaved(w, t, q, q, k - 1);
      assert s'[k] == s[k - 1];
    }
    forall k: nat, l: nat | k < l < |s'| && Waits(w', s'[k]) && Waits(w', s'[l])
      ensures w'.waiter[s'[k]].stamp > w'.waiter[s'[l]].stamp
    {
      if k > 0 {
        assert s'[k] == s[k - 1] && s'[l] == s[l - 1];
      }
    }
  }

  lemma PushOther(w: World, t: nat, q: nat, p: nat)
    requires Inv(w) && Joining(w, t) && !InTable(w.waiter[t].entries, q) && q < |w.head| && p < |w.head| && p != q
    ensures Chained(Push(w, t, q), p) && Ordered(Push(w, t, q), p)
  {
    var w' := Push(w, t, q);
    assert Chained(w, p) && Ordered(w, p);
    forall k: nat | k < |w.stack[p]|
      ensures Saved(w', w.stack[p][k], p, Below(w.stack[p], k)) && Waits(w, w.stack[p][k])
    {
      PushSaved(w, t, q, p, k);
    }
  }

  lemma PushInv(w: World, t: nat, q: nat)
    requires Inv(w) && Joining(w, t) && !InTable(w.waiter[t].entries, q) && q < |w.head|
    ensures Inv(Push(w, t, q)) && Joining(Push(w, t, q), t)
  {
    var w' := Push(w, t, q);
    forall p: nat | p < |w'.head|
      ensures Chained(w', p) && Ordered(w', p)
    {
      if p == q { PushTop(w, t, q); PushTopOrdered(w, t, q); } else { PushOther(w, t, q, p); }
    }
    forall u: nat | Waits(w', u)
      ensures Listed(w', u)
    {
      assert Listed(w, u) && Listed(w, t);
    }
    forall u: nat | Waits(w', u) && w'.waiter[u].unwinding && w'.state[u] != Running
      ensures Backed(w', u)
    {
      assert Backed(w, u);
      var p := w.waiter[u].entries[w.waiter[u].pos].queue;
      var v :| v in w.stack[p] && Active(w, v) && w.waiter[v].stamp > w.waiter[u].stamp;
      assert v in w'.stack[p] && Active(w', v);
    }
  }

  lemma AddWaitInv(w: World, t: nat, q: nat)
    requires Inv(w) && Joining(w, t) && q < |w.head|
    ensures Inv(AddWait(w, t, q)) && Joining(AddWait(w, t, q), t)
  {
    if !InTable(w.waiter[t].entries, q) {
      PushInv(w, t, q);
    }
  }

  lemma {:induction false} AddAllInv(w: World, t: nat, qs: seq<nat>)
    requires Inv(w) && Joining(w, t) && forall k :: 0 <= k < |qs| ==> qs[k] < |w.head|
    ensures Inv(AddAll(w, t, qs)) && Joining(AddAll(w, t, qs), t)
    ensures AddAll(w, t, qs).state == w.state
    decreases |qs|
  {
    if qs == [] {
      return;
    }
    AddWaitInv(w, t, qs[0]);
    AddAllInv(AddWait(w, t, qs[0]), t, qs[1..]);
  }

  /** The queues of a list in order, repetitions left out. */
  function Distinct(qs: seq<nat>): (r: seq<nat>)
    ensures forall q :: q in r <==> q in qs
    decreases |qs|
  {
    if qs == [] then []
    else
      var r, q := Distinct(qs[..|qs| - 1]), qs[|qs| - 1];
      if q in r then r else r + [q]
  }

  /** What joining comes to: the task is on top of every queue of the list and of no other, and has saved, in the
      order of the list and once for each queue, who was on top before; nobody else's table has changed. */
  ghost predicate Joined(w: World, t: nat, qs: seq<nat>, w': World)
    requires Shape(w) && Shape(w') && t < |w.waiter| == |w'.waiter| && |w'.head| == |w.head|
    requires forall k :: 0 <= k < |qs| ==> qs[k] < |w.head|
  {
    var d := Distinct(qs);
    && Waits(w', t) && w'.waiter[t].pos == 0 && !w'.waiter[t].unwinding && |w'.waiter[t].entries| == |d|
    && (forall e :: 0 <= e < |d| ==> d[e] in qs && w'.waiter[t].entries[e] == WaitEntry(d[e], w.head[d[e]]))
    && (forall q: nat :: q < |w.head| ==>
          && w'.head[q] == (if q in qs then Some(t) else w.head[q])
          && w'.stack[q] == (if q in qs then [t] + w.stack[q] else w.stack[q]))
    && (forall u: nat :: u < |w.waiter| && u != t ==> w'.waiter[u] == w.waiter[u])
  }

  lemma {:induction false} AddAllLast(w: World, t: nat, qs: seq<nat>)
    requires Shape(w) && t < |w.state| && w.waiter[t].Waiting? && forall k :: 0 <= k < |qs| ==> qs[k] < |w.head|
    requires qs != []
    ensures var n := |qs| - 1;
            var w1 := AddAll(w, t, qs[..n]);
            w1.waiter[t].Waiting? && AddAll(w, t, qs) == AddWait(w1, t, qs[n])
    decreases |qs|
  {
    hide AddWait, Shape;
    if |qs| > 1 {
      AddAllLast(AddWait(w, t, qs[0]), t, qs[1..]);
      assert qs[1..][..|qs| - 2] == qs[..|qs| - 1][1..];
    }
  }

  /** `w0` is the state with an empty table. */
  lemma {:induction false} AddAllJoins(w0: World, t: nat, qs: seq<nat>)
    requires Shape(w0) && t < |w0.state| && forall k :: 0 <= k < |qs| ==> qs[k] < |w0.head|
    requires Waits(w0, t) && w0.waiter[t].entries == [] && w0.waiter[t].pos == 0 && !w0.waiter[t].unwinding
    ensures Joined(w0, t, qs, AddAll(w0, t, qs))
    ensures AddAll(w0, t, qs).waiter[t].stamp == w0.waiter[t].stamp && AddAll(w0, t, qs).clock == w0.clock
    decreases |qs|
  {
    if qs == [] {
      return;
    }
    var n := |qs| - 1;
    AddAllLast(w0, t, qs);
    AddAllJoins(w0, t, qs[..n]);
    JoinOne(w0, t, qs, AddAll(w0, t, qs[..n]));
  }

  lemma JoinOne(w0: World, t: nat, qs: seq<nat>, w1: World)
    requires Shape(w0) && Shape(w1) && t < |w0.waiter| == |w1.waiter| && |w1.head| == |w0.head| && qs != []
    requires forall k :: 0 <= k < |qs| ==> qs[k] < |w0.head|
    requires Joined(w0, t, qs[..|qs| - 1], w1)
    ensures Joined(w0, t, qs, AddWait(w1, t, qs[|qs| - 1]))
  {
    var q, d := qs[|qs| - 1], Distinct(qs[..|qs| - 1]);
    assert q in d <==> InTable(w1.waiter[t].entries, q) by {
      if q in d {
        var e :| 0 <= e < |d| && d[e] == q;
        assert w1.waiter[t].entries[e].queue == q;
      }
    }
    assert qs == qs[..|qs| - 1] + [q];
  }

  lemma EnterInv(w: World, t: nat, qs: seq<nat>, how: RunState)
    requires Inv(w) && t < |w.state| && w.waiter[t] == NotWaiting && forall k :: 0 <= k < |qs| ==> qs[k] < |w.head|
    ensures Inv(Enter(w, t, qs, how)) && Joining(Enter(w, t, qs, how), t)
    ensures Enter(w, t, qs, how).state == w.state[t := how]
    ensures Joined(w, t, qs, Enter(w, t, qs, how))
  {
    hide Inv, AddAll;
    InvShape(w);
    StartInv(w, t, how);
    var w0 := w.(waiter := w.waiter[t := Waiting([], 0, false, w.clock)], state := w.state[t := how],
                 clock := w.clock + 1);
    AddAllInv(w0, t, qs);
    AddAllJoins(w0, t, qs);
  }

  lemma InvShape(w: World)
    requires Inv(w)
    ensures Shape(w)
  {
  }
}

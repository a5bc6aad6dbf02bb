/**
 Every interleaving of sleepers, wake-ups and signals: the stacks survive, unwinding
 ends, and no wake-up is lost.
*/
module WaitRuns {
  import opened WaitQueues

  datatype Step =
    | Sleep(task: nat, queues: seq<nat>, how: RunState)  // sleep_on with one queue, select with any number
    | Poll(task: nat, queues: seq<nat>)                  // a select that finds something ready: in and out again
    | Resume(task: nat)
    | WakeQueue(queue: nat)
    | Interrupt(task: nat)

  ghost predicate Enabled(w: World, step: Step)
    requires Shape(w)
  {
    match step
    case Sleep(t, qs, how) => 0 < t < |w.state| && w.waiter[t] == NotWaiting && how != Running
        && forall k :: 0 <= k < |qs| ==> qs[k] < |w.head|
    case Poll(t, qs) => 0 < t < |w.state| && w.waiter[t] == NotWaiting && forall k :: 0 <= k < |qs| ==> qs[k] < |w.head|
    case Resume(t) => CanResume(w, t)
    case WakeQueue(q) => q < |w.head|
    case Interrupt(t) => t < |w.state|
  }

  ghost function Next(w: World, step: Step): (w': World)
    requires Shape(w) && Enabled(w, step)
    ensures Shape(w') && |w'.state| == |w.state| && |w'.head| == |w.head|
  {
    match step
    case Sleep(t, qs, how) => Enter(w, t, qs, how)
    case Poll(t, qs) => var w1 := Enter(w, t, qs, Running); if Waits(w1, t) then Unwind(w1, t) else w1
    case Resume(t) => Unwind(w, t)
    case WakeQueue(q) => WakeUp(w, q)
    case Interrupt(t) => Signal(w, t)
  }

  lemma NextInv(w: World, step: Step)
    requires Inv(w) && Enabled(w, step)
    ensures Inv(Next(w, step))
  {
    match step {
      case Sleep(t, qs, how) => EnterInv(w, t, qs, how);
      case Poll(t, qs) =>
        EnterInv(w, t, qs, Running);
        UnwindInv(Enter(w, t, qs, Running), t);
      case Resume(t) => UnwindInv(w, t);
      case WakeQueue(q) => if w.head[q].Some? { WakeInv(w, w.head[q].value); }
      case Interrupt(t) => WakeInv(w, t);
    }
  }

  /** Runs the enabled steps of a list, in order. */
  ghost function Run(w: World, steps: seq<Step>): (w': World)
    requires Shape(w)
    ensures Shape(w')
    decreases |steps|
  {
    if steps == [] then w else Run(if Enabled(w, steps[0]) then Next(w, steps[0]) else w, steps[1..])
  }

  ghost predicate Youngest(w: World, t: nat)
    requires Waits(w, t)
  {
    forall u: nat :: Waits(w, u) ==> w.waiter[u].stamp <= w.waiter[t].stamp
  }

  /** After any interleaving of sleeps, selects, wake-ups, signals and resumed waiters, the saved
      pointers of each queue spell out one stack in order of enqueueing, youngest first, and the
      youngest of all waiters is the head of every queue it still has to leave. */
  lemma {:induction false} StacksInEveryRun(w: World, steps: seq<Step>)
    requires Inv(w)
    ensures var w' := Run(w, steps);
            && Inv(w')
            && (forall q: nat :: q < |w'.head| ==> Chained(w', q) && Ordered(w', q))
            && (forall t: nat, e: nat ::
                Waits(w', t) && Youngest(w', t) && w'.waiter[t].pos <= e < |w'.waiter[t].entries| ==>
                  w'.head[w'.waiter[t].entries[e].queue] == Some(t))
    decreases |steps|
  {
    if steps == [] {
      forall t: nat, e: nat | Waits(w, t) && Youngest(w, t) && w.waiter[t].pos <= e < |w.waiter[t].entries|
        ensures w.head[w.waiter[t].entries[e].queue] == Some(t)
      {
        HeadIsYounger(w, t, e);
      }
      return;
    }
    if Enabled(w, steps[0]) {
      NextInv(w, steps[0]);
      StacksInEveryRun(Next(w, steps[0]), steps[1..]);
    } else {
      StacksInEveryRun(w, steps[1..]);
    }
  }

  /** A resumed waiter either leaves all its queues, or has made a strictly younger one runnable:
      the head of the queue it is blocked on. */
  lemma {:induction false} BlockedWakesYounger(w: World, t: nat)
    requires Inv(w) && CanResume(w, t)
    ensures var w' := Unwind(w, t);
            w'.waiter[t] == NotWaiting ||
            (Waits(w', t) && w'.state[t] == Uninterruptible && w'.waiter[t].pos < |w'.waiter[t].entries|
             && w'.waiter[t].stamp == w.waiter[t].stamp
             && var h := w'.head[w'.waiter[t].entries[w'.waiter[t].pos].queue];
                h.Some? && CanResume(w', h.value) && w'.waiter[h.value].stamp > w'.waiter[t].stamp)
    decreases |w.waiter[t].entries| - w.waiter[t].pos
  {
    var table := w.waiter[t];
    if table.pos == |table.entries| {
      return;
    }
    var h := w.head[table.entries[table.pos].queue];
    if h.Some? && h.value != t {
      BlockInv(w, t);
      return;
    }
    PopInv(w, t);
    BlockedWakesYounger(Pop(w, t), t);
  }

  ghost predicate OnlyQueue(w: World, q: nat) {
    forall t: nat, e: nat :: Waits(w, t) && e < |w.waiter[t].entries| ==> w.waiter[t].entries[e].queue == q
  }

  /** While a waiter is active, some waiter at least as young is runnable: no deadlock. If everybody
      waits on one queue only, a runnable one is on that queue. */
  lemma {:induction false} ActiveMeansRunnable(w: World, u: nat) returns (r: nat)
    requires Inv(w) && Active(w, u)
    ensures CanResume(w, r) && w.waiter[r].stamp >= w.waiter[u].stamp
    ensures forall q: nat :: q < |w.head| && u in w.stack[q] && OnlyQueue(w, q) ==> r in w.stack[q]
    decreases w.clock - w.waiter[u].stamp
  {
    assert Listed(w, u);
    if w.state[u] == Running {
      return u;
    }
    assert Backed(w, u);
    var v :| v in w.stack[w.waiter[u].entries[w.waiter[u].pos].queue] && Active(w, v)
        && w.waiter[v].stamp > w.waiter[u].stamp;
    assert Listed(w, v);
    r := ActiveMeansRunnable(w, v);
  }

  /** A waiter that ran to the end is on no queue any more; the queues it was on top of are as they were below it. */
  lemma PolledQueue(w: World, t: nat, qs: seq<nat>, w1: World, w': World, q: nat)
    requires Inv(w) && Inv(w') && Shape(w) && Shape(w1) && Shape(w') && t < |w.waiter| == |w1.waiter|
    requires |w.head| == |w1.head| == |w'.head| && |w.state| == |w1.state| == |w'.state| && q < |w.head|
    requires forall k :: 0 <= k < |qs| ==> qs[k] < |w.head|
    requires w.waiter[t] == NotWaiting && t < |w'.waiter| && w'.waiter[t] == NotWaiting
    requires Joined(w, t, qs, w1) && LeftBy(w1, t, w', q)
    ensures w'.stack[q] == w.stack[q] && w'.head[q] == w.head[q]
  {
    if t in w.stack[q] {
      StackBound(w, q, t);
    }
    if t in w'.stack[q] {
      StackBound(w', q, t);
    }
    assert q in qs ==> w1.stack[q] == [t] + w.stack[q] && w1.stack[q][0] == t;
    assert w1.stack[q] == [t] + w'.stack[q] ==> w1.stack[q][0] == t && w1.stack[q][1..] == w'.stack[q];
    assert q in qs ==> w1.stack[q][1..] == w.stack[q];
    assert Chained(w, q) && Chained(w', q);
  }

  /** A select that finds something ready leaves at once every queue it has joined: queues and tables are as they
      were before the call. */
  lemma PollUndone(w: World, t: nat, qs: seq<nat>)
    requires Inv(w) && Enabled(w, Poll(t, qs))
    ensures var w' := Next(w, Poll(t, qs));
            w'.head == w.head && w'.stack == w.stack && w'.waiter == w.waiter
  {
    hide Inv, Unwind, Enter, Joined, RanAlone, Joining;
    InvShape(w);
    EnterInv(w, t, qs, Running);
    var w1 := Enter(w, t, qs, Running);
    JoiningWaits(w1, t);
    UnwindInv(w1, t);
    UnwindAlone(w1, t);
    PollLeaves(w1, t);
    var w' := Unwind(w1, t);
    InvShape(w');
    AloneParts(w1, t, w');
    JoinedOthers(w, t, qs, w1);
    forall q: nat | q < |w.head|
      ensures w'.stack[q] == w.stack[q] && w'.head[q] == w.head[q]
    {
      PolledQueue(w, t, qs, w1, w', q);
    }
  }

  lemma JoiningWaits(w: World, t: nat)
    requires Shape(w) && Joining(w, t)
    ensures Waits(w, t)
  {
  }

  lemma AloneParts(w: World, t: nat, w': World)
    requires Shape(w) && Shape(w') && |w'.head| == |w.head| && |w'.state| == |w.state| && Waits(w, t)
    requires RanAlone(w, t, w')
    ensures forall q: nat :: q < |w.head| ==> LeftBy(w, t, w', q)
    ensures forall u: nat :: u < |w.waiter| && u != t ==> w'.waiter[u] == w.waiter[u]
  {
    hide LeftBy;
  }

  lemma JoinedOthers(w: World, t: nat, qs: seq<nat>, w1: World)
    requires Shape(w) && Shape(w1) && t < |w.waiter| == |w1.waiter| && |w1.head| == |w.head|
    requires forall k :: 0 <= k < |qs| ==> qs[k] < |w.head|
    requires Joined(w, t, qs, w1)
    ensures forall u: nat :: u < |w.waiter| && u != t ==> w1.waiter[u] == w.waiter[u]
  {
  }

  /** The youngest waiter is never blocked. */
  lemma PollLeaves(w: World, t: nat)
    requires Inv(w) && Shape(w) && CanResume(w, t) && Joining(w, t)
    ensures Unwind(w, t).waiter[t] == NotWaiting
  {
    hide Inv, Unwind;
    BlockedWakesYounger(w, t);
    UnwindAlone(w, t);
  }

  /** An uninterruptible sleeper is made runnable by a wake_up of a queue it heads, or by a waiter that unwinds a queue
      on which it is the head or the next one down, and by nothing else. */
  lemma OnlyWokenBy(w: World, step: Step, u: nat)
    requires Inv(w) && Shape(w) && Enabled(w, step) && Waits(w, u) && w.state[u] == Uninterruptible
    requires Next(w, step).state[u] == Running
    ensures match step
            case WakeQueue(q) => w.head[q] == Some(u)
            case Resume(t) => ToldBy(w, t, u)
            case Poll(t, qs) => exists q :: q in qs && q < |w.head| && w.head[q] == Some(u)
            case _ => false
  {
    match step {
      case Sleep(t, qs, how) => EnterInv(w, t, qs, how);
      case Poll(t, qs) =>
        EnterInv(w, t, qs, Running);
        UnwindAlone(Enter(w, t, qs, Running), t);
        PollTells(w, t, qs, Enter(w, t, qs, Running), u);
      case Resume(t) => UnwindAlone(w, t);
      case WakeQueue(q) =>
      case Interrupt(t) =>
    }
  }

  lemma PollTells(w: World, t: nat, qs: seq<nat>, w1: World, u: nat)
    requires Shape(w) && Shape(w1) && t < |w.waiter| == |w1.waiter| && |w1.head| == |w.head|
    requires forall k :: 0 <= k < |qs| ==> qs[k] < |w.head|
    requires Joined(w, t, qs, w1) && u != t
    ensures ToldBy(w1, t, u) ==> exists q :: q in qs && q < |w.head| && w.head[q] == Some(u)
  {
    if ToldBy(w1, t, u) {
      var e :| w1.waiter[t].pos <= e < |w1.waiter[t].entries| &&
          (w1.head[w1.waiter[t].entries[e].queue] == Some(u) || w1.waiter[t].entries[e].oldTask == Some(u));
      var q := Distinct(qs)[e];
      assert q in qs && w1.waiter[t].entries[e] == WaitEntry(q, w.head[q]);
    }
  }

  // ---------------------------------------------------- unwinding terminates

  function Pow2(n: nat): (p: nat)
    ensures p >= 1
  {
    if n == 0 then 1 else 2 * Pow2(n - 1)
  }

  lemma {:induction false} Pow2Grows(m: nat, n: nat)
    requires m < n
    ensures Pow2(m) < Pow2(n)
    decreases n
  {
    if m < n - 1 {
      Pow2Grows(m, n - 1);
    }
  }

  function Sum(s: seq<nat>): nat {
    if s == [] then 0 else s[0] + Sum(s[1..])
  }

  lemma {:induction false} SumUpdate(s: seq<nat>, i: nat, v: nat)
    requires i < |s|
    ensures Sum(s[i := v]) + s[i] == Sum(s) + v
    decreases |s|
  {
    if i > 0 {
      assert s[i := v][1..] == s[1..][i - 1 := v];
      SumUpdate(s[1..], i - 1, v);
    } else {
      assert s[i := v][1..] == s[1..];
    }
  }

  /** Entries a waiter still has to unwind, and what its being runnable weighs: more than all younger waiters
      together. */
  function Left(x: Waiter): nat {
    if x.Waiting? && x.pos <= |x.entries| then |x.entries| - x.pos else 0
  }

  function Weight(x: Waiter, s: RunState, clock: nat): nat {
    if x.Waiting? && s == Running && x.stamp < clock then Pow2(clock - x.stamp) else 0
  }

  function Lefts(ws: seq<Waiter>): (s: seq<nat>)
    ensures |s| == |ws|
  {
    seq(|ws|, t requires 0 <= t < |ws| => Left(ws[t]))
  }

  function Weights(ws: seq<Waiter>, ss: seq<RunState>, clock: nat): (s: seq<nat>)
    requires |ss| == |ws|
    ensures |s| == |ws|
  {
    seq(|ws|, t requires 0 <= t < |ws| && |ss| == |ws| => Weight(ws[t], ss[t], clock))
  }

  lemma LeftsUpdate(ws: seq<Waiter>, t: nat, x: Waiter)
    requires t < |ws|
    ensures Sum(Lefts(ws[t := x])) + Left(ws[t]) == Sum(Lefts(ws)) + Left(x)
  {
    assert Lefts(ws[t := x]) == Lefts(ws)[t := Left(x)];
    SumUpdate(Lefts(ws), t, Left(x));
  }

  lemma WeightsUpdate(ws: seq<Waiter>, ss: seq<RunState>, clock: nat, t: nat, x: Waiter, y: RunState)
    requires t < |ws| == |ss|
    ensures Sum(Weights(ws[t := x], ss[t := y], clock)) + Weight(ws[t], ss[t], clock)
         == Sum(Weights(ws, ss, clock)) + Weight(x, y, clock)
  {
    assert Weights(ws[t := x], ss[t := y], clock) == Weights(ws, ss, clock)[t := Weight(x, y, clock)];
    SumUpdate(Weights(ws, ss, clock), t, Weight(x, y, clock));
  }

  function TotalLeft(w: World): nat {
    Sum(Lefts(w.waiter))
  }

  function TotalWeight(w: World): nat
    requires |w.state| == |w.waiter|
  {
    Sum(Weights(w.waiter, w.state, w.clock))
  }

  ghost predicate Shrinks(w: World, w': World)
    requires Shape(w) && Shape(w')
  {
    TotalLeft(w') < TotalLeft(w) || (TotalLeft(w') == TotalLeft(w) && TotalWeight(w') < TotalWeight(w))
  }

  lemma BlockShrinks(w: World, t: nat)
    requires Inv(w) && CanResume(w, t) && w.waiter[t].pos < |w.waiter[t].entries|
    requires var h := w.head[w.waiter[t].entries[w.waiter[t].pos].queue]; h.Some? && h.value != t
    ensures Shrinks(w, Block(w, t, w.head[w.waiter[t].entries[w.waiter[t].pos].queue].value))
  {
    HeadIsYounger(w, t, w.waiter[t].pos);
    var h := w.head[w.waiter[t].entries[w.waiter[t].pos].queue].value;
    assert Listed(w, t) && Listed(w, h);
    var x := w.waiter[t].(unwinding := true);
    LeftsUpdate(w.waiter, t, x);
    assert w.waiter[h := w.waiter[h]] == w.waiter;
    WeightsUpdate(w.waiter, w.state, w.clock, h, w.waiter[h], Running);
    WeightsUpdate(w.waiter, w.state[h := Running], w.clock, t, x, Uninterruptible);
    Pow2Grows(w.clock - w.waiter[h].stamp, w.clock - w.waiter[t].stamp);
  }

  lemma {:induction false} PopLeft(w: World, t: nat)
    requires Shape(w) && Waits(w, t)
    ensures TotalLeft(Unwind(w, t)) <= TotalLeft(w)
    ensures w.waiter[t].pos < |w.waiter[t].entries|
            && (w.head[w.waiter[t].entries[w.waiter[t].pos].queue] == None
                || w.head[w.waiter[t].entries[w.waiter[t].pos].queue] == Some(t))
            ==> TotalLeft(Unwind(w, t)) < TotalLeft(w)
    decreases |w.waiter[t].entries| - w.waiter[t].pos
  {
    var table := w.waiter[t];
    if table.pos == |table.entries| {
      LeftsUpdate(w.waiter, t, NotWaiting);
      return;
    }
    var h := w.head[table.entries[table.pos].queue];
    if h.Some? && h.value != t {
      LeftsUpdate(w.waiter, t, table.(unwinding := true));
      return;
    }
    LeftsUpdate(w.waiter, t, table.(pos := table.pos + 1));
    PopLeft(Pop(w, t), t);
  }

  /** Running any waiter shrinks (entries left, weight of the runnable): unwinding never cycles. */
  lemma ResumeShrinks(w: World, t: nat)
    requires Inv(w) && CanResume(w, t)
    ensures Shrinks(w, Unwind(w, t))
  {
    var table := w.waiter[t];
    if table.pos == |table.entries| {
      assert Listed(w, t);
      LeftsUpdate(w.waiter, t, NotWaiting);
      assert w.state[t := w.state[t]] == w.state;
      WeightsUpdate(w.waiter, w.state, w.clock, t, NotWaiting, w.state[t]);
      return;
    }
    var h := w.head[table.entries[table.pos].queue];
    if h.Some? && h.value != t {
      BlockShrinks(w, t);
      return;
    }
    PopLeft(w, t);
  }

  // ------------------------------------------------------- no lost wake-ups

  /** The queue is empty, or one of its sleepers is on its way out. */
  ghost predicate Stirred(w: World, q: nat)
    requires Shape(w) && q < |w.head|
  {
    w.stack[q] == [] || exists u :: u in w.stack[q] && Active(w, u)
  }

  lemma PopStirred(w: World, t: nat, q: nat)
    requires Inv(w) && CanResume(w, t) && w.waiter[t].pos < |w.waiter[t].entries| && q < |w.head|
    requires var q0 := w.waiter[t].entries[w.waiter[t].pos].queue; w.head[q0] == None || w.head[q0] == Some(t)
    requires Stirred(w, q)
    ensures Stirred(Pop(w, t), q)
  {
    HeadSaved(w, t);
    var w' := Pop(w, t);
    var e := w.waiter[t].entries[w.waiter[t].pos];
    if w'.stack[q] == [] {
      return;
    }
    if q == e.queue {
      // the task below has just been woken
      var s := w.stack[q];
      assert Saved(w, s[1], q, Below(s, 1)) by { assert Chained(w, q); }
      assert w'.stack[q][0] == s[1] && Active(w', s[1]);
    } else {
      var u :| u in w.stack[q] && Active(w, u);
      assert u in w'.stack[q] && Active(w', u);
    }
  }

  /** A stirred queue stays stirred until it has drained, whoever runs. */
  lemma {:induction false} UnwindStirred(w: World, t: nat, q: nat)
    requires Inv(w) && CanResume(w, t) && q < |w.head| && Stirred(w, q)
    ensures Stirred(Unwind(w, t), q)
    decreases |w.waiter[t].entries| - w.waiter[t].pos
  {
    var table := w.waiter[t];
    if table.pos == |table.entries| {
      var w' := Unwind(w, t);
      if w.stack[q] != [] {
        var u :| u in w.stack[q] && Active(w, u);
        var k := StackAt(w, u, q);
        assert Active(w', u);
      }
      return;
    }
    var h := w.head[table.entries[table.pos].queue];
    if h.Some? && h.value != t {
      var w' := Block(w, t, h.value);
      assert forall u: nat :: u < |w.waiter| && Active(w, u) ==> Active(w', u);
      return;
    }
    PopStirred(w, t, q);
    PopInv(w, t);
    UnwindStirred(Pop(w, t), t, q);
  }

  /** Active waiters stay active until they have left all their queues. */
  lemma {:induction false} UnwindActive(w: World, t: nat, u: nat)
    requires Inv(w) && CanResume(w, t) && (Active(w, u) || (u < |w.waiter| && w.waiter[u] == NotWaiting))
    ensures Active(Unwind(w, t), u) || (u < |Unwind(w, t).waiter| && Unwind(w, t).waiter[u] == NotWaiting)
    decreases |w.waiter[t].entries| - w.waiter[t].pos
  {
    var table := w.waiter[t];
    if table.pos == |table.entries| {
      return;
    }
    var h := w.head[table.entries[table.pos].queue];
    if h.Some? && h.value != t {
      return;
    }
    PopInv(w, t);
    UnwindActive(Pop(w, t), t, u);
  }

  /** The scheduler's choice among the runnable waiters. */
  ghost function Chosen(w: World, pick: World -> nat): (t: nat)
    requires exists t: nat :: CanResume(w, t)
    ensures CanResume(w, t)
  {
    if CanResume(w, pick(w)) then pick(w)
    else
      var t: nat :| CanResume(w, t);
      t
  }

  /** Lets runnable waiters run, in whatever order the scheduler picks them, until none is left. */
  ghost function Settle(w: World, pick: World -> nat): (w': World)
    requires Inv(w)
    ensures Inv(w') && |w'.head| == |w.head| && |w'.waiter| == |w.waiter|
    ensures forall t: nat :: !CanResume(w', t)
    decreases TotalLeft(w), TotalWeight(w)
  {
    if forall t: nat :: !CanResume(w, t) then w
    else
      var t := Chosen(w, pick);
      UnwindInv(w, t);
      ResumeShrinks(w, t);
      Settle(Unwind(w, t), pick)
  }

  lemma {:induction false} SettleStirred(w: World, pick: World -> nat, q: nat)
    requires Inv(w) && q < |w.head| && Stirred(w, q)
    ensures Stirred(Settle(w, pick), q)
    decreases TotalLeft(w), TotalWeight(w)
  {
    if forall t: nat :: !CanResume(w, t) {
      return;
    }
    var t := Chosen(w, pick);
    UnwindInv(w, t);
    ResumeShrinks(w, t);
    UnwindStirred(w, t, q);
    SettleStirred(Unwind(w, t), pick, q);
  }

  lemma {:induction false} SettleActive(w: World, pick: World -> nat, u: nat)
    requires Inv(w) && (Active(w, u) || (u < |w.waiter| && w.waiter[u] == NotWaiting))
    ensures Active(Settle(w, pick), u) || Settle(w, pick).waiter[u] == NotWaiting
    decreases TotalLeft(w), TotalWeight(w)
  {
    if forall t: nat :: !CanResume(w, t) {
      return;
    }
    var t := Chosen(w, pick);
    UnwindInv(w, t);
    ResumeShrinks(w, t);
    UnwindActive(w, t, u);
    SettleActive(Unwind(w, t), pick, u);
  }

  /** No wake-up is lost: after one wake_up of a queue, with no new sleepers, every schedule runs
      out of runnable waiters, by then the queue is empty, and every waiter that was on its way out is out. */
  lemma WakeUpDrains(w: World, q: nat, pick: World -> nat, u: nat)
    requires Inv(w) && q < |w.head|
    ensures Inv(WakeUp(w, q))
    ensures var w' := Settle(WakeUp(w, q), pick);
            && w'.stack[q] == [] && w'.head[q] == None
            && (Active(WakeUp(w, q), u) ==> w'.waiter[u] == NotWaiting)
            && forall v: nat :: v < |w'.waiter| ==> !Active(w', v)
  {
    var w1 := WakeUp(w, q);
    assert Chained(w, q);
    if w.head[q].Some? {
      WakeInv(w, w.head[q].value);
      assert Saved(w, w.stack[q][0], q, Below(w.stack[q], 0));
      assert w1.stack[q][0] in w1.stack[q] && Active(w1, w.head[q].value);
    }
    assert Stirred(w1, q);
    SettleStirred(w1, pick, q);
    if Active(w1, u) {
      SettleActive(w1, pick, u);
    }
    var w' := Settle(w1, pick);
    forall v: nat | v < |w'.waiter|
      ensures !Active(w', v)
    {
      if Active(w', v) {
        var r := ActiveMeansRunnable(w', v);
      }
    }
    assert Chained(w', q);
  }

  lemma {:induction false} AddAllStirred(w: World, t: nat, qs: seq<nat>, q: nat, u: nat)
    requires Shape(w) && Waits(w, t) && q < |w.head| && (forall k :: 0 <= k < |qs| ==> qs[k] < |w.head|)
    requires u in w.stack[q] && Active(w, u)
    ensures u in AddAll(w, t, qs).stack[q] && Active(AddAll(w, t, qs), u)
    decreases |qs|
  {
    if qs != [] {
      AddAllStirred(AddWait(w, t, qs[0]), t, qs[1..], q, u);
    }
  }

  /** Under every interleaving, new sleepers and signals included, a woken queue always has
      a sleeper on its way out until it has drained. */
  lemma StirredUntilDrained(w: World, step: Step, q: nat)
    requires Inv(w) && Enabled(w, step) && q < |w.head| && w.stack[q] != [] && Stirred(w, q)
    ensures Stirred(Next(w, step), q)
  {
    var u :| u in w.stack[q] && Active(w, u);
    match step {
      case Sleep(t, qs, how) => EnterStirred(w, t, qs, how, q, u);
      case Poll(t, qs) =>
        EnterStirred(w, t, qs, Running, q, u);
        EnterInv(w, t, qs, Running);
        UnwindStirred(Enter(w, t, qs, Running), t, q);
      case Resume(t) => UnwindStirred(w, t, q);
      case WakeQueue(p) => assert Active(WakeUp(w, p), u);
      case Interrupt(t) => assert Active(Signal(w, t), u);
    }
  }

  lemma EnterStirred(w: World, t: nat, qs: seq<nat>, how: RunState, q: nat, u: nat)
    requires Inv(w) && t < |w.state| && w.waiter[t] == NotWaiting && forall k :: 0 <= k < |qs| ==> qs[k] < |w.head|
    requires q < |w.head| && u in w.stack[q] && Active(w, u)
    ensures Stirred(Enter(w, t, qs, how), q)
  {
    var w1 := w.(waiter := w.waiter[t := Waiting([], 0, false, w.clock)], state := w.state[t := how],
        clock := w.clock + 1);
    assert u != t && Active(w1, u);
    AddAllStirred(w1, t, qs, q, u);
  }
}

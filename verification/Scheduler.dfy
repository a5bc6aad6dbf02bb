/**
 The scheduler of 0.12: pick the running task with the largest counter; when all of them
 are used up, give every task half its counter and its priority.
*/
module Scheduler {
  datatype Mode = Running | Interruptible | Uninterruptible | Zombie | Stopped

  datatype Task = NoTask
    | Task(mode: Mode, counter: int, priority: int, timeout: int, alarm: int, signal: set<nat>, blocked: set<nat>)

  const SIGKILL: nat := 9
  const SIGALRM: nat := 14
  const SIGSTOP: nat := 19

  predicate Runnable(t: Task) {
    t.Task? && t.mode == Running
  }

  // ------------------------------------------------------------------ the code

  /** Are there signals that _BLOCKABLE & blocked does not hold back? */
  predicate Signalled(t: Task)
    requires t.Task?
  {
    t.signal - (t.blocked - {SIGKILL, SIGSTOP}) != {}
  }

  /** schedule's first loop, for one task: its timeout, its alarm, its signals. */
  function Alarmed(t: Task, jiffies: int): (r: Task)
    ensures r.Task? == t.Task?
    ensures t.Task? ==>
        r.counter == t.counter && r.priority == t.priority && (t.mode != Interruptible ==> r.mode == t.mode)
  {
    if t.NoTask? then t
    else
      var t1 := if t.timeout != 0 && t.timeout < jiffies then
                  t.(timeout := 0, mode := if t.mode == Interruptible then Running else t.mode)
                else t;
      var t2 := if t1.alarm != 0 && t1.alarm < jiffies then t1.(signal := t1.signal + {SIGALRM}, alarm := 0) else t1;
      if Signalled(t2) && t2.mode == Interruptible then t2.(mode := Running) else t2
  }

  predicate AlarmDue(t: Task, jiffies: int)
    requires t.Task?
  {
    t.alarm != 0 && t.alarm < jiffies
  }

  /** A sleeper is woken exactly if it is interruptible and its timeout has passed or a signal, SIGALRM of an
      alarm now due included, is not blocked; SIGKILL and SIGSTOP never are. A timeout or alarm that is due is
      cleared, so each alarm is signalled once; one that is not due stays. */
  lemma AlarmedExact(t: Task, jiffies: int)
    requires t.Task?
    ensures var r := Alarmed(t, jiffies);
            && r.signal == t.signal + (if AlarmDue(t, jiffies) then {SIGALRM} else {}) && r.blocked == t.blocked
            && r.alarm == (if AlarmDue(t, jiffies) then 0 else t.alarm)
            && r.timeout == (if t.timeout != 0 && t.timeout < jiffies then 0 else t.timeout)
            && (r.mode != t.mode ==> r.mode == Running)
            && (r.mode == Running <==> (t.mode == Running || (t.mode == Interruptible &&
                  ((t.timeout != 0 && t.timeout < jiffies)
                   || exists n :: n in r.signal && (n !in t.blocked || n == SIGKILL || n == SIGSTOP)))))
  {
    var r := Alarmed(t, jiffies);
    var open := r.signal - (t.blocked - {SIGKILL, SIGSTOP});
    if n :| n in open {
      assert n in r.signal && (n !in t.blocked || n == SIGKILL || n == SIGSTOP);
    }
    if n :| n in r.signal && (n !in t.blocked || n == SIGKILL || n == SIGSTOP) {
      assert n in open;
    }
  }

  function AllAlarmed(ts: seq<Task>, jiffies: int): (r: seq<Task>)
    ensures |r| == |ts| && forall i :: 0 <= i < |ts| ==> r[i] == if i == 0 then ts[0] else Alarmed(ts[i], jiffies)
  {
    seq(|ts|, i requires 0 <= i < |ts| => if i == 0 then ts[0] else Alarmed(ts[i], jiffies))
  }

  /** c and next after the selection loop has come down to task i. */
  function Scan(ts: seq<Task>, i: nat): (r: (int, nat))
    requires 1 <= i
    decreases |ts| - i
  {
    if i >= |ts| then (-1, 0)
    else
      var (c, next) := Scan(ts, i + 1);
      if Runnable(ts[i]) && ts[i].counter > c then (ts[i].counter, i) else (c, next)
  }

  function Best(ts: seq<Task>): int {
    Scan(ts, 1).0
  }

  function Picked(ts: seq<Task>): nat {
    Scan(ts, 1).1
  }

  function Recharge(t: Task): Task {
    if t.NoTask? then t else t.(counter := t.counter / 2 + t.priority)
  }

  /** A recharge halves what a sleeping task's counter lacks of 2 * priority - 1: it only gains by sleeping, up to
      there. */
  lemma RechargeHalvesShortfall(t: Task)
    requires t.Task? && 0 <= t.counter < 2 * t.priority
    ensures 2 * t.priority - 1 - Recharge(t).counter == (2 * t.priority - 1 - t.counter) / 2
    ensures t.counter <= Recharge(t).counter < 2 * t.priority
  {
  }

  function Recharged(ts: seq<Task>): (r: seq<Task>)
    ensures |r| == |ts| && forall i :: 0 <= i < |ts| ==> r[i] == if i == 0 then ts[0] else Recharge(ts[i])
  {
    seq(|ts|, i requires 0 <= i < |ts| => if i == 0 then ts[0] else Recharge(ts[i]))
  }

  // ------------------------------------------------------------- the selection

  ghost predicate Counted(ts: seq<Task>) {
    forall i :: 1 <= i < |ts| && ts[i].Task? ==> ts[i].counter >= 0
  }

  /** Task k is the choice among i and up: none running has a larger counter, and none above it an equal one. */
  ghost predicate Largest(ts: seq<Task>, i: nat, k: nat) {
    && i <= k < |ts| && Runnable(ts[k])
    && (forall j :: i <= j < |ts| && Runnable(ts[j]) ==> ts[j].counter <= ts[k].counter)
    && (forall j :: k < j < |ts| && Runnable(ts[j]) ==> ts[j].counter < ts[k].counter)
  }

  /** The loop ends with the running task that has most left, the last of several, or with task 0 when none runs. */
  lemma {:induction false} ScanIsLargest(ts: seq<Task>, i: nat)
    requires Counted(ts) && 1 <= i
    ensures var (c, next) := Scan(ts, i);
            if exists j :: i <= j < |ts| && Runnable(ts[j])
            then Largest(ts, i, next) && c == ts[next].counter
            else c == -1 && next == 0
    decreases |ts| - i
  {
    if i < |ts| {
      ScanIsLargest(ts, i + 1);
    }
  }

  ghost predicate Prioritised(ts: seq<Task>) {
    forall i :: 1 <= i < |ts| && ts[i].Task? ==> ts[i].priority >= 1
  }

  /** With priorities of at least 1, one recharge is enough: what is picked after it has something left. */
  lemma OneRecharge(ts: seq<Task>)
    requires Counted(ts) && Prioritised(ts) && Best(ts) == 0
    ensures Best(Recharged(ts)) >= 1
    ensures forall i :: 1 <= i < |ts| && Runnable(ts[i]) ==>
        ts[i].counter == 0 && Recharged(ts)[i].counter == ts[i].priority
  {
    ScanIsLargest(ts, 1);
    ScanIsLargest(Recharged(ts), 1);
    assert Runnable(Recharged(ts)[Picked(ts)]);
  }

  function RechargedTimes(ts: seq<Task>, n: nat): (r: seq<Task>)
    ensures |r| == |ts|
    decreases n
  {
    if n == 0 then ts else RechargedTimes(Recharged(ts), n - 1)
  }

  ghost predicate NoneNegative(ts: seq<Task>) {
    forall i :: 1 <= i < |ts| && ts[i].Task? ==> ts[i].counter >= 0 && ts[i].priority >= 0
  }

  ghost predicate SomePriority(ts: seq<Task>) {
    exists i :: 1 <= i < |ts| && Runnable(ts[i]) && ts[i].priority > 0
  }

  /** schedule's endless loop ends exactly when something is picked at once or some running task has a priority. */
  lemma {:induction false} EndsIff(ts: seq<Task>)
    requires NoneNegative(ts)
    ensures (exists n: nat :: Best(RechargedTimes(ts, n)) != 0) <==> Best(ts) != 0 || SomePriority(ts)
  {
    ScanIsLargest(ts, 1);
    if Best(ts) != 0 {
      assert Best(RechargedTimes(ts, 0)) != 0;
    } else if SomePriority(ts) {
      var i :| 1 <= i < |ts| && Runnable(ts[i]) && ts[i].priority > 0;
      ScanIsLargest(Recharged(ts), 1);
      assert Runnable(Recharged(ts)[i]) && Recharged(ts)[i].counter > 0;
      assert RechargedTimes(ts, 1) == RechargedTimes(Recharged(ts), 0) == Recharged(ts);
      assert Best(RechargedTimes(ts, 1)) != 0;
    } else {
      forall n: nat ensures Best(RechargedTimes(ts, n)) == 0 {
        Spins(ts, n);
      }
    }
  }

  lemma {:induction false} Spins(ts: seq<Task>, n: nat)
    requires NoneNegative(ts) && Best(ts) == 0 && !SomePriority(ts)
    ensures Best(RechargedTimes(ts, n)) == 0
    decreases n
  {
    if n > 0 {
      ScanIsLargest(ts, 1);
      var ts1 := Recharged(ts);
      ScanIsLargest(ts1, 1);
      assert Runnable(ts1[Picked(ts)]);
      assert forall i :: 1 <= i < |ts| && Runnable(ts1[i]) ==> Runnable(ts[i]) && ts1[i].counter == 0;
      Spins(ts1, n - 1);
    }
  }

  // ------------------------------------------------------------------- epochs

  /** Since the last recharge: the counter a task started with, the ticks it ran, and those that found its counter at
      0. */
  datatype Hist = Hist(start: int, used: nat, over: nat)

  /** The tasks and their history at a recharge. */
  datatype Epoch = Epoch(tasks: seq<Task>, hist: seq<Hist>)

  datatype State = State(tasks: seq<Task>, cur: nat, hist: seq<Hist>, log: seq<Epoch>)

  predicate Shape(s: State) {
    s.cur < |s.tasks| == |s.hist| && s.tasks[0].Task? && s.tasks[s.cur].Task?
  }

  function Opened(ts: seq<Task>): (r: seq<Hist>)
    ensures |r| == |ts| && forall i :: 0 <= i < |ts| ==> r[i] == Hist(if ts[i].Task? then ts[i].counter else 0, 0, 0)
  {
    seq(|ts|, i requires 0 <= i < |ts| => Hist(if ts[i].Task? then ts[i].counter else 0, 0, 0))
  }

  lemma {:induction false} PickedIsTask(ts: seq<Task>, i: nat)
    requires 1 <= i && ts != []
    ensures Scan(ts, i).1 < |ts| && (Scan(ts, i).1 == 0 || Runnable(ts[Scan(ts, i).1]))
    decreases |ts| - i
  {
    if i < |ts| {
      PickedIsTask(ts, i + 1);
    }
  }

  function Select(s: State): (s': State)
    requires Shape(s)
    ensures Shape(s')
  {
    var ts := s.tasks;
    PickedIsTask(ts, 1);
    if Best(ts) != 0 then s.(cur := Picked(ts))
    else
      var ts1 := Recharged(ts);
      PickedIsTask(ts1, 1);
      State(ts1, Picked(ts1), Opened(ts1), s.log + [Epoch(ts, s.hist)])
  }

  function Schedule(s: State, jiffies: int): (s': State)
    requires Shape(s)
    ensures Shape(s')
  {
    Select(s.(tasks := AllAlarmed(s.tasks, jiffies)))
  }

  function Charged(h: Hist, counter: int): Hist {
    Hist(h.start, h.used + 1, if counter <= 0 then h.over + 1 else h.over)
  }

  /** A tick charged to the current task. */
  function Charge(s: State): (s': State)
    requires Shape(s)
    ensures Shape(s')
  {
    var t := s.tasks[s.cur];
    s.(tasks := s.tasks[s.cur := t.(counter := if t.counter - 1 > 0 then t.counter - 1 else 0)],
       hist := s.hist[s.cur := Charged(s.hist[s.cur], t.counter)])
  }

  /** The end of do_timer. */
  function Tick(s: State, user: bool, jiffies: int): (s': State)
    requires Shape(s)
    ensures Shape(s')
  {
    var t := s.tasks[s.cur];
    var s1 := Charge(s);
    if t.counter - 1 > 0 || !user then s1 else Schedule(s1, jiffies)
  }

  /** A tick costs the current task one count and no other task anything, and in kernel mode it ends there: the
      current task goes on, its counter used up or not. In user mode schedule is called exactly when the tick used up
      the last of it. */
  lemma TickExact(s: State, user: bool, jiffies: int)
    requires Shape(s) && s.tasks[s.cur].counter >= 0
    ensures var c := s.tasks[s.cur].counter;
            var charged := s.tasks[s.cur := s.tasks[s.cur].(counter := if c == 0 then 0 else c - 1)];
            var s' := Tick(s, user, jiffies);
            if !user || c > 1 then s'.tasks == charged && s'.cur == s.cur && s'.log == s.log
            else exists s1 :: Shape(s1) && s1.tasks == charged && s1.cur == s.cur && s1.log == s.log
                   && s' == Schedule(s1, jiffies)
  {
    assert Shape(Charge(s));
  }

  datatype Step =
    | Ticks(user: bool, jiffies: int)
    | Sleep(mode: Mode, jiffies: int)           // the current task sets its state and calls schedule
    | Wake(i: nat)
    | Fork(i: nat, task: Task)
    | Release(i: nat)

  predicate Enabled(s: State, step: Step) {
    Shape(s) && match step
    case Ticks(_, _) => true
    case Sleep(_, _) => true
    case Wake(i) => i < |s.tasks| && s.tasks[i].Task?
    case Fork(i, t) => 1 <= i < |s.tasks| && s.tasks[i].NoTask? && t.Task? && t.counter == t.priority >= 1
    case Release(i) => 1 <= i < |s.tasks| && i != s.cur
  }

  function Next(s: State, step: Step): (s': State)
    requires Enabled(s, step)
    ensures Shape(s')
  {
    match step
    case Ticks(user, j) => Tick(s, user, j)
    case Sleep(m, j) => Schedule(s.(tasks := s.tasks[s.cur := s.tasks[s.cur].(mode := m)]), j)
    case Wake(i) => s.(tasks := s.tasks[i := s.tasks[i].(mode := Running)])
    case Fork(i, t) => s.(tasks := s.tasks[i := t], hist := s.hist[i := Hist(t.counter, 0, 0)])
    case Release(i) => s.(tasks := s.tasks[i := NoTask])
  }

  /** A task's books: what it has used and has left is what it started with and what it ran with nothing left. */
  ghost predicate Balanced(t: Task, h: Hist) {
    t.Task? ==>
      && 0 <= t.counter < 2 * t.priority && t.priority >= 1
      && h.used + t.counter == h.start + h.over
  }

  /** At a recharge every running task has used exactly what it started with. */
  ghost predicate Spent(e: Epoch) {
    |e.tasks| == |e.hist| &&
    forall i :: 1 <= i < |e.tasks| && Runnable(e.tasks[i]) ==> e.hist[i].used == e.hist[i].start + e.hist[i].over
  }

  ghost predicate Inv(s: State) {
    && Shape(s)
    && (forall i :: 1 <= i < |s.tasks| ==> Balanced(s.tasks[i], s.hist[i]))
    && (forall k :: 0 <= k < |s.log| ==> Spent(s.log[k]))
  }

  lemma SelectInv(s: State)
    requires Inv(s)
    ensures Inv(Select(s)) && s.log <= Select(s).log && |Select(s).log| <= |s.log| + 1
    ensures Select(s).cur != 0 ==>
        Runnable(Select(s).tasks[Select(s).cur]) && Select(s).tasks[Select(s).cur].counter >= 1
    ensures Select(s).cur == 0 ==> forall i :: 1 <= i < |s.tasks| ==> !Runnable(s.tasks[i])
    ensures |Select(s).log| > |s.log| <==> Best(s.tasks) == 0
  {
    var ts := s.tasks;
    ScanIsLargest(ts, 1);
    PickedIsTask(ts, 1);
    if Best(ts) == 0 {
      OneRecharge(ts);
      ScanIsLargest(Recharged(ts), 1);
      assert Runnable(Recharged(ts)[Picked(ts)]);
      forall i | 1 <= i < |ts| ensures Balanced(Select(s).tasks[i], Select(s).hist[i]) {
        assert Balanced(ts[i], s.hist[i]);
      }
    }
  }

  lemma AlarmedInv(s: State, jiffies: int)
    requires Inv(s)
    ensures Inv(s.(tasks := AllAlarmed(s.tasks, jiffies)))
  {
    var s' := s.(tasks := AllAlarmed(s.tasks, jiffies));
    forall i | 1 <= i < |s.tasks| ensures Balanced(s'.tasks[i], s.hist[i]) {
      assert Balanced(s.tasks[i], s.hist[i]);
    }
  }

  lemma ChargeInv(s: State)
    requires Inv(s)
    ensures Inv(Charge(s))
  {
    forall i | 1 <= i < |s.tasks| ensures Balanced(Charge(s).tasks[i], Charge(s).hist[i]) {
      assert Balanced(s.tasks[i], s.hist[i]);
    }
  }

  lemma ScheduleInv(s: State, jiffies: int)
    requires Inv(s)
    ensures Inv(Schedule(s, jiffies)) && s.log <= Schedule(s, jiffies).log && |Schedule(s, jiffies).log| <= |s.log| + 1
    ensures Rested(Schedule(s, jiffies))
  {
    hide Select, AllAlarmed, Alarmed;
    AlarmedInv(s, jiffies);
    SelectInv(s.(tasks := AllAlarmed(s.tasks, jiffies)));
  }

  /** The current task has something left, unless it is task 0. */
  predicate Rested(s: State)
    requires Shape(s)
  {
    s.cur == 0 || s.tasks[s.cur].counter >= 1
  }

  /** What every step keeps: the books balance, counters stay below twice the priority, and each recharge found every
      running task spent. */
  lemma NextInv(s: State, step: Step)
    requires Inv(s) && Enabled(s, step)
    ensures Inv(Next(s, step)) && s.log <= Next(s, step).log && |Next(s, step).log| <= |s.log| + 1
  {
    hide Schedule, Balanced, Spent;
    match step {
      case Ticks(user, j) =>
        ChargeInv(s);
        ScheduleInv(Charge(s), j);
      case Sleep(m, j) =>
        ReplaceMode(s, s.cur, m);
        ScheduleInv(s.(tasks := s.tasks[s.cur := s.tasks[s.cur].(mode := m)]), j);
      case Wake(i) => ReplaceMode(s, i, Running);
      case Fork(i, t) => ReplaceNew(s, i, t);
      case Release(i) => ReplaceNone(s, i);
    }
  }

  lemma ReplaceMode(s: State, i: nat, m: Mode)
    requires Inv(s) && i < |s.tasks| && s.tasks[i].Task?
    ensures Inv(s.(tasks := s.tasks[i := s.tasks[i].(mode := m)]))
  {
  }

  lemma ReplaceNew(s: State, i: nat, t: Task)
    requires Inv(s) && 1 <= i < |s.tasks| && i != s.cur && t.Task? && t.counter == t.priority >= 1
    ensures Inv(s.(tasks := s.tasks[i := t], hist := s.hist[i := Hist(t.counter, 0, 0)]))
  {
  }

  lemma ReplaceNone(s: State, i: nat)
    requires Inv(s) && 1 <= i < |s.tasks| && i != s.cur
    ensures Inv(s.(tasks := s.tasks[i := NoTask]))
  {
  }

  // --------------------------------------------------------------------- runs

  ghost predicate Legal(s: State, steps: seq<Step>)
    decreases |steps|
  {
    steps == [] || (Enabled(s, steps[0]) && Legal(Next(s, steps[0]), steps[1..]))
  }

  ghost function Run(s: State, steps: seq<Step>): State
    requires Legal(s, steps)
    decreases |steps|
  {
    if steps == [] then s else Run(Next(s, steps[0]), steps[1..])
  }

  predicate UserTick(step: Step) {
    step.Ticks? ==> step.user
  }

  /** A recharge that found every running task with exactly its starting counter used. */
  ghost predicate ExactlySpent(e: Epoch) {
    |e.tasks| == |e.hist| &&
    forall i :: 1 <= i < |e.tasks| && Runnable(e.tasks[i]) ==> e.hist[i].used == e.hist[i].start
  }

  /** No tick so far has found the current task's counter at 0. */
  ghost predicate Unforced(s: State) {
    && Inv(s) && Rested(s)
    && (forall i :: 1 <= i < |s.tasks| && s.tasks[i].Task? ==> s.hist[i].over == 0)
    && (forall k :: 0 <= k < |s.log| ==> ExactlySpent(s.log[k]))
  }

  lemma SelectUnforced(s: State)
    requires Inv(s) && forall i :: 1 <= i < |s.tasks| && s.tasks[i].Task? ==> s.hist[i].over == 0
    requires forall k :: 0 <= k < |s.log| ==> ExactlySpent(s.log[k])
    ensures Unforced(Select(s))
  {
    hide Balanced, Scan;
    SelectInv(s);
    if Best(s.tasks) == 0 {
      var e := Epoch(s.tasks, s.hist);
      assert Select(s).log[|s.log|] == e && Spent(e);
      assert ExactlySpent(e);
    }
  }

  lemma ScheduleUnforced(s: State, jiffies: int)
    requires Inv(s) && forall i :: 1 <= i < |s.tasks| && s.tasks[i].Task? ==> s.hist[i].over == 0
    requires forall k :: 0 <= k < |s.log| ==> ExactlySpent(s.log[k])
    ensures Unforced(Schedule(s, jiffies))
  {
    hide Balanced, Select, ExactlySpent;
    AlarmedInv(s, jiffies);
    SelectUnforced(s.(tasks := AllAlarmed(s.tasks, jiffies)));
  }

  lemma NextUnforced(s: State, step: Step)
    requires Unforced(s) && Enabled(s, step) && UserTick(step)
    ensures Unforced(Next(s, step))
  {
    hide Schedule, Balanced, Spent, ExactlySpent;
    NextInv(s, step);
    match step {
      case Ticks(user, j) =>
        if s.tasks[s.cur].counter - 1 <= 0 {
          ChargeInv(s);
          ScheduleUnforced(Charge(s), j);
        }
      case Sleep(m, j) =>
        ReplaceMode(s, s.cur, m);
        ScheduleUnforced(s.(tasks := s.tasks[s.cur := s.tasks[s.cur].(mode := m)]), j);
      case _ =>
    }
  }

  /** In any run whose ticks come in user mode, with tasks sleeping, waking, starting and ending at will:
      counters stay below twice the priority, and no recharge happens before every running task has used up
      exactly the counter it started with. */
  lemma {:induction false} EpochsAreFair(s: State, steps: seq<Step>)
    requires Unforced(s) && Legal(s, steps) && forall i :: 0 <= i < |steps| ==> UserTick(steps[i])
    ensures Unforced(Run(s, steps))
    decreases |steps|
  {
    if steps != [] {
      NextUnforced(s, steps[0]);
      EpochsAreFair(Next(s, steps[0]), steps[1..]);
    }
  }

  /** n task slots with only task 0 in use. */
  function Boot(n: nat, idle: Task): (s: State)
    requires n >= 1
  {
    var ts := [idle] + seq(n - 1, i => NoTask);
    State(ts, 0, Opened(ts), [])
  }

  lemma BootUnforced(n: nat, idle: Task)
    requires n >= 1 && idle.Task?
    ensures Unforced(Boot(n, idle))
  {
  }

  /** Every run from boot whose ticks come in user mode is fair. */
  lemma FairFromBoot(n: nat, idle: Task, steps: seq<Step>)
    requires n >= 1 && idle.Task? && Legal(Boot(n, idle), steps)
    requires forall i :: 0 <= i < |steps| ==> UserTick(steps[i])
    ensures Unforced(Run(Boot(n, idle), steps))
  {
    BootUnforced(n, idle);
    EpochsAreFair(Boot(n, idle), steps);
  }

  /** Whatever the mode of the ticks, the excess is exactly the ticks that found the counter at 0. */
  lemma {:induction false} EpochsBalance(s: State, steps: seq<Step>)
    requires Inv(s) && Legal(s, steps)
    ensures Inv(Run(s, steps)) && s.log <= Run(s, steps).log
    decreases |steps|
  {
    if steps != [] {
      NextInv(s, steps[0]);
      EpochsBalance(Next(s, steps[0]), steps[1..]);
    }
  }

  // ------------------------------------------------------------ a fixed set of tasks

  /** What the running tasks from i on have left together. */
  function Left(ts: seq<Task>, i: nat): int
    decreases |ts| - i
  {
    if i >= |ts| then 0 else (if Runnable(ts[i]) then ts[i].counter else 0) + Left(ts, i + 1)
  }

  lemma {:induction false} LeftAtLeast(ts: seq<Task>, i: nat, k: nat)
    requires Counted(ts) && 1 <= i <= k < |ts| && Runnable(ts[k])
    ensures Left(ts, i) >= ts[k].counter
    decreases |ts| - i
  {
    if i < k {
      LeftAtLeast(ts, i + 1, k);
    } else {
      LeftPositive(ts, i + 1);
    }
  }

  lemma {:induction false} LeftPositive(ts: seq<Task>, i: nat)
    requires Counted(ts) && 1 <= i
    ensures Left(ts, i) >= 0
    decreases |ts| - i
  {
    if i < |ts| {
      LeftPositive(ts, i + 1);
    }
  }

  /** Nothing is left exactly when the selection comes out at 0, given that a task runs. */
  lemma {:induction false} NothingLeft(ts: seq<Task>, i: nat)
    requires Counted(ts) && 1 <= i
    ensures Scan(ts, i).0 <= 0 <==> Left(ts, i) == 0
    decreases |ts| - i
  {
    LeftPositive(ts, i);
    if i < |ts| {
      NothingLeft(ts, i + 1);
      LeftPositive(ts, i + 1);
    }
  }

  /** Two task lists that differ in what task k has left. */
  lemma {:induction false} LeftDiffers(ts: seq<Task>, ts': seq<Task>, i: nat, k: nat)
    requires |ts| == |ts'| && k < |ts|
    requires forall j :: i <= j < |ts| ==> Runnable(ts'[j]) == Runnable(ts[j])
    requires forall j :: i <= j < |ts| && Runnable(ts[j]) && Runnable(ts'[j]) ==>
        ts'[j].counter == ts[j].counter - (if j == k then 1 else 0)
    ensures Left(ts', i) == Left(ts, i) - (if i <= k && Runnable(ts[k]) then 1 else 0)
    decreases |ts| - i
  {
    if i < |ts| {
      LeftDiffers(ts, ts', i + 1, k);
    }
  }

  /** Nothing will wake a task that is not running. */
  predicate Settled(t: Task) {
    t.Task? && t.mode == Interruptible ==> t.timeout == 0 && t.alarm == 0 && !Signalled(t)
  }

  /** A task runs, none will start to, and the current one has something left. */
  ghost predicate Steady(s: State) {
    && Unforced(s) && s.cur != 0 && Runnable(s.tasks[s.cur])
    && (forall i :: 1 <= i < |s.tasks| ==> Settled(s.tasks[i]))
  }

  ghost predicate SameTasks(ts: seq<Task>, ts': seq<Task>) {
    |ts'| == |ts| && forall i :: 1 <= i < |ts| ==> Runnable(ts'[i]) == Runnable(ts[i])
  }

  /** The state schedule selects from, after a tick that used up the current task's counter. */
  function Due(s: State, jiffies: int): (s': State)
    requires Shape(s)
    ensures Shape(s')
  {
    var s1 := Charge(s);
    s1.(tasks := AllAlarmed(s1.tasks, jiffies))
  }

  lemma DueSteady(s: State, jiffies: int)
    requires Steady(s)
    ensures var ts := Due(s, jiffies).tasks;
            && SameTasks(s.tasks, ts) && Left(ts, 1) == Left(s.tasks, 1) - 1 && Counted(ts)
            && (forall i :: 1 <= i < |ts| ==> Settled(ts[i]))
  {
    var s1 := Charge(s);
    var ts := Due(s, jiffies).tasks;
    LeftDiffers(s.tasks, ts, 1, s.cur);
    assert Counted(ts) by {
      forall i | 1 <= i < |ts| && ts[i].Task? ensures ts[i].counter >= 0 {
        assert Balanced(s.tasks[i], s.hist[i]);
      }
    }
  }

  /** A user tick in a steady state. */
  ghost predicate TickDone(s: State, s': State) {
    && Shape(s) && Shape(s') && Steady(s') && SameTasks(s.tasks, s'.tasks)
    && (Left(s.tasks, 1) > 1 ==>
          s'.log == s.log && Left(s'.tasks, 1) == Left(s.tasks, 1) - 1
          && forall i :: 1 <= i < |s.tasks| && Runnable(s.tasks[i]) ==> s'.hist[i].start == s.hist[i].start)
    && (Left(s.tasks, 1) == 1 ==> Turned(s, s'))
  }

  /** The tick brought a recharge: its record follows the log, and every running task starts with at least its
      priority. */
  ghost predicate Turned(s: State, s': State)
    requires Shape(s) && Shape(s') && |s.tasks| == |s'.tasks|
  {
    && |s'.log| == |s.log| + 1 && s.log <= s'.log
    && var e := s'.log[|s.log|];
    && |e.tasks| == |s.tasks| && ExactlySpent(e) && SameTasks(s.tasks, e.tasks)
    && (forall i :: 1 <= i < |s.tasks| && Runnable(s.tasks[i]) ==>
          && e.hist[i].start == s.hist[i].start && e.hist[i].used == s.hist[i].used + s.tasks[i].counter
          && Runnable(s'.tasks[i]) && s'.tasks[i].counter >= s'.tasks[i].priority >= 1)
  }

  lemma ChargeDone(s: State)
    requires Steady(s) && s.tasks[s.cur].counter > 1
    ensures TickDone(s, Charge(s))
  {
    hide Spent, ExactlySpent;
    ChargeInv(s);
    forall i | 1 <= i < |s.tasks| ensures Settled(Charge(s).tasks[i]) {
      assert Settled(s.tasks[i]);
    }
    assert Counted(s.tasks) by {
      forall i | 1 <= i < |s.tasks| && s.tasks[i].Task? ensures s.tasks[i].counter >= 0 {
        assert Balanced(s.tasks[i], s.hist[i]);
      }
    }
    LeftAtLeast(s.tasks, 1, s.cur);
    LeftDiffers(s.tasks, Charge(s).tasks, 1, s.cur);
  }

  /** Whether the selection after a tick comes out at 0, and that it does find a task. */
  lemma DueSelects(s: State, jiffies: int)
    requires Steady(s)
    ensures Best(Due(s, jiffies).tasks) >= 0 && Picked(Due(s, jiffies).tasks) != 0
    ensures Best(Due(s, jiffies).tasks) == 0 <==> Left(s.tasks, 1) == 1
  {
    var ts := Due(s, jiffies).tasks;
    DueSteady(s, jiffies);
    NothingLeft(ts, 1);
    ScanIsLargest(ts, 1);
    assert Runnable(ts[s.cur]);
  }

  lemma DueUnforced(s: State, jiffies: int)
    requires Steady(s) && s.tasks[s.cur].counter == 1
    ensures Inv(Due(s, jiffies)) && Unforced(Select(Due(s, jiffies)))
    ensures Select(Due(s, jiffies)) == Tick(s, true, jiffies)
  {
    hide Spent, ExactlySpent, Balanced, Alarmed;
    NextUnforced(s, Ticks(true, jiffies));
    ChargeInv(s);
    AlarmedInv(Charge(s), jiffies);
  }

  lemma SelectSteady(s: State, jiffies: int)
    requires Steady(s) && s.tasks[s.cur].counter == 1
    ensures Steady(Select(Due(s, jiffies))) && SameTasks(s.tasks, Select(Due(s, jiffies)).tasks)
  {
    hide Spent, ExactlySpent, Balanced, Scan;
    var d := Due(s, jiffies);
    var s' := Select(d);
    DueUnforced(s, jiffies);
    DueSteady(s, jiffies);
    DueSelects(s, jiffies);
    SelectRuns(d);
    forall i | 1 <= i < |s.tasks| ensures Settled(s'.tasks[i]) && Runnable(s'.tasks[i]) == Runnable(s.tasks[i]) {
      assert Settled(d.tasks[i]) && Runnable(d.tasks[i]) == Runnable(s.tasks[i]);
    }
  }

  lemma SelectRuns(s: State)
    requires Inv(s) && Picked(s.tasks) != 0
    ensures Select(s).cur != 0 && Runnable(Select(s).tasks[Select(s).cur])
  {
    hide Balanced, Spent;
    PickedIsTask(s.tasks, 1);
    assert Runnable(s.tasks[Picked(s.tasks)]);
    SelectInv(s);
  }

  lemma SelectTurned(s: State, jiffies: int)
    requires Steady(s) && s.tasks[s.cur].counter == 1 && Best(Due(s, jiffies).tasks) == 0
    ensures Turned(s, Select(Due(s, jiffies)))
  {
    hide Scan;
    var d := Due(s, jiffies);
    var s' := Select(d);
    var e := Epoch(d.tasks, d.hist);
    assert s'.log == s.log + [e];
    DueUnforced(s, jiffies);
    DueSteady(s, jiffies);
    OneRecharge(d.tasks);
    forall i | 1 <= i < |s.tasks| && Runnable(s.tasks[i])
      ensures e.hist[i].start == s.hist[i].start && e.hist[i].used == s.hist[i].used + s.tasks[i].counter
      ensures Runnable(s'.tasks[i]) && s'.tasks[i].counter >= s'.tasks[i].priority >= 1
    {
      assert Runnable(d.tasks[i]) && Balanced(s.tasks[i], s.hist[i]) && ExactlySpent(e);
    }
  }

  lemma {:induction false} PositiveLeft(s: State)
    requires Steady(s)
    ensures Left(s.tasks, 1) >= s.tasks[s.cur].counter
  {
    assert Counted(s.tasks) by {
      forall i | 1 <= i < |s.tasks| && s.tasks[i].Task? ensures s.tasks[i].counter >= 0 {
        assert Balanced(s.tasks[i], s.hist[i]);
      }
    }
    LeftAtLeast(s.tasks, 1, s.cur);
  }

  /** One user tick: a tick less left among the running tasks, or, with the last of them, the recharge. */
  lemma TickIsDone(s: State, jiffies: int)
    requires Steady(s)
    ensures TickDone(s, Tick(s, true, jiffies))
  {
    hide Unforced, Select, Turned, Alarmed;
    SteadyShape(s);
    if s.tasks[s.cur].counter > 1 {
      ChargeDone(s);
      return;
    }
    PositiveLeft(s);
    DueUnforced(s, jiffies);
    SelectSteady(s, jiffies);
    DueSelects(s, jiffies);
    if Left(s.tasks, 1) == 1 {
      SelectTurned(s, jiffies);
    } else {
      SelectKeeps(s, jiffies);
    }
  }

  lemma SteadyShape(s: State)
    requires Steady(s)
    ensures Shape(s) && s.cur < |s.tasks| && s.tasks[s.cur].counter >= 1
  {
  }

  lemma SelectKeeps(s: State, jiffies: int)
    requires Steady(s) && Best(Due(s, jiffies).tasks) != 0
    ensures var s' := Select(Due(s, jiffies));
            && s'.log == s.log && Left(s'.tasks, 1) == Left(s.tasks, 1) - 1
            && forall i :: 1 <= i < |s.tasks| && Runnable(s.tasks[i]) ==> s'.hist[i].start == s.hist[i].start
  {
    hide Scan;
    DueSteady(s, jiffies);
  }

  function UserTicks(s: State, js: seq<int>): (s': State)
    requires Shape(s)
    ensures Shape(s')
    decreases |js|
  {
    if js == [] then s else UserTicks(Tick(s, true, js[0]), js[1..])
  }

  /** With a fixed set of running tasks an epoch lasts exactly as many ticks as they have left together: none of
      those ticks recharges before the last, which does; by then each task has run its own counter's worth of
      ticks, and each starts the next epoch with at least its priority, so none starves. */
  lemma {:induction false} EpochLasts(s: State, js: seq<int>)
    requires Steady(s) && |js| <= Left(s.tasks, 1)
    ensures var s' := UserTicks(s, js);
            && Steady(s') && SameTasks(s.tasks, s'.tasks)
            && (|js| < Left(s.tasks, 1) ==> s'.log == s.log && Left(s'.tasks, 1) == Left(s.tasks, 1) - |js|)
            && (|js| == Left(s.tasks, 1) ==> Turned(s, s'))
    decreases |js|
  {
    hide Steady, SameTasks, Turned, Left, Tick;
    LeftIsPositive(s);
    if js == [] {
      SameItself(s.tasks);
      return;
    }
    var s1 := Tick(s, true, js[0]);
    TickIsDone(s, js[0]);
    if |js| == 1 {
      assert js[1..] == [];
      return;
    }
    EpochLasts(s1, js[1..]);
    EpochMore(s, s1, UserTicks(s1, js[1..]), |js|);
  }

  lemma LeftIsPositive(s: State)
    requires Steady(s)
    ensures Left(s.tasks, 1) >= 1 && Shape(s)
  {
    SteadyShape(s);
    PositiveLeft(s);
  }

  lemma SameItself(ts: seq<Task>)
    ensures SameTasks(ts, ts)
  {
  }

  lemma SpentSizes(s: State, k: nat)
    requires Steady(s) && k < |s.log|
    ensures |s.log[k].hist| == |s.log[k].tasks|
  {
    assert Spent(s.log[k]);
  }

  lemma EpochMore(s: State, s1: State, s': State, n: nat)
    requires Steady(s) && TickDone(s, s1) && 2 <= n <= Left(s.tasks, 1)
    requires Steady(s') && Shape(s') && SameTasks(s1.tasks, s'.tasks) && (n - 1 == Left(s1.tasks, 1) ==> Turned(s1, s'))
    ensures SameTasks(s.tasks, s'.tasks) && (n == Left(s.tasks, 1) ==> Turned(s, s'))
  {
    hide ExactlySpent, Spent, Left;
    if n == Left(s.tasks, 1) {
      var e := s'.log[|s.log|];
      assert |e.hist| == |e.tasks| == |s'.tasks| by {
        SpentSizes(s', |s.log|);
        assert Turned(s1, s');
      }
      forall i | 1 <= i < |s.tasks| && Runnable(s.tasks[i])
        ensures e.hist[i].start == s.hist[i].start && e.hist[i].used == s.hist[i].used + s.tasks[i].counter
        ensures Runnable(s'.tasks[i]) && s'.tasks[i].counter >= s'.tasks[i].priority >= 1
      {
        assert Runnable(s1.tasks[i]) && Balanced(s.tasks[i], s.hist[i]) && Balanced(s1.tasks[i], s1.hist[i]);
      }
    }
  }
}

/**
 Whole runs of swapping with its transfers taken apart: nothing is lost exactly as long as no request that
 goes on the list does harm, as none does that overtakes no earlier one for its slot; and forks that sleep
 on the way.
*/
module SwapIoRuns {
  import opened PageTables
  import opened Swap
  import opened SwapIo
  import opened SwapIoContent
  import C = CowPaging

  // --------------------------------------------------------------------- runs

  ghost predicate Legal(s: State, steps: seq<Step>)
    decreases |steps|
  {
    steps == [] || (Typed(s) && Enabled(s, steps[0]) && Legal(Next(s, steps[0]), steps[1..]))
  }

  ghost function Run(s: State, steps: seq<Step>): State
    requires Legal(s, steps)
    decreases |steps|
  {
    if steps == [] then s else Run(Next(s, steps[0]), steps[1..])
  }

  /** No step of the run lets a request overtake an earlier one for its slot. */
  ghost predicate RunInOrder(s: State, steps: seq<Step>)
    requires Legal(s, steps)
    decreases |steps|
  {
    steps == [] || (InOrder(s, steps[0]) && RunInOrder(Next(s, steps[0]), steps[1..]))
  }

  /** No step of the run puts a request on the list that does harm. */
  ghost predicate RunHarmless(s: State, steps: seq<Step>)
    requires Legal(s, steps)
    decreases |steps|
  {
    steps == [] || (Harmless(s, steps[0]) && RunHarmless(Next(s, steps[0]), steps[1..]))
  }

  /** No step of the run loses anything. */
  ghost predicate RunLosesNothing(s: State, steps: seq<Step>)
    requires Legal(s, steps)
    decreases |steps|
  {
    steps == [] || (LosesNothing(s, steps[0]) && RunLosesNothing(Next(s, steps[0]), steps[1..]))
  }

  /** Some step of the run is about the entry. */
  ghost predicate Touched(s: State, steps: seq<Step>, d: nat, i: nat)
    requires Legal(s, steps)
    decreases |steps|
  {
    steps != [] && (Touches(s, steps[0], d, i) || Touched(Next(s, steps[0]), steps[1..], d, i))
  }

  lemma {:induction false} RunKeepsInv(s: State, usable: set<nat>, steps: seq<Step>)
    requires Sound(s, usable) && Legal(s, steps)
    ensures Sound(Run(s, steps), usable)
    decreases |steps|
  {
    if steps != [] {
      hide Sound, Next, Enabled, Typed;
      StepInv(s, usable, steps[0]);
      RunKeepsInv(Next(s, steps[0]), usable, steps[1..]);
    }
  }

  lemma StaysTwice(s: State, q: State, r: State, d: nat, i: nat)
    requires Stays(s, q, d, i) && Stays(q, r, d, i)
    ensures Stays(s, r, d, i)
  {
    LastsTwice(Synced(s), d, i, Synced(q), d, i, Synced(r), d, i);
  }

  /** In every interleaving of tasks, transfers and the buffers' requests, each count is exact and each usable slot
      free or named once. If no request that goes on the list does harm, a dirty or swapped page is never lost: the
      entry stands for the same contents until its own task changes it. */
  lemma {:induction false} SwapIoRun(s: State, usable: set<nat>, steps: seq<Step>, d: nat, i: nat)
    requires Sound(s, usable) && Legal(s, steps) && User(d, i)
    ensures Sound(Run(s, steps), usable)
    ensures Good(s) && RunHarmless(s, steps) ==>
        Good(Run(s, steps)) && (Touched(s, steps, d, i) || Stays(s, Run(s, steps), d, i))
    decreases |steps|
  {
    RunKeepsInv(s, usable, steps);
    if Good(s) && RunHarmless(s, steps) {
      hide Sound, Good, Next, Enabled, Typed, Touches, Harmless, Stays;
      if steps == [] {
        StaysItself(s, usable, d, i);
      } else {
        StepInv(s, usable, steps[0]);
        StepStays(s, usable, steps[0], d, i);
        SwapIoRun(Next(s, steps[0]), usable, steps[1..], d, i);
        if !Touched(s, steps, d, i) {
          StaysTwice(s, Next(s, steps[0]), Run(s, steps), d, i);
        }
      }
    }
  }

  /** The condition is exact: a run in which some request does harm loses something at that very step. */
  lemma {:induction false} RunExact(s: State, usable: set<nat>, steps: seq<Step>)
    requires Sound(s, usable) && Good(s) && Legal(s, steps)
    ensures RunLosesNothing(s, steps) <==> RunHarmless(s, steps)
    decreases |steps|
  {
    if steps != [] {
      hide Sound, Good, Next, Enabled, Typed, Harmless, Stays, Touches;
      StepInv(s, usable, steps[0]);
      StepExact(s, usable, steps[0]);
      if LosesNothing(s, steps[0]) {
        RunExact(Next(s, steps[0]), usable, steps[1..]);
      }
    }
  }

  /** A run in which no request overtakes an earlier one for its slot does no harm. */
  lemma {:induction false} InOrderRun(s: State, usable: set<nat>, steps: seq<Step>)
    requires Sound(s, usable) && Good(s) && Legal(s, steps) && RunInOrder(s, steps)
    ensures RunHarmless(s, steps)
    decreases |steps|
  {
    if steps != [] {
      hide Sound, Good, Next, Enabled, Typed, Harmless, InOrder, Stays;
      InOrderHarmless(s, usable, steps[0]);
      StepInv(s, usable, steps[0]);
      StepStays(s, usable, steps[0], SLOT_DIRS, 0);
      InOrderRun(Next(s, steps[0]), usable, steps[1..]);
    }
  }

  lemma StaysItself(s: State, usable: set<nat>, d: nat, i: nat)
    requires Sound(s, usable) && User(d, i)
    ensures Stays(s, s, d, i)
  {
    SyncedInv(s, usable);
    hide Swap.Inv, Flush;
  }

  /** A kernel with no transfer under way: its tasks run, and the slots without a task have no tables. */
  lemma IdleInv(p: Paging, held: multiset<PageNo>, usable: set<nat>, task: seq<Pc>, buffers: nat)
    requires Swap.Inv(p, held, usable) && |task| == NR_TASKS
    requires forall t: nat {:trigger task[t]} :: t < NR_TASKS ==> task[t].Ready? || task[t].Empty?
    requires forall d: nat {:trigger p.mem.dir[d]} :: SLOT_DIRS <= d < DIRS && task[SlotOf(d)].Empty? ==>
        p.mem.dir[d] == 0
    ensures var s := State(p, held, task, [], [], buffers);
            Sound(s, usable) && Good(s)
  {
    hide PageTables.Inv, Slots;
    forall t: nat | t < NR_TASKS
      ensures PcOk(p.mem, task, t)
    {
      assert task[t].Ready? || task[t].Empty?;
      forall k: nat | t > 0 && task[t].Empty? && k < SLOT_DIRS
        ensures p.mem.dir[DirAt(t, k)] == 0
      {
        assert SlotOf(DirAt(t, k)) == t;
      }
    }
  }

  /** The table of requests has room whenever a page is to be written or read. */
  ghost predicate AlwaysRoom(s: State, steps: seq<Step>)
    requires Legal(s, steps)
    decreases |steps|
  {
    steps == [] || ((steps[0].Take? || steps[0].Reclaim? ==> Room(s)) && AlwaysRoom(Next(s, steps[0]), steps[1..]))
  }

  lemma RoomNobodyWaits(s: State, step: Step)
    requires Typed(s) && Enabled(s, step) && s.asked == [] && (step.Take? || step.Reclaim? ==> Room(s))
    ensures InOrder(s, step) && Next(s, step).asked == []
  {
    hide SwapOut, GetFreePage, FreeTables, GetSwapPage;
  }

  /** With room in the table nothing is overtaken. */
  lemma {:induction false} RoomMeansInOrder(s: State, steps: seq<Step>)
    requires Legal(s, steps) && s.asked == [] && AlwaysRoom(s, steps)
    ensures RunInOrder(s, steps)
    decreases |steps|
  {
    if steps != [] {
      RoomNobodyWaits(s, steps[0]);
      hide Next, Enabled, Typed, InOrder;
      RoomMeansInOrder(Next(s, steps[0]), steps[1..]);
    }
  }

  // ----------------------------------------------------------- runs put together

  lemma RunFirst(s: State, step: Step, rest: seq<Step>)
    requires Typed(s) && Enabled(s, step) && Legal(Next(s, step), rest)
    ensures Legal(s, [step] + rest) && Run(s, [step] + rest) == Run(Next(s, step), rest)
  {
    assert ([step] + rest)[1..] == rest;
  }

  lemma RunNone(s: State)
    ensures Legal(s, []) && Run(s, []) == s
  {
  }

  lemma RunSplit(s: State, a: seq<Step>)
    requires Legal(s, a) && a != []
    ensures Typed(s) && Enabled(s, a[0]) && Legal(Next(s, a[0]), a[1..]) && Run(s, a) == Run(Next(s, a[0]), a[1..])
  {
    hide Next, Enabled, Typed;
  }

  lemma {:induction false} LegalConcat(s: State, a: seq<Step>, b: seq<Step>)
    requires Legal(s, a) && Legal(Run(s, a), b)
    ensures Legal(s, a + b) && Run(s, a + b) == Run(Run(s, a), b)
    decreases |a|
  {
    hide Next, Enabled, Typed, Legal, Run;
    if a == [] {
      RunNone(s);
      assert a + b == b;
    } else {
      RunSplit(s, a);
      LegalConcat(Next(s, a[0]), a[1..], b);
      RunFirst(s, a[0], a[1..] + b);
      assert [a[0]] + (a[1..] + b) == a + b;
    }
  }

  // -------------------------------------------------------- a fork and its child

  /** The fork a task is in, wherever in it the task sleeps. */
  function ForkAt(pc: Pc): Option<Fork> {
    match pc
    case Copying(f) => Some(f)
    case Needing(g) => if g.Table? then Some(g.f) else if g.Dup? then Some(g.f) else None
    case Moving(_, g, _) => if g.Table? then Some(g.f) else if g.Dup? then Some(g.f) else None
    case _ => None
  }

  /** The entry of the later state stands for what the entry of the earlier state stood for. */
  ghost predicate Stands(s: State, d: nat, i: nat, s': State, d': nat, i': nat) {
    && WellFormed(Synced(s)) && WellFormed(Synced(s')) && User(d, i) && User(d', i')
    && LastsAt(Synced(s), d, i, Synced(s'), d', i')
  }

  /** Entry `j` of the `k`-th table has been copied. */
  predicate Past(f: Fork, k: nat, j: nat) {
    k < f.k || (k == f.k && j < f.i)
  }

  /** Since `s0` the parent's entries have stayed, and the child's copies stand for what they stood for then. */
  ghost predicate Snapshot(s0: State, s: State, t: nat, f: Fork) {
    && 0 < t < NR_TASKS && ForkShape(f)
    && (forall k: nat, j: nat {:trigger At(s.p.mem, DirAt(t, k), j)} {:trigger Past(f, k, j)} ::
        k < f.n && j < ENTRIES ==>
          && Stands(s0, DirAt(t, k), j, s, DirAt(t, k), j)
          && (Past(f, k, j) ==> Stands(s0, DirAt(t, k), j, s, DirAt(f.child, k), j)))
  }

  lemma StandsStays(s0: State, d: nat, i: nat, s: State, d': nat, i': nat, s': State)
    requires Stands(s0, d, i, s, d', i') && Stays(s, s', d', i')
    ensures Stands(s0, d, i, s', d', i')
  {
    LastsTwice(Synced(s0), d, i, Synced(s), d', i', Synced(s'), d', i');
  }

  lemma StandsTwice(s0: State, d: nat, i: nat, s: State, d': nat, i': nat, s': State, e: nat, j: nat)
    requires Stands(s0, d, i, s, d', i') && Stands(s, d', i', s', e, j)
    ensures Stands(s0, d, i, s', e, j)
  {
    LastsTwice(Synced(s0), d, i, Synced(s), d', i', Synced(s'), e, j);
  }

  /** Two forks have different parents and children. */
  lemma ForksApart(s: State, usable: set<nat>, t: nat, f: Fork, u: nat)
    requires Sound(s, usable) && 0 < t < NR_TASKS && u < NR_TASKS && ForkAt(s.task[t]) == Some(f)
    ensures 0 < f.child < NR_TASKS && s.task[f.child] == Born(t) && f.child != t
    ensures u != t && ForkAt(s.task[u]).Some? ==>
        ForkAt(s.task[u]).value.child != t && ForkAt(s.task[u]).value.child != f.child
  {
    hide PageTables.Inv, Slots, PagesOk, LineOk;
    assert PcOk(s.p.mem, s.task, t) && PcOk(s.p.mem, s.task, u);
  }

  /** The entry belongs to the parent, or is one the child already has. */
  predicate InSnapshot(t: nat, f: Fork, d: nat, j: nat) {
    SlotOf(d) == t || (SlotOf(d) == f.child && Past(f, InSlot(d), j))
  }

  /** While a task forks, no step is about its own entries or about those its child already has. */
  lemma ForkUntouched(s: State, usable: set<nat>, step: Step, t: nat, f: Fork, d: nat, j: nat)
    requires Sound(s, usable) && Typed(s) && Enabled(s, step) && 0 < t < NR_TASKS && ForkAt(s.task[t]) == Some(f)
    requires InSnapshot(t, f, d, j) && ForkAt(Next(s, step).task[t]).Some?
    ensures !Touches(s, step, d, j)
  {
    ForksApart(s, usable, t, f, t);
    match step {
      case Copy(u) => CopyElsewhere(s, usable, t, f, u, d, j);
      case Wake(u) =>
        if s.task[u].goal.Dup? {
          CopyElsewhere(s, usable, t, f, u, d, j);
        }
      case Reclaim(u) => FailElsewhere(s, usable, t, f, u, d, j);
      case _ => hide Sound, Typed;
    }
  }

  lemma CopyElsewhere(s: State, usable: set<nat>, t: nat, f: Fork, u: nat, d: nat, j: nat)
    requires Sound(s, usable) && 0 < t < NR_TASKS && u < NR_TASKS && ForkAt(s.task[t]) == Some(f)
        && InSnapshot(t, f, d, j)
    requires ForkAt(s.task[u]).Some?
    ensures var g := ForkAt(s.task[u]).value;
            g.k < SLOT_DIRS ==> !(d == To(g) && j == g.i)
  {
    ForksApart(s, usable, t, f, u);
    hide Sound;
    var g := ForkAt(s.task[u]).value;
    if g.k < SLOT_DIRS {
      assert SlotOf(To(g)) == g.child && InSlot(To(g)) == g.k;
    }
  }

  lemma FailElsewhere(s: State, usable: set<nat>, t: nat, f: Fork, u: nat, d: nat, j: nat)
    requires Sound(s, usable) && Typed(s) && Enabled(s, Reclaim(u)) && 0 < t < NR_TASKS && ForkAt(s.task[t]) == Some(f)
    requires InSnapshot(t, f, d, j) && ForkAt(Reclaimed(s, u).task[t]).Some?
    ensures !Touches(s, Reclaim(u), d, j)
  {
    ForksApart(s, usable, t, f, u);
    hide Sound, SwapOut, FreeTables, GetSwapPage;
    if !SwapOut(s.p).1 {
      FailedOwn(s.(p := SwapOut(s.p).0), u);
    }
  }

  /** The step keeps what has been copied and copies what is new. */
  ghost predicate Advances(s: State, s': State, t: nat, f: Fork, f': Fork) {
    && 0 < t < NR_TASKS && ForkShape(f) && ForkShape(f') && f'.child == f.child && f'.n == f.n
    && (forall d: nat, j: nat {:trigger InSnapshot(t, f, d, j)} :: User(d, j) && InSnapshot(t, f, d, j) ==>
        Stays(s, s', d, j))
    && (forall k: nat, j: nat {:trigger Past(f', k, j)} ::
        k < f.n && j < ENTRIES && Past(f', k, j) && !Past(f, k, j) ==>
          Stands(s, DirAt(t, k), j, s', DirAt(f.child, k), j))
  }

  lemma SnapshotNext(s0: State, s: State, s': State, t: nat, f: Fork, f': Fork)
    requires Snapshot(s0, s, t, f) && Advances(s, s', t, f, f')
    ensures Snapshot(s0, s', t, f')
  {
    hide Stands, Stays;
    forall k: nat, j: nat | k < f.n && j < ENTRIES
      ensures Stands(s0, DirAt(t, k), j, s', DirAt(t, k), j)
      ensures Past(f', k, j) ==> Stands(s0, DirAt(t, k), j, s', DirAt(f.child, k), j)
    {
      var d, e := DirAt(t, k), DirAt(f.child, k);
      assert SlotOf(d) == t && SlotOf(e) == f.child && InSlot(e) == k && User(d, j) && User(e, j);
      assert Past(f, k, j) || !Past(f, k, j);
      assert InSnapshot(t, f, d, j);
      StandsStays(s0, d, j, s, d, j, s');
      if Past(f', k, j) {
        if Past(f, k, j) {
          assert InSnapshot(t, f, e, j);
          StandsStays(s0, d, j, s, e, j, s');
        } else {
          StandsTwice(s0, d, j, s, d, j, s', e, j);
        }
      }
    }
  }

  lemma StepsKeepSnapshot(s: State, usable: set<nat>, step: Step, t: nat, f: Fork, d: nat, j: nat)
    requires Sound(s, usable) && Typed(s) && Enabled(s, step) && Good(s) && Harmless(s, step) && 0 < t < NR_TASKS
        && ForkAt(s.task[t]) == Some(f)
    requires User(d, j) && InSnapshot(t, f, d, j) && ForkAt(Next(s, step).task[t]).Some?
    ensures Stays(s, Next(s, step), d, j)
  {
    hide Sound, Typed, Enabled, Next, Touches;
    ForkUntouched(s, usable, step, t, f, d, j);
    StepStays(s, usable, step, d, j);
  }

  lemma CopyOther(s: State, usable: set<nat>, u: nat, t: nat, f: Fork)
    requires Sound(s, usable) && Typed(s) && Enabled(s, Copy(u)) && 0 < t < NR_TASKS && u != t
        && ForkAt(s.task[t]) == Some(f)
    ensures Copied(s, u).task[t] == s.task[t]
  {
    ForksApart(s, usable, t, f, u);
    hide Sound, C.CopyEntry, GoalShape;
  }

  lemma ReclaimedTasks(s: State, u: nat)
    requires Typed(s) && Enabled(s, Reclaim(u))
    ensures var s' := Reclaimed(s, u);
            || s'.task == Failed(s, u).task || s'.task == s.task
            || (s'.task[u].Moving? && s'.task[u].goal == s.task[u].goal && s'.task == s.task[u := s'.task[u]])
  {
    SwapOutTook(s.p);
    hide SwapOut, FreeTables, GetSwapPage, TryToSwapOut;
  }

  lemma FailedTasks(s: State, u: nat)
    requires Typed(s) && u < NR_TASKS && s.task[u].Needing?
    ensures ForkAt(s.task[u]).None? ==> forall v :: 0 <= v < NR_TASKS && v != u ==> Failed(s, u).task[v] == s.task[v]
    ensures ForkAt(s.task[u]).Some? ==>
              var c := ForkOf(s, u).child;
              c < NR_TASKS && forall v :: 0 <= v < NR_TASKS && v != u ==>
                  Failed(s, u).task[v] == if v == c then Empty else s.task[v]
  {
    hide FreeTables, WellFormed;
  }

  lemma ReclaimOther(s: State, usable: set<nat>, u: nat, t: nat, f: Fork)
    requires Sound(s, usable) && Typed(s) && Enabled(s, Reclaim(u)) && 0 < t < NR_TASKS && ForkAt(s.task[t]) == Some(f)
    requires ForkAt(Reclaimed(s, u).task[t]).Some?
    ensures ForkAt(Reclaimed(s, u).task[t]) == Some(f)
  {
    hide Sound, Reclaimed, Failed, SwapOut, PcShape, GoalShape, ForkShape, GetFreePage, WellFormed;
    ForksApart(s, usable, t, f, u);
    ReclaimedTasks(s, u);
    FailedTasks(s, u);
    FailedOwn(s, u);
  }

  lemma FailedOwn(s: State, u: nat)
    requires Typed(s) && u < NR_TASKS && s.task[u].Needing?
    ensures ForkAt(Failed(s, u).task[u]).None?
  {
    hide FreeTables, WellFormed;
  }

  lemma TakeOther(s: State, u: nat, t: nat, f: Fork)
    requires Typed(s) && Enabled(s, Take(u)) && 0 < t < NR_TASKS && ForkAt(s.task[t]) == Some(f)
    ensures ForkAt(Taken(s, u).task[t]) == Some(f)
  {
    hide GetFreePage;
  }

  lemma CompleteOther(s: State, t: nat, f: Fork)
    requires Typed(s) && Enabled(s, Complete) && 0 < t < NR_TASKS && ForkAt(s.task[t]) == Some(f)
    ensures ForkAt(Completed(s).task[t]) == Some(f)
  {
  }

  lemma WokenOther(s: State, u: nat, t: nat)
    requires Typed(s) && Enabled(s, Wake(u)) && t < NR_TASKS && u != t
    ensures Woken(s, u).task[t] == s.task[t]
  {
    hide FreePage, Store;
  }

  /** A task's fork moves on only by its own steps. */
  lemma ForkElsewhere(s: State, usable: set<nat>, step: Step, t: nat, f: Fork)
    requires Sound(s, usable) && Typed(s) && Enabled(s, step) && 0 < t < NR_TASKS && ForkAt(s.task[t]) == Some(f)
    requires ForkAt(Next(s, step).task[t]).Some? && step != Copy(t) && step != Wake(t)
    ensures ForkAt(Next(s, step).task[t]) == Some(f)
  {
    ForksApart(s, usable, t, f, t);
    hide Sound, Copied, Reclaimed, Taken, Completed, Woken;
    match step {
      case Copy(u) => CopyOther(s, usable, u, t, f);
      case Reclaim(u) => ReclaimOther(s, usable, u, t, f);
      case Take(u) => TakeOther(s, u, t, f);
      case Complete => CompleteOther(s, t, f);
      case Wake(u) => WokenOther(s, u, t);
      case _ =>
    }
  }

  /** How Copy moves a fork on. */
  lemma CopyMoves(s: State, t: nat, j: nat)
    requires Typed(s) && Enabled(s, Copy(t)) && ForkAt(Copied(s, t).task[t]).Some? && j < ENTRIES
    ensures var f := s.task[t].f;
            var f' := ForkAt(Copied(s, t).task[t]).value;
            && f.k < f.n && ForkShape(f') && f'.child == f.child && f'.n == f.n
            && (forall k: nat :: k != f.k ==> Past(f', k, j) == Past(f, k, j))
            && (Past(f', f.k, j) && !Past(f, f.k, j) ==>
                  || (f.i == 0 && s.p.mem.dir[From(t, f)] == 0)
                  || (j == f.i && !At(s.p.mem, From(t, f), j).Swapped?))
  {
    hide C.CopyEntry, GoalShape;
  }

  lemma AbsentStands(s: State, d: nat, i: nat, s': State, d': nat, i': nat)
    requires WellFormed(Synced(s)) && WellFormed(Synced(s')) && User(d, i) && User(d', i')
    requires At(s.p.mem, d, i) == Absent && At(s'.p.mem, d', i') == Absent
    ensures Stands(s, d, i, s', d', i')
  {
  }

  lemma SwappedStands(s: State, d: nat, i: nat, s': State, d': nat, i': nat, n: nat)
    requires WellFormed(Synced(s)) && WellFormed(Synced(s')) && User(d, i) && User(d', i') && n < SWAP_BITS
    requires At(s.p.mem, d, i) == Swapped(n) && At(s'.p.mem, d', i') == Swapped(n)
        && Synced(s').disk[n] == Synced(s).disk[n]
    ensures Stands(s, d, i, s', d', i')
  {
  }

  lemma SharedStands(s: State, d: nat, i: nat, s': State, d': nat, i': nat)
    requires WellFormed(Synced(s)) && WellFormed(Synced(s')) && User(d, i) && User(d', i')
    requires At(s.p.mem, d, i).Present? && At(s'.p.mem, d', i') == C.ReadOnly(At(s.p.mem, d, i))
        && s'.p.mem.data == s.p.mem.data
    ensures Stands(s, d, i, s', d', i')
  {
  }

  /** An entry without a page, or with one: the child gets the like. */
  lemma CopyStands(s: State, usable: set<nat>, t: nat, j: nat)
    requires Sound(s, usable) && Typed(s) && Enabled(s, Copy(t)) && j < ENTRIES && s.task[t].f.k < s.task[t].f.n
    requires var f := s.task[t].f;
             || (f.i == 0 && s.p.mem.dir[From(t, f)] == 0)
             || (j == f.i && !At(s.p.mem, From(t, f), j).Swapped?)
    requires Past(ForkOf(Copied(s, t), t), s.task[t].f.k, j) && !Past(s.task[t].f, s.task[t].f.k, j)
    ensures var f := s.task[t].f;
            Stands(s, From(t, f), j, Copied(s, t), To(f), j)
  {
    CopiedInv(s, usable, t);
    SyncedInv(s, usable);
    var s' := Copied(s, t);
    SyncedInv(s', usable);
    assert PcOk(s.p.mem, s.task, t);
    var f := s.task[t].f;
    var fd, td := From(t, f), To(f);
    assert SlotOf(fd) == t && SlotOf(td) == f.child && InSlot(fd) == InSlot(td);
    assert At(s.p.mem, td, j) == Absent;
    hide Swap.Inv, Flush;
    if At(s.p.mem, fd, j).Present? {
      C.CopyEntryInv(s.p.mem, s.held, fd, td, f.i);
      SharedStands(s, fd, j, s', td, j);
    } else {
      AbsentStands(s, fd, j, s', td, j);
    }
  }

  function ForkOf(s: State, t: nat): Fork
    requires t < |s.task|
  {
    var o := ForkAt(s.task[t]);
    if o.Some? then o.value else Fork(0, 0, 0, 0)
  }

  lemma DupedQuiet(s: State, usable: set<nat>, t: nat)
    requires Sound(s, usable) && Typed(s) && Enabled(s, Wake(t)) && !s.task[t].r.write && s.task[t].goal.Dup?
    ensures QuietStep(s, Woken(s, t))
  {
    DupedEntries(s, usable, t);
    hide Sound, Swap.Inv, Store;
  }

  /** The child's entry takes the slot over, and with it what the parent's entry stood for. */
  lemma DupedChild(s: State, usable: set<nat>, t: nat)
    requires Sound(s, usable) && Typed(s) && Enabled(s, Wake(t)) && Good(s) && !s.task[t].r.write && s.task[t].goal.Dup?
    ensures var f := s.task[t].goal.f;
            Stands(s, From(t, f), f.i, Woken(s, t), To(f), f.i)
  {
    hide Sound, Swap.Inv, Flush, Store, QuietStep, Good, Synced, Woken;
    WokenInv(s, usable, t);
    SyncedInv(s, usable);
    DupedEntries(s, usable, t);
    var Moving(r, Dup(f), _) := s.task[t];
    var s' := Woken(s, t);
    SyncedInv(s', usable);
    DupedQuiet(s, usable, t);
    QuietGood(s, usable, s');
    assert At(s'.p.mem, To(f), f.i) == Swapped(r.slot);
    SwappedStands(s, From(t, f), f.i, s', To(f), f.i, r.slot);
  }

  /** The entries a fork has just passed, by either of its own steps. */
  lemma OwnAdvances(s: State, usable: set<nat>, step: Step, t: nat, k: nat, j: nat)
    requires Sound(s, usable) && Typed(s) && Enabled(s, step) && Good(s) && 0 < t < NR_TASKS && ForkAt(s.task[t]).Some?
    requires (step == Copy(t) || step == Wake(t)) && ForkAt(Next(s, step).task[t]).Some?
    requires j < ENTRIES
    ensures var f, f' := ForkOf(s, t), ForkOf(Next(s, step), t);
            && ForkShape(f) && ForkShape(f') && f'.child == f.child && f'.n == f.n
            && (Past(f', k, j) && !Past(f, k, j) ==> Stands(s, DirAt(t, k), j, Next(s, step), DirAt(f.child, k), j))
  {
    if step == Copy(t) {
      hide Sound, Swap.Inv, Good, Stands, C.CopyEntry;
      CopyMoves(s, t, j);
      if Past(ForkOf(Copied(s, t), t), k, j) && !Past(ForkOf(s, t), k, j) {
        CopyStands(s, usable, t, j);
      }
    } else {
      WakeMoves(s, usable, t, j);
      hide Sound, Swap.Inv, Good, Stands, Woken;
      if Past(ForkOf(Woken(s, t), t), k, j) && !Past(ForkOf(s, t), k, j) {
        DupedChild(s, usable, t);
      }
    }
  }

  /** How Wake moves a fork on. */
  lemma WakeMoves(s: State, usable: set<nat>, t: nat, j: nat)
    requires Sound(s, usable) && Typed(s) && Enabled(s, Wake(t)) && ForkAt(s.task[t]).Some? && j < ENTRIES
    ensures ForkAt(Woken(s, t).task[t]).Some?
    ensures var f, f' := ForkOf(s, t), ForkOf(Woken(s, t), t);
            && ForkShape(f) && ForkShape(f') && f'.child == f.child && f'.n == f.n
            && (forall k: nat :: k != f.k ==> Past(f', k, j) == Past(f, k, j))
            && (Past(f', f.k, j) && !Past(f, f.k, j) ==> j == f.i && !s.task[t].r.write && s.task[t].goal == Dup(f))
  {
    assert PcOk(s.p.mem, s.task, t);
    hide Sound, FreePage, Store;
  }

  /** The entries the fork of `t` has just passed, whoever's step it was. */
  lemma StepPasses(s: State, usable: set<nat>, step: Step, t: nat, k: nat, j: nat)
    requires Sound(s, usable) && Typed(s) && Enabled(s, step) && Good(s) && 0 < t < NR_TASKS && ForkAt(s.task[t]).Some?
    requires ForkAt(Next(s, step).task[t]).Some? && j < ENTRIES
    ensures var f, f' := ForkOf(s, t), ForkOf(Next(s, step), t);
            && ForkShape(f) && ForkShape(f') && f'.child == f.child && f'.n == f.n
            && (Past(f', k, j) && !Past(f, k, j) ==> Stands(s, DirAt(t, k), j, Next(s, step), DirAt(f.child, k), j))
  {
    ForkShapeOf(s, t);
    hide Sound, Typed, Enabled, Next, Good, Stands;
    if step == Copy(t) || step == Wake(t) {
      OwnAdvances(s, usable, step, t, k, j);
    } else {
      ForkElsewhere(s, usable, step, t, ForkOf(s, t));
    }
  }

  /** One step of anybody: the snapshot goes on. */
  lemma StepAdvances(s: State, usable: set<nat>, step: Step, t: nat)
    requires Sound(s, usable) && Typed(s) && Enabled(s, step) && Good(s) && Harmless(s, step) && 0 < t < NR_TASKS
        && ForkAt(s.task[t]).Some?
    requires ForkAt(Next(s, step).task[t]).Some?
    ensures Advances(s, Next(s, step), t, ForkOf(s, t), ForkOf(Next(s, step), t))
  {
    hide Sound, Typed, Enabled, Next, Good, Harmless, Stands, Stays, ForkAt, InSnapshot, Past;
    StepInv(s, usable, step);
    Tasks(s, usable);
    Tasks(Next(s, step), usable);
    var f, f' := ForkOf(s, t), ForkOf(Next(s, step), t);
    ForkOfAt(s, t);
    StepPasses(s, usable, step, t, 0, 0);
    forall d: nat, j: nat | User(d, j) && InSnapshot(t, f, d, j)
      ensures Stays(s, Next(s, step), d, j)
    {
      StepsKeepSnapshot(s, usable, step, t, f, d, j);
    }
    forall k: nat, j: nat | k < f.n && j < ENTRIES && Past(f', k, j) && !Past(f, k, j)
      ensures Stands(s, DirAt(t, k), j, Next(s, step), DirAt(f.child, k), j)
    {
      StepPasses(s, usable, step, t, k, j);
    }
  }

  lemma Tasks(s: State, usable: set<nat>)
    requires Sound(s, usable)
    ensures |s.task| == NR_TASKS
  {
    hide Swap.Inv;
  }

  lemma ForkOfAt(s: State, t: nat)
    requires t < |s.task| && ForkAt(s.task[t]).Some?
    ensures ForkAt(s.task[t]) == Some(ForkOf(s, t))
  {
  }

  lemma ForkShapeOf(s: State, t: nat)
    requires Typed(s) && t < NR_TASKS && ForkAt(s.task[t]).Some?
    ensures ForkShape(ForkOf(s, t))
  {
  }

  /** The task stays in its fork until the last step of the run, which ends it. */
  ghost predicate ForkLasts(s: State, steps: seq<Step>, t: nat)
    requires Legal(s, steps)
    decreases |steps|
  {
    && t < |s.task| && ForkAt(s.task[t]).Some? && steps != []
    && (var s' := Next(s, steps[0]);
        if |steps| == 1 then t < |s'.task| && ForkAt(s'.task[t]).None? else ForkLasts(s', steps[1..], t))
  }

  /** The end of a fork: the child has everything, or is gone. */
  lemma SnapshotEnds(s0: State, s: State, usable: set<nat>, step: Step, t: nat, k: nat, j: nat)
    requires Sound(s, usable) && Typed(s) && Enabled(s, step) && Good(s) && Harmless(s, step) && 0 < t < NR_TASKS
        && ForkAt(s.task[t]).Some?
    requires ForkAt(Next(s, step).task[t]).None? && Snapshot(s0, s, t, ForkOf(s, t)) && k < ForkOf(s, t).n
        && j < ENTRIES
    ensures var s', c := Next(s, step), ForkOf(s, t).child;
            && c < |s'.task|
            && (s'.task[c].Empty? || (s'.task[c].Ready? && Stands(s0, DirAt(t, k), j, s', DirAt(c, k), j)))
  {
    var f := ForkOf(s, t);
    ForksApart(s, usable, t, f, t);
    ForkEnd(s, usable, step, t);
    if !Next(s, step).task[f.child].Empty? {
      hide Sound, Swap.Inv, Typed, Next, Good, Harmless, Stands, Stays;
      var e := DirAt(f.child, k);
      StepStays(s, usable, step, e, j);
      assert Past(f, k, j);
      StandsStays(s0, DirAt(t, k), j, s, e, j, Next(s, step));
    }
  }

  lemma CopyEnds(s: State, t: nat)
    requires Typed(s) && Enabled(s, Copy(t)) && ForkAt(Copied(s, t).task[t]).None? && s.task[t].f.child != t
    ensures var f := s.task[t].f;
            f.k == f.n && Copied(s, t).task[f.child].Ready?
  {
    hide C.CopyEntry, GoalShape;
  }

  lemma ReclaimEnds(s: State, usable: set<nat>, u: nat, t: nat)
    requires Sound(s, usable) && Typed(s) && Enabled(s, Reclaim(u)) && 0 < t < NR_TASKS
    requires ForkAt(s.task[t]).Some? && ForkAt(Reclaimed(s, u).task[t]).None?
    ensures ForkOf(s, t).child < NR_TASKS && Reclaimed(s, u).task[ForkOf(s, t).child].Empty?
  {
    ForksApart(s, usable, t, ForkOf(s, t), u);
    ReclaimedTasks(s, u);
    FailedTasks(s, u);
    hide Sound, Reclaimed, Failed, SwapOut, PcShape, GoalShape, ForkShape, GetFreePage, WellFormed;
  }

  lemma ForkEnd(s: State, usable: set<nat>, step: Step, t: nat)
    requires Sound(s, usable) && Typed(s) && Enabled(s, step) && 0 < t < NR_TASKS && ForkAt(s.task[t]).Some?
        && ForkAt(Next(s, step).task[t]).None?
    ensures var s', f := Next(s, step), ForkOf(s, t);
            && f.child < NR_TASKS == |s'.task|
            && (s'.task[f.child].Empty? || (s'.task[f.child].Ready? && step == Copy(t) && f.k == f.n))
  {
    ForksApart(s, usable, t, ForkOf(s, t), t);
    hide Sound, Reclaimed, Taken, Completed, Woken, Copied;
    match step {
      case Copy(u) =>
        if u == t {
          CopyEnds(s, t);
        } else {
          CopyOther(s, usable, u, t, ForkOf(s, t));
        }
      case Reclaim(u) => ReclaimEnds(s, usable, u, t);
      case Take(u) => TakeOther(s, u, t, ForkOf(s, t));
      case Complete => CompleteOther(s, t, ForkOf(s, t));
      case Wake(u) =>
        if u == t {
          WakeMoves(s, usable, t, 0);
        } else {
          WokenOther(s, u, t);
        }
      case _ =>
    }
  }

  lemma {:induction false} ForkRun(s0: State, s: State, usable: set<nat>, steps: seq<Step>, t: nat, k: nat, j: nat)
    requires Sound(s, usable) && Good(s) && Legal(s, steps) && RunHarmless(s, steps) && 0 < t < NR_TASKS
        && ForkLasts(s, steps, t)
    requires Snapshot(s0, s, t, ForkOf(s, t)) && k < ForkOf(s, t).n && j < ENTRIES
    ensures var r, c := Run(s, steps), ForkOf(s, t).child;
            && c < |r.task|
            && (r.task[c].Empty? || (r.task[c].Ready? && Stands(s0, DirAt(t, k), j, r, DirAt(c, k), j)))
    decreases |steps|
  {
    var s' := Next(s, steps[0]);
    if |steps| == 1 {
      SnapshotEnds(s0, s, usable, steps[0], t, k, j);
      assert steps[1..] == [];
    } else {
      hide Sound, Good, Next, Enabled, Typed, Harmless, Stands, Stays, Snapshot, ForkAt;
      StepInv(s, usable, steps[0]);
      StepStays(s, usable, steps[0], FIRST_DIR, 0);
      assert ForkAt(s'.task[t]).Some?;
      StepAdvances(s, usable, steps[0], t);
      SnapshotNext(s0, s, s', t, ForkOf(s, t), ForkOf(s', t));
      ForkRun(s0, s', usable, steps[1..], t, k, j);
    }
  }

  /** A fork over any number of sleeps, whatever the others do meanwhile: each entry of the child ends up standing
      for what the parent's entry stood for when the fork began, or, out of memory, there is no child. */
  lemma ForkIsSnapshot(s: State, usable: set<nat>, steps: seq<Step>, t: nat, c: nat, n: nat, k: nat, j: nat)
    requires Sound(s, usable) && Good(s) && Legal(s, steps) && RunHarmless(s, steps) && 0 < t < NR_TASKS
    requires s.task[t] == Copying(Fork(c, n, 0, 0)) && ForkLasts(s, steps, t) && k < n && j < ENTRIES
    ensures var r := Run(s, steps);
            && c < |r.task|
            && (r.task[c].Empty? || (r.task[c].Ready? && Stands(s, DirAt(t, k), j, r, DirAt(c, k), j)))
  {
    var f := Fork(c, n, 0, 0);
    hide Swap.Inv, Good, Next, Enabled, Legal, RunHarmless, ForkLasts;
    InvShape(s, usable);
    assert PcShape(s.task[t]);
    assert Snapshot(s, s, t, f) by {
      forall k: nat, j: nat | k < f.n && j < ENTRIES
        ensures Stands(s, DirAt(t, k), j, s, DirAt(t, k), j)
      {
        StaysItself(s, usable, DirAt(t, k), j);
      }
    }
    ForkRun(s, s, usable, steps, t, k, j);
  }
}

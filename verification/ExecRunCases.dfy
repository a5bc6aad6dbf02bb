/**
 execve that sleeps, from power-on: the run in which a task gets a page of the wrong executable.
*/
module ExecRunCases {
  import opened PageTables
  import opened CowPaging
  import opened ExecPages
  import opened EagerCopy
  import opened EagerRuns
  import opened FirstFork
  import LoadRuns
  import opened ExecCases
  import opened ExecRuns

  /** No execve is under way. */
  function Calm(l: LoadRuns.LSys): XSys {
    XSys(l, map[])
  }

  function Others(steps: seq<LoadRuns.LStep>): (r: seq<XStep>)
    ensures |r| == |steps|
    decreases |steps|
  {
    if steps == [] then [] else [Other(steps[0])] + Others(steps[1..])
  }

  lemma CalmFault(l: LoadRuns.LSys, t: nat, r: nat, i: nat, n: nat)
    requires LoadRuns.LShape(l) && Offset(r, i) && t < NR_TASKS
    ensures Fault(Calm(l), t, r, i, n) == LoadRuns.HalfFault(l.sys, t, r, i, n)
  {
    hide LoadRuns.HalfFault;
    assert Actual(Calm(l)) == l.sys.exec;
  }

  /** Then a step is one of LoadRuns. */
  lemma CalmStep(l: LoadRuns.LSys, st: LoadRuns.LStep)
    requires LoadRuns.LShape(l) && LoadRuns.Enabled(l, st)
    ensures XEnabled(Calm(l), Other(st))
    ensures var (l', done) := LoadRuns.Next(l, st);
            XNext(Calm(l), Other(st)) == (Calm(l'), done)
  {
    hide LoadRuns.HalfFault, Fault, ExitTask, LoadRuns.SecondHalf, Step, SpaceOf;
    if st.Begin? {
      CalmFault(l, st.t, st.r, st.i, st.iCount);
    }
  }

  /** And nothing wrong is shared. */
  lemma CalmHarmless(l: LoadRuns.LSys, st: LoadRuns.LStep)
    requires LoadRuns.LInv(l) && LoadRuns.LShape(l) && LoadRuns.Enabled(l, st)
    ensures XEnabled(Calm(l), Other(st)) && Harmless(Calm(l), Other(st)) && XInv(Calm(l))
  {
    hide LoadRuns.LInv, LoadRuns.LShape, LoadRuns.Enabled, XEnabled, XNext, Asked, HasRoom, Look;
    CalmStep(l, st);
    match st {
      case Begin(t, r, i, n) => CalmBegins(l, t, r, i, n);
      case _ =>
    }
  }

  lemma CalmBegins(l: LoadRuns.LSys, t: nat, r: nat, i: nat, n: nat)
    requires LoadRuns.LInv(l) && LoadRuns.LShape(l) && LoadRuns.Enabled(l, LoadRuns.Begin(t, r, i, n))
    requires XEnabled(Calm(l), Other(LoadRuns.Begin(t, r, i, n)))
    ensures Harmless(Calm(l), Other(LoadRuns.Begin(t, r, i, n)))
  {
    hide LoadRuns.LInv, Harmless, Asked, SpaceOf;
    HarmlessUnlessAsleep(Calm(l), t, r, i, n);
  }

  lemma OthersFirst(steps: seq<LoadRuns.LStep>, rest: seq<XStep>)
    requires steps != []
    ensures var all := Others(steps) + rest;
            all != [] && all[0] == Other(steps[0]) && all[1..] == Others(steps[1..]) + rest
  {
  }

  /** A run of LoadRuns is a run here. */
  lemma {:induction false} CalmRun(l: LoadRuns.LSys, steps: seq<LoadRuns.LStep>, rest: seq<XStep>, e: Eager)
    requires LoadRuns.LInv(l) && LoadRuns.LegalRun(l, steps)
    ensures LoadRuns.LInv(LoadRuns.RunAll(l, steps, e).0)
    ensures var x := Calm(LoadRuns.RunAll(l, steps, e).0);
            LegalRun(x, rest) ==>
              && LegalRun(Calm(l), Others(steps) + rest)
              && (HarmlessRun(Calm(l), Others(steps) + rest) <==> HarmlessRun(x, rest))
    decreases |steps|
  {
    hide LoadRuns.LInv, LoadRuns.LShape, LoadRuns.Enabled, LoadRuns.Next, LoadRuns.Meaning;
    hide XEnabled, XNext, Harmless, XInv;
    if steps == [] {
      assert Others(steps) + rest == rest;
    } else {
      OthersFirst(steps, rest);
      CalmStep(l, steps[0]);
      CalmHarmless(l, steps[0]);
      LoadRuns.NextMatches(l, steps[0]);
      var (l', done) := LoadRuns.Next(l, steps[0]);
      CalmRun(l', steps[1..], rest, LoadRuns.Meaning(e, l.sys.image, done));
    }
  }

  // ------------------------------------------------------------ the wrong page

  /** Only tasks 1 and 2; task 1 is in an execve of `y` with a clean page of `x` left; task 2 runs `y` and has no
      page. */
  ghost predicate Waiting(x: XSys, y: nat) {
    var s := x.l.sys;
    && LoadRuns.LShape(x.l) && x.l.loads == map[] && x.next == map[1 := Switch(y, [], [])]
    && s.task[1] != 0 && s.task[2] != 0 && (forall t: nat :: 3 <= t < NR_TASKS ==> s.task[t] == 0)
    && s.exec[2] == y && 0 < y < |s.image| && s.image[y] != []
    && (var e := At(s.mem, DirAt(1, 0), 0); e.Present? && !e.dirty && LOW_PAGES <= e.page)
    && At(s.mem, DirAt(2, 0), 0) == Absent && GetFreePage(s.mem).1 != 0
  }

  lemma {:induction false} AsksFirst(m: Mem, task: seq<PageNo>, exec: seq<nat>, p: nat)
    requires Shape(m) && 2 <= p <= NR_TASKS == |task| == |exec|
    requires task[1] != 0 && exec[1] == exec[2] && forall t: nat :: 3 <= t < NR_TASKS ==> task[t] == 0
    requires var e := At(m, DirAt(1, 0), 0); e.Present? && !e.dirty && LOW_PAGES <= e.page
    ensures Sharer(m, task, exec, 2, 0, 0, p) == 1
    decreases p
  {
    hide At;
    if p > 2 {
      AsksFirst(m, task, exec, p - 1);
    }
  }

  /** The fault is harmless exactly if the two executables begin with the same page. */
  lemma WaitingExact(x: XSys, y: nat, f: Frame)
    requires Waiting(x, y) && Look(x.l.sys.mem, DirAt(1, 0), 0) == Some(f)
    ensures XEnabled(x, Other(LoadRuns.Begin(2, 0, 0, 2)))
    ensures Harmless(x, Other(LoadRuns.Begin(2, 0, 0, 2))) <==> f == x.l.sys.image[y][0]
  {
    var s := x.l.sys;
    AsksFirst(s.mem, s.task, Actual(x), NR_TASKS);
    assert Asked(x, 2, 0, 0, 2) == 1;
    hide Sharer, Asked, GetFreePage, Look, Shape, Actual;
    assert HasRoom(s.mem, DirAt(2, 0));
  }

  lemma SpaceHas(m: Mem, t: nat)
    requires Shape(m) && t < NR_TASKS && At(m, DirAt(t, 0), 0).Present?
    ensures SpaceOf(m, t) != map[]
  {
    assert (0, 0) in SpaceOf(m, t);
  }

  /** Task 2 has its first page, shared with task 1. */
  ghost predicate Both(l: LoadRuns.LSys, x: nat) {
    && LoadRuns.LInv(l) && LoadRuns.LShape(l) && l.loads == map[] && Pair(l.sys, x)
    && At(l.sys.mem, DirAt(2, 0), 0).Present?
  }

  lemma ShareFirst(l: LoadRuns.LSys, x: nat)
    requires Paged(l, x)
    ensures Both(LoadRuns.Next(l, LoadRuns.Begin(2, 0, 0, 2)).0, x)
    ensures LoadRuns.Next(l, LoadRuns.Begin(2, 0, 0, 2)).0.sys.image == l.sys.image
  {
    hide LoadRuns.LInv, SysInv, Inv, SharePage, Clean, Shape, Images;
    var s := l.sys;
    LoadRuns.NextMatches(l, LoadRuns.Begin(2, 0, 0, 2));
    LoadSys(l);
    KernelMem(s, l.kernel);
    SysClean(s, l.kernel);
    SharePageInv(s.mem, Held(l.kernel, s.task), s, 2, 0, 0, NR_TASKS);
    var m := LoadRuns.HalfFault(s, 2, 0, 0, 2).0;
    StillFirst(s.mem, Held(l.kernel, s.task), s.image[x][0], m);
  }

  lemma SysClean(s: Sys, kernel: multiset<PageNo>)
    requires SysInv(s, kernel)
    ensures Shape(s.mem) && |s.exec| == NR_TASKS && Clean(s.mem, s.exec, s.image)
  {
    hide Inv, Clean, Tidy;
    KernelMem(s, kernel);
  }

  lemma StillFirst(m: Mem, held: multiset<PageNo>, f: Frame, r: Mem)
    requires Shape(r) && LoadedClean(m, held, DirAt(2, 0), 0, f, r)
    requires var e := At(m, DirAt(1, 0), 0); e.Present? && !e.dirty && LOW_PAGES <= e.page
    ensures var e := At(r, DirAt(1, 0), 0); e.Present? && !e.dirty && LOW_PAGES <= e.page
    ensures At(r, DirAt(2, 0), 0).Present?
  {
    hide Inv;
    assert User(DirAt(1, 0), 0) && DirAt(1, 0) != DirAt(2, 0);
    assert Weaker(At(r, DirAt(1, 0), 0), At(m, DirAt(1, 0), 0));
  }

  /** Task 2 has gone over to `y`; giving up its page table has left a free page. */
  ghost predicate Moved(l: LoadRuns.LSys, x: nat, y: nat) {
    var s := l.sys;
    && LoadRuns.LInv(l) && LoadRuns.LShape(l) && l.loads == map[]
    && s.exec[1] == x && s.exec[2] == y && 0 < x < |s.image| && s.image[x] != []
    && s.task[1] != 0 && s.task[2] != 0 && (forall t: nat :: 3 <= t < NR_TASKS ==> s.task[t] == 0)
    && (var e := At(s.mem, DirAt(1, 0), 0); e.Present? && !e.dirty && LOW_PAGES <= e.page)
    && At(s.mem, DirAt(2, 0), 0) == Absent && GetFreePage(s.mem).1 != 0
  }

  lemma MoveSecond(l: LoadRuns.LSys, x: nat, y: nat)
    requires Both(l, x) && ExecOk(l.sys.image, y, [])
    ensures LoadRuns.Enabled(l, LoadRuns.Whole(Exec(2, y, [])))
    ensures Moved(LoadRuns.Next(l, LoadRuns.Whole(Exec(2, y, []))).0, x, y)
    ensures LoadRuns.Next(l, LoadRuns.Whole(Exec(2, y, []))).0.sys.image == l.sys.image
  {
    var s := l.sys;
    hide LoadRuns.LInv, SysInv, Inv, SpaceOf, FreeTables, GetFreePage, At, Shape;
    SpaceHas(s.mem, 2);
    LoadRuns.NextMatches(l, LoadRuns.Whole(Exec(2, y, [])));
    LoadSys(l);
    KernelMem(s, l.kernel);
    MovedMem(s.mem, Held(l.kernel, s.task));
  }

  lemma MovedMem(m: Mem, held: multiset<PageNo>)
    requires Inv(m, held) && At(m, DirAt(2, 0), 0).Present?
    ensures var (r, ok) := ExecMem(m, 2, []);
            && ok && GetFreePage(r).1 != 0 && At(r, DirAt(2, 0), 0) == Absent
            && At(r, DirAt(1, 0), 0) == At(m, DirAt(1, 0), 0)
  {
    var none: seq<Frame> := [];
    assert TakeArgs(m, none) == (m, []);
    FreeTablesInv(m, held, FirstDir(2), SLOT_DIRS);
    var r := FreeTables(m, FirstDir(2), SLOT_DIRS);
    TableFreed(m, held, 2, DirAt(2, 0), r);
    hide Inv, FreeTables, GetFreePage;
    assert User(DirAt(1, 0), 0) && User(DirAt(2, 0), 0);
    assert FirstDir(2) <= DirAt(2, 0) < FirstDir(2) + SLOT_DIRS && DirAt(1, 0) < FirstDir(2);
  }

  /** Task 1 has begun to go over to `y` too. */
  lemma StartFirst(l: LoadRuns.LSys, x: nat, y: nat)
    requires Moved(l, x, y) && ExecOk(l.sys.image, y, []) && l.sys.image[y] != []
    ensures XEnabled(Calm(l), StartExec(1, y, []))
    ensures var x' := XNext(Calm(l), StartExec(1, y, [])).0;
            && Waiting(x', y) && x'.l.sys.image == l.sys.image
            && Look(x'.l.sys.mem, DirAt(1, 0), 0) == Some(l.sys.image[x][0])
  {
    var s := l.sys;
    hide LoadRuns.LInv, SpaceOf, GetFreePage, At, Shape, Look;
    SpaceHas(s.mem, 1);
    var none: seq<Frame> := [];
    assert TakeArgs(s.mem, none) == (s.mem, []);
    assert Live(s.task, 1) && Legal(s, Exec(1, y, []));
    SettledPage(l, 1, 0, 0);
    var x' := XNext(Calm(l), StartExec(1, y, [])).0;
    assert x'.l.sys == s && x'.l.loads == map[];
  }

  function LastSteps(y: nat): seq<XStep> {
    [Other(LoadRuns.Begin(2, 0, 0, 2)), Other(LoadRuns.Whole(Exec(2, y, []))), StartExec(1, y, []),
     Other(LoadRuns.Begin(2, 0, 0, 2))]
  }

  lemma LastRun(x: XSys, step: XStep)
    requires LoadRuns.LShape(x.l) && XEnabled(x, step)
    ensures LegalRun(x, [step]) && (HarmlessRun(x, [step]) <==> Harmless(x, step))
  {
    hide XEnabled, XNext, Harmless, LoadRuns.LShape;
    assert [step][1..] == [];
  }

  lemma MoreRun(x: XSys, step: XStep, rest: seq<XStep>)
    requires LoadRuns.LShape(x.l) && XEnabled(x, step) && Harmless(x, step) && LegalRun(XNext(x, step).0, rest)
    ensures LegalRun(x, [step] + rest)
    ensures HarmlessRun(x, [step] + rest) <==> HarmlessRun(XNext(x, step).0, rest)
  {
    hide XEnabled, XNext, Harmless, LoadRuns.LShape;
    assert ([step] + rest)[1..] == rest;
  }

  /** The last steps, from the state in which task 1 has its first page and task 2 none. */
  lemma LastStepsExact(l: LoadRuns.LSys, x: nat, y: nat)
    requires Paged(l, x) && ExecOk(l.sys.image, y, []) && l.sys.image[y] != []
    ensures LegalRun(Calm(l), LastSteps(y)) && 0 < x < |l.sys.image| && l.sys.image[x] != []
    ensures HarmlessRun(Calm(l), LastSteps(y)) <==> l.sys.image[x][0] == l.sys.image[y][0]
  {
    hide LoadRuns.LInv, LoadRuns.LShape, LoadRuns.Next, LoadRuns.Enabled, LoadRuns.HalfFault, XEnabled, XNext;
    hide Harmless, Waiting, Look, At, Shape, ExecOk, Pair;
    var a, b, c := LoadRuns.Begin(2, 0, 0, 2), LoadRuns.Whole(Exec(2, y, [])), StartExec(1, y, []);
    PairImage(l.sys, x);
    ShareFirst(l, x);
    CalmStep(l, a);
    CalmHarmless(l, a);
    var l1 := LoadRuns.Next(l, a).0;
    MoveSecond(l1, x, y);
    CalmStep(l1, b);
    CalmHarmless(l1, b);
    var l2 := LoadRuns.Next(l1, b).0;
    StartFirst(l2, x, y);
    var x3 := XNext(Calm(l2), c).0;
    WaitingShape(x3, y);
    WaitingExact(x3, y, l.sys.image[x][0]);
    StartHarmless(Calm(l2), 1, y, []);
    assert [Other(a)] + ([Other(b)] + ([c] + [Other(a)])) == LastSteps(y);
    LastRun(x3, Other(a));
    MoreRun(Calm(l2), c, [Other(a)]);
    MoreRun(Calm(l1), Other(b), [c] + [Other(a)]);
    MoreRun(Calm(l), Other(a), [Other(b)] + ([c] + [Other(a)]));
  }

  lemma PairImage(s: Sys, x: nat)
    requires Pair(s, x)
    ensures 0 < x < |s.image| && s.image[x] != []
  {
  }

  lemma WaitingShape(x: XSys, y: nat)
    requires Waiting(x, y)
    ensures LoadRuns.LShape(x.l) && Shape(x.l.sys.mem)
  {
  }

  lemma StartHarmless(x: XSys, t: nat, y: nat, pages: seq<Frame>)
    requires LoadRuns.LShape(x.l) && XEnabled(x, StartExec(t, y, pages))
    ensures Harmless(x, StartExec(t, y, pages))
  {
    hide XEnabled, LoadRuns.LShape;
  }

  /** All runs from power-on: the state reached by any steps, execves that sleep included, is that of eager copying
      as long as no fault shares a wrong page, and a step that shares one has not its eager effect. */
  lemma BootExecves(
      start: nat, high: nat, dir: seq<PageNo>, table: seq<seq<Entry>>, data: seq<Frame>, image: seq<seq<Frame>>,
      steps: seq<XStep>)
    requires LOW_PAGES <= start && start + 2 <= high <= 0x1000 && Images(image)
    requires |dir| == DIRS && |table| == |data| == 0x1000
    requires forall p :: 0 <= p < 0x1000 ==> |table[p]| == ENTRIES && |data[p]| == PAGE_SIZE
    requires forall d :: SLOT_DIRS <= d < DIRS ==> dir[d] == 0
    requires LowMapped(Mem(high, MemInit(start, high), dir, table, data, false))
    requires var m := Mem(high, MemInit(start, high), dir, table, data, false);
             var s := ForkFirst(Sys(m, seq(NR_TASKS, _ => 0), seq(NR_TASKS, _ => 0), image), 1).0;
             LegalRun(Calm(LoadRuns.LSys(s, KernelHolds(m.count, PAGING_PAGES), map[])), steps)
    ensures var m := Mem(high, MemInit(start, high), dir, table, data, false);
            var s := ForkFirst(Sys(m, seq(NR_TASKS, _ => 0), seq(NR_TASKS, _ => 0), image), 1).0;
            var x := Calm(LoadRuns.LSys(s, KernelHolds(m.count, PAGING_PAGES), map[]));
            && (EagerRunOf(x, steps) <==> HarmlessRun(x, steps))
            && (HarmlessRun(x, steps) ==>
                  var (x', e') := RunAll(x, steps, map[1 := Private(LowSpace(m), 0)]);
                  XInv(x') && LoadRuns.LShape(x'.l) && Abs(x'.l.sys) == e')
  {
    hide SysInv, Abs, LowSpace, ForkFirst, LoadRuns.LInv, LegalRun, RunAll, HarmlessRun, EagerRunOf, XInv;
    hide LoadRuns.LShape;
    BootFork(start, high, dir, table, data, image);
    var m := Mem(high, MemInit(start, high), dir, table, data, false);
    var s := ForkFirst(Sys(m, seq(NR_TASKS, _ => 0), seq(NR_TASKS, _ => 0), image), 1).0;
    var l := LoadRuns.LSys(s, KernelHolds(m.count, PAGING_PAGES), map[]);
    LoadRuns.NoLoads(s, KernelHolds(m.count, PAGING_PAGES));
    LoadRuns.LInvShape(l);
    CalmInv(l);
    SleepingExecves(Calm(l), steps);
  }

  /** After power-on and the first fork, task 1 goes over to `x`, forks task 2 and reads its first page; task 2 shares
      that page and goes over to `y`. Task 1 has begun to go over to `y` too when the first instruction of task 2
      faults: task 2 gets the first page of `x`, which is right if and only if `y` begins with the same bytes. */
  lemma BootSharesWrong(
      start: nat, high: nat, dir: seq<PageNo>, table: seq<seq<Entry>>, data: seq<Frame>, image: seq<seq<Frame>>,
      x: nat, y: nat)
    requires LOW_PAGES <= start && start + 7 < high <= 0x1000 && Images(image)
    requires |dir| == DIRS && |table| == |data| == 0x1000
    requires forall p :: 0 <= p < 0x1000 ==> |table[p]| == ENTRIES && |data[p]| == PAGE_SIZE
    requires forall d :: SLOT_DIRS <= d < DIRS ==> dir[d] == 0
    requires LowMapped(Mem(high, MemInit(start, high), dir, table, data, false))
    requires ExecOk(image, x, []) && image[x] != [] && ExecOk(image, y, []) && image[y] != []
    ensures var m := Mem(high, MemInit(start, high), dir, table, data, false);
            var s := ForkFirst(Sys(m, seq(NR_TASKS, _ => 0), seq(NR_TASKS, _ => 0), image), 1).0;
            var l := LoadRuns.LSys(s, KernelHolds(m.count, PAGING_PAGES), map[]);
            var steps := Others(ShareSteps(x)) + LastSteps(y);
            && XInv(Calm(l)) && LegalRun(Calm(l), steps)
            && (EagerRunOf(Calm(l), steps) <==> image[x][0] == image[y][0])
  {
    hide EagerRunOf;
    hide LoadRuns.LInv, SysInv, ForkFirst, LoadRuns.LegalRun, LoadRuns.RunAll, Paged, Abs, LegalRun, HarmlessRun;
    hide LowMapped, KernelHolds, ExecOk, Others, LastSteps, ShareSteps;
    BootFork(start, high, dir, table, data, image);
    BootShares(start, high, dir, table, data, image, x);
    var m := Mem(high, MemInit(start, high), dir, table, data, false);
    var s := ForkFirst(Sys(m, seq(NR_TASKS, _ => 0), seq(NR_TASKS, _ => 0), image), 1).0;
    var kernel := KernelHolds(m.count, PAGING_PAGES);
    var l := LoadRuns.LSys(s, kernel, map[]);
    LoadRuns.NoLoads(s, kernel);
    ForkImage(Sys(m, seq(NR_TASKS, _ => 0), seq(NR_TASKS, _ => 0), image));
    WrongFrom(l, x, y);
  }

  lemma ForkImage(s: Sys)
    requires Shape(s.mem) && |s.task| == |s.exec| == NR_TASKS
    ensures ForkFirst(s, 1).0.image == s.image
  {
    hide GetFreePage, CopyMem;
  }

  lemma WrongFrom(l: LoadRuns.LSys, x: nat, y: nat)
    requires LoadRuns.LInv(l) && Shares(l, x) && l.loads == map[]
    requires ExecOk(l.sys.image, x, []) && l.sys.image[x] != [] && ExecOk(l.sys.image, y, []) && l.sys.image[y] != []
    ensures var steps := Others(ShareSteps(x)) + LastSteps(y);
            && XInv(Calm(l)) && LegalRun(Calm(l), steps)
            && (EagerRunOf(Calm(l), steps) <==> l.sys.image[x][0] == l.sys.image[y][0])
  {
    hide EagerRunOf;
    hide LoadRuns.LInv, LoadRuns.LegalRun, LoadRuns.RunAll, LegalRun, HarmlessRun, Paged, Others, LastSteps, ShareSteps;
    var l4 := LoadRuns.RunAll(l, ShareSteps(x), map[]).0;
    RunImage(l, ShareSteps(x), map[]);
    LastStepsExact(l4, x, y);
    CalmRun(l, ShareSteps(x), LastSteps(y), map[]);
    LoadRuns.LInvShape(l);
    CalmInv(l);
    SleepingExecves(Calm(l), Others(ShareSteps(x)) + LastSteps(y));
  }

  lemma CalmInv(l: LoadRuns.LSys)
    requires LoadRuns.LInv(l) && LoadRuns.LShape(l)
    ensures XInv(Calm(l))
  {
    hide LoadRuns.LInv, LoadRuns.LShape;
  }

  /** Executables stay as they are. */
  lemma {:induction false} RunImage(l: LoadRuns.LSys, steps: seq<LoadRuns.LStep>, e: Eager)
    requires LoadRuns.LInv(l) && LoadRuns.LegalRun(l, steps)
    ensures LoadRuns.RunAll(l, steps, e).0.sys.image == l.sys.image
    decreases |steps|
  {
    hide LoadRuns.LInv, LoadRuns.LShape, LoadRuns.Enabled, LoadRuns.Next, LoadRuns.Meaning;
    if steps != [] {
      LoadRuns.NextMatches(l, steps[0]);
      var (l', done) := LoadRuns.Next(l, steps[0]);
      RunImage(l', steps[1..], LoadRuns.Meaning(e, l.sys.image, done));
    }
  }
}

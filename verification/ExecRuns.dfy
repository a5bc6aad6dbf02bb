/**
 execve that sleeps: the new executable is entered in the task structure before sys_close and
 free_page_tables run, so for a while a task has the pages of its old executable under the name of the
 new one, and another task that faults on the new one may take one of them over.
*/
module ExecRuns {
  import opened PageTables
  import opened CowPaging
  import opened ExecPages
  import opened EagerCopy
  import opened EagerRuns
  import opened LoadRuns
  import opened KernelBytes
  import opened PageDemand
  import opened RequestDemand

  /** An execve that has passed its point of no return: its executable, the bytes of its argument pages, and the
      pages themselves. */
  datatype Switch = Switch(x: nat, pages: seq<Frame>, pns: seq<PageNo>)

  /** In `l` a task keeps its old executable until its execve ends. */
  datatype XSys = XSys(l: LSys, next: map<nat, Switch>)

  datatype XStep =
    | Other(step: LStep)
    | StartExec(t: nat, x: nat, pages: seq<Frame>)    // do_execve up to the first sys_close
    | EndExec(t: nat)                                 // and from the last one on

  function TaskOf(step: LStep): nat {
    match step
    case Whole(op) => SlotOfOp(op)
    case Begin(t, _, _, _) => t
    case End(t) => t
  }

  /** What the task structures say. */
  function Actual(x: XSys): (exec: seq<nat>)
    requires |x.l.sys.exec| == NR_TASKS
    ensures |exec| == NR_TASKS
  {
    seq(NR_TASKS, u requires 0 <= u < NR_TASKS => if u in x.next then x.next[u].x else x.l.sys.exec[u])
  }

  predicate NoFault(s: Sys, t: nat, r: nat, i: nat)
    requires Shape(s.mem)
  {
    && Offset(r, i) && t < NR_TASKS
    && (At(s.mem, DirAt(t, r), i).Present? || !Loads(s.exec, s.image, t, r, i))
  }

  /** A request that does not fault on a page of an executable; while execves are under way such faults are
      Begin and End. */
  ghost predicate NoLoad(s: Sys, op: Op)
    requires Shape(s.mem)
  {
    match op
    case Touch(t, r, i, _) => NoFault(s, t, r, i)
    case Write(t, r, i, _, _, _) => NoFault(s, t, r, i)
    case _ => true
  }

  ghost predicate XEnabled(x: XSys, step: XStep)
    requires LShape(x.l)
  {
    match step
    case Other(st) =>
      && Enabled(x.l, st) && TaskOf(st) !in x.next
      && (st.Whole? ==> x.next == map[] || NoLoad(x.l.sys, st.op))
    case StartExec(t, y, pages) => t !in x.next && Enabled(x.l, Whole(Exec(t, y, pages)))
    case EndExec(t) => t in x.next && t < NR_TASKS && |x.next[t].pns| <= MAX_ARG_PAGES
  }

  /** A fault on a page of an executable, as far as share_page and get_free_page; executables as in the task
      structures. */
  function Fault(x: XSys, t: nat, r: nat, i: nat, n: nat): (res: (Mem, Sharing, PageNo))
    requires Shape(x.l.sys.mem) && Offset(r, i) && t < NR_TASKS == |x.l.sys.task| == |x.l.sys.exec|
    ensures Shape(res.0)
  {
    HalfFault(x.l.sys.(exec := Actual(x)), t, r, i, n)
  }

  ghost function XNext(x: XSys, step: XStep): (res: (XSys, Option<(Op, bool)>))
    requires LShape(x.l) && XEnabled(x, step)
  {
    var l, s := x.l, x.l.sys;
    match step
    case Other(st) =>
      if st.Begin? then
        var (m, shared, pn) := Fault(x, st.t, st.r, st.i, st.iCount);
        var s1, op := s.(mem := m), Op.Touch(st.t, st.r, st.i, st.iCount);
        (match shared
         case Shared => (x.(l := l.(sys := s1)), Some((op, true)))
         case OutOfMemory => (x.(l := l.(sys := ExitTask(s1, st.t))), Some((op, false)))
         case NotShared =>
           (x.(l := LSys(s1, l.kernel + multiset{pn}, l.loads[st.t := Load(st.r, st.i, pn)])), None))
      else
        var (l', done) := LoadRuns.Next(l, st);
        (x.(l := l'), done)
    case StartExec(t, y, pages) =>
      var (m, pns) := TakeArgs(s.mem, pages);
      if |pns| < |pages| then (x.(l := l.(sys := s.(mem := FreeArgs(m, pns)))), None)
      else
        (XSys(l.(sys := s.(mem := m), kernel := l.kernel + multiset(pns)), x.next[t := Switch(y, pages, pns)]), None)
    case EndExec(t) =>
      var Switch(y, pages, pns) := x.next[t];
      var r := PutArgs(FreeTables(s.mem, FirstDir(t), SLOT_DIRS), pns, DirAt(t, ARG_DIR), ENTRIES - 1);
      (XSys(LSys(s.(mem := r, exec := s.exec[t := y]), l.kernel - multiset(pns), l.loads), x.next - {t}),
       Some((Exec(t, y, pages), true)))
  }

  // -------------------------------------------------------------- the invariant

  /** A page of the kernel's own. */
  ghost predicate KernelPage(s: Sys, kernel: multiset<PageNo>, pn: PageNo) {
    LOW_PAGES <= pn < s.mem.high && kernel[pn] == 1 && pn !in s.task
  }

  ghost predicate SwitchOk(l: LSys, t: nat, w: Switch)
    requires LShape(l)
  {
    && Live(l.sys.task, t) && t !in l.loads && ExecOk(l.sys.image, w.x, w.pages)
    && SpaceOf(l.sys.mem, t) != map[] && |w.pns| == |w.pages|
    && (forall j {:trigger w.pns[j]} :: 0 <= j < |w.pns| ==>
          && KernelPage(l.sys, l.kernel, w.pns[j]) && l.sys.mem.data[w.pns[j]] == w.pages[j]
          && forall u :: u in l.loads ==> l.loads[u].pn != w.pns[j])
    && (forall j, k {:trigger w.pns[j], w.pns[k]} :: 0 <= j < k < |w.pns| ==> w.pns[j] != w.pns[k])
  }

  /** Two execves have different argument pages. */
  ghost predicate ArgsApart(v: Switch, w: Switch) {
    forall j, k {:trigger v.pns[j], w.pns[k]} :: 0 <= j < |v.pns| && 0 <= k < |w.pns| ==> v.pns[j] != w.pns[k]
  }

  ghost predicate XInv(x: XSys) {
    true == (
      && LInv(x.l) && LShape(x.l)
      && (forall t :: t in x.next ==> SwitchOk(x.l, t, x.next[t]))
      && (forall t, u :: t in x.next && u in x.next && t != u ==> ArgsApart(x.next[t], x.next[u])))
  }

  // --------------------------------------------------------------- who is asked

  /** The task share_page gets the page from, from slot `p` down; 0 if there is none. */
  function Sharer(m: Mem, task: seq<PageNo>, exec: seq<nat>, t: nat, r: nat, i: nat, p: nat): (q: nat)
    requires Shape(m) && Offset(r, i) && t < NR_TASKS && p <= NR_TASKS == |task| == |exec|
    ensures q < NR_TASKS && (q != 0 ==> task[q] != 0 && q != t && exec[q] == exec[t])
    decreases p
  {
    if p <= 1 then 0
    else if task[p - 1] == 0 || p - 1 == t || exec[p - 1] != exec[t] then Sharer(m, task, exec, t, r, i, p - 1)
    else
      var e := At(m, DirAt(p - 1, r), i);
      if e.Present? && !e.dirty && LOW_PAGES <= e.page then p - 1 else Sharer(m, task, exec, t, r, i, p - 1)
  }

  lemma {:induction false} SharerTried(
      m: Mem, held: multiset<PageNo>, task: seq<PageNo>, exec: seq<nat>, t: nat, r: nat, i: nat, p: nat)
    requires Inv(m, held) && Offset(r, i) && 1 <= t < NR_TASKS && p <= NR_TASKS == |task| == |exec|
    requires At(m, DirAt(t, r), i) == Absent
    ensures var q := Sharer(m, task, exec, t, r, i, p);
            SharePage(m, task, exec, t, r, i, p) == if q == 0 then (m, NotShared) else TryShare(m, r, i, q, t)
    decreases p
  {
    hide Inv, TryShare, At, Look, Weaker;
    if p > 1 {
      if task[p - 1] != 0 && p - 1 != t && exec[p - 1] == exec[t] {
        TryShareInv(m, held, r, i, p - 1, t);
      }
      SharerTried(m, held, task, exec, t, r, i, p - 1);
    }
  }

  // ------------------------------------------------------------------ sharing

  /** There is a page table, or a page for one. */
  predicate HasRoom(m: Mem, d: nat)
    requires Shape(m) && d < DIRS
  {
    m.dir[d] != 0 || GetFreePage(m).1 != 0
  }

  /** One task asked: it has a clean page there. */
  lemma TryCases(m: Mem, held: multiset<PageNo>, t: nat, r: nat, i: nat, q: nat)
    requires Inv(m, held) && Offset(r, i) && 1 <= t < NR_TASKS && 1 <= q < NR_TASKS && q != t
    requires At(m, DirAt(t, r), i) == Absent
    requires var e := At(m, DirAt(q, r), i); e.Present? && !e.dirty && LOW_PAGES <= e.page
    ensures var (m', shared) := TryShare(m, r, i, q, t);
            && shared != NotShared && Look(m, DirAt(q, r), i).Some?
            && (shared == Shared ==> LoadedClean(m, held, DirAt(t, r), i, Look(m, DirAt(q, r), i).value, m'))
            && (shared == Shared <==> HasRoom(m, DirAt(t, r)))
            && (shared == OutOfMemory ==> m' == m && GetFreePage(m).1 == 0)
  {
    TryShareInv(m, held, r, i, q, t);
    SlotOffsets(q, t, r, i);
    DirOf(t, r, i);
  }

  lemma {:induction false} SharerClean(m: Mem, task: seq<PageNo>, exec: seq<nat>, t: nat, r: nat, i: nat, p: nat)
    requires Shape(m) && Offset(r, i) && t < NR_TASKS && p <= NR_TASKS == |task| == |exec|
    ensures var q := Sharer(m, task, exec, t, r, i, p);
            q != 0 ==> var e := At(m, DirAt(q, r), i); e.Present? && !e.dirty && LOW_PAGES <= e.page
    decreases p
  {
    hide At;
    if p > 1 {
      SharerClean(m, task, exec, t, r, i, p - 1);
    }
  }

  /** The task a fault asks. */
  function Asked(x: XSys, t: nat, r: nat, i: nat, n: nat): (q: nat)
    requires Shape(x.l.sys.mem) && Offset(r, i) && t < NR_TASKS == |x.l.sys.task| == |x.l.sys.exec|
    ensures q < NR_TASKS
  {
    if n < 2 then 0 else Sharer(x.l.sys.mem, x.l.sys.task, Actual(x), t, r, i, NR_TASKS)
  }

  /** The first half of a fault, with executables as in the task structures. */
  lemma FaultCases(x: XSys, held: multiset<PageNo>, t: nat, r: nat, i: nat, n: nat)
    requires Inv(x.l.sys.mem, held) && |x.l.sys.task| == |x.l.sys.exec| == NR_TASKS && 1 <= t < NR_TASKS && Offset(r, i)
    requires At(x.l.sys.mem, DirAt(t, r), i) == Absent
    ensures var m0 := x.l.sys.mem;
            var (m, shared, pn) := Fault(x, t, r, i, n);
            var q := Asked(x, t, r, i, n);
            && (shared == Shared <==> q != 0 && HasRoom(m0, DirAt(t, r)))
            && (shared == Shared ==>
                  && Look(m0, DirAt(q, r), i).Some?
                  && LoadedClean(m0, held, DirAt(t, r), i, Look(m0, DirAt(q, r), i).value, m))
            && (shared != Shared ==> (m, shared, pn) == HalfFault(x.l.sys, t, r, i, 0))
  {
    var s := x.l.sys;
    var q := Asked(x, t, r, i, n);
    if n >= 2 {
      SharerTried(s.mem, held, s.task, Actual(x), t, r, i, NR_TASKS);
      SharerClean(s.mem, s.task, Actual(x), t, r, i, NR_TASKS);
      if q != 0 {
        TryCases(s.mem, held, t, r, i, q);
      }
    }
    hide Inv, TryShare, LoadedClean, At, Look, GetFreePage, SharePage, Sharer, Actual, HasRoom;
  }

  // ------------------------------------------------------------- a page shared

  /** The page found is the executable's: the fault has its eager effect. */
  lemma RightPage(l: LSys, t: nat, r: nat, i: nat, m: Mem, n: nat)
    requires LInv(l) && LShape(l) && Live(l.sys.task, t) && Offset(r, i) && Loads(l.sys.exec, l.sys.image, t, r, i)
    requires At(l.sys.mem, DirAt(t, r), i) == Absent && t !in l.loads
    requires LoadedClean(l.sys.mem, Held(l.kernel, l.sys.task), DirAt(t, r), i,
                         l.sys.image[l.sys.exec[t]][PageIndex(r, i)], m)
    ensures var s' := l.sys.(mem := m);
            LInv(l.(sys := s')) && Abs(s') == EagerStep(Abs(l.sys), l.sys.image, Op.Touch(t, r, i, n), true)
  {
    var s := l.sys;
    var f := s.image[s.exec[t]][PageIndex(r, i)];
    KernelMem(s, l.kernel);
    DirOf(t, r, i);
    KeepSys(s, l.kernel, m, t, r, i);
    FilledLoads(l, t, r, i, m, l.kernel, l.loads);
    SetPageMatches(s, l.kernel, t, r, i, m, f);
    FreshHere(s, t, r, i);
  }

  /** It is not: the task does not see what it would with pages of its own. */
  lemma WrongPage(l: LSys, held: multiset<PageNo>, t: nat, r: nat, i: nat, m: Mem, n: nat, g: Frame)
    requires LShape(l) && Live(l.sys.task, t) && Offset(r, i) && Loads(l.sys.exec, l.sys.image, t, r, i)
    requires At(l.sys.mem, DirAt(t, r), i) == Absent
    requires Shape(m) && LoadedClean(l.sys.mem, held, DirAt(t, r), i, g, m)
    requires g != l.sys.image[l.sys.exec[t]][PageIndex(r, i)]
    ensures Abs(l.sys.(mem := m)) != EagerStep(Abs(l.sys), l.sys.image, Op.Touch(t, r, i, n), true)
  {
    var s, s' := l.sys, l.sys.(mem := m);
    FreshHere(s, t, r, i);
    hide Inv;
    AbsOf(s', t);
    assert SpaceOf(m, t)[(r, i)] == g;
  }

  // ------------------------------------------------- what others leave alone

  /** A step of LoadRuns by another task. */
  lemma PageKept(l: LSys, step: LStep, pn: PageNo)
    requires LInv(l) && LShape(l) && Enabled(l, step) && KernelPage(l.sys, l.kernel, pn)
    requires forall u :: u in l.loads ==> l.loads[u].pn != pn
    ensures var l' := LoadRuns.Next(l, step).0;
            KernelPage(l'.sys, l'.kernel, pn) && forall u :: u in l'.loads ==> l'.loads[u].pn != pn
  {
    KernelMem(l.sys, l.kernel);
    HeldOnce(l.sys, l.kernel, pn);
    hide LInv, SysInv, Inv, Step, HalfFault, SecondHalf, ExitTask;
    match step {
      case Whole(op) =>
        StepHigh(l.sys, l.kernel, op);
        TaskPages(l.sys, op, pn);
      case Begin(t, r, i, n) => BeginKeeps(l, t, r, i, n, pn);
      case End(t) => EndKeeps(l, t, pn);
    }
  }

  lemma HeldOnce(s: Sys, kernel: multiset<PageNo>, pn: PageNo)
    requires Inv(s.mem, Held(kernel, s.task)) && KernelPage(s, kernel, pn)
    ensures Shape(s.mem) && s.mem.count[pn - LOW_PAGES] != 0
  {
    assert |Users(s.mem, pn)| >= 0;
  }

  lemma BeginKeeps(l: LSys, t: nat, r: nat, i: nat, n: nat, pn: PageNo)
    requires LInv(l) && LShape(l) && Enabled(l, Begin(t, r, i, n)) && KernelPage(l.sys, l.kernel, pn)
    requires forall u :: u in l.loads ==> l.loads[u].pn != pn
    ensures var l' := LoadRuns.Next(l, Begin(t, r, i, n)).0;
            KernelPage(l'.sys, l'.kernel, pn) && forall u :: u in l'.loads ==> l'.loads[u].pn != pn
  {
    hide LInv, SysInv, HalfFault, ExitTask, Shape, Loads;
    HalfFacts(l, t, r, i, n);
    var (m, shared, p) := HalfFault(l.sys, t, r, i, n);
    if shared == OutOfMemory {
      ExitFacts(l.sys, l.kernel, t);
    }
  }

  lemma HalfFacts(l: LSys, t: nat, r: nat, i: nat, n: nat)
    requires LInv(l) && LShape(l) && Enabled(l, Begin(t, r, i, n))
    ensures var (m, shared, p) := HalfFault(l.sys, t, r, i, n);
            && m.high == l.sys.mem.high && SysInv(l.sys, l.kernel)
            && (shared == OutOfMemory ==> l.sys.(mem := m) == l.sys)
            && (shared == NotShared ==> l.kernel[p] == 0)
  {
    var s := l.sys;
    var h := Held(l.kernel, s.task);
    KernelMem(s, l.kernel);
    DirOf(t, r, i);
    SharePageInv(s.mem, h, s, t, r, i, NR_TASKS);
    GetFreePageInv(s.mem, h);
    hide SysInv, Inv, SharePage, GetFreePage;
    assert forall p: PageNo :: h[p] == 0 ==> l.kernel[p] == 0;
  }

  lemma ExitFacts(s: Sys, kernel: multiset<PageNo>, t: nat)
    requires SysInv(s, kernel) && Live(s.task, t)
    ensures ExitTask(s, t).mem.high == s.mem.high && ExitTask(s, t).task == s.task[t := 0]
  {
    KernelMem(s, kernel);
    ExitHigh(s, Held(kernel, s.task), t);
    hide SysInv, Inv, FreeTables;
  }

  lemma LoadOf(l: LSys, t: nat)
    requires LInv(l) && LShape(l) && t in l.loads
    ensures LoadOk(l.sys, l.kernel, t, l.loads[t]) && SysInv(l.sys, l.kernel)
  {
    hide SysInv, LoadOk;
  }

  /** The second half of a fault leaves memory as large as it was, and so does the exit that may follow. */
  lemma EndHigh(s: Sys, kernel: multiset<PageNo>, t: nat, l: Load)
    requires SysInv(s, kernel) && Shape(s.mem) && |s.task| == |s.exec| == NR_TASKS && Images(s.image)
    requires LoadOk(s, kernel, t, l)
    ensures 1 <= t < NR_TASKS && Offset(l.r, l.i) && Loads(s.exec, s.image, t, l.r, l.i)
    ensures var m := SecondHalf(s, t, l, s.image[s.exec[t]][PageIndex(l.r, l.i)]).0;
            m.high == s.mem.high && ExitTask(s.(mem := m), t).mem.high == s.mem.high
  {
    hide SysInv, Inv, SecondHalf, ExitTask;
    EndMem(s, kernel, t, l);
    var m := SecondHalf(s, t, l, s.image[s.exec[t]][PageIndex(l.r, l.i)]).0;
    ExitHigh(s.(mem := m), Held(kernel - multiset{l.pn}, s.task), t);
  }

  lemma EndKeeps(l: LSys, t: nat, pn: PageNo)
    requires LInv(l) && LShape(l) && Enabled(l, End(t)) && KernelPage(l.sys, l.kernel, pn)
    requires forall u :: u in l.loads ==> l.loads[u].pn != pn
    ensures var l' := LoadRuns.Next(l, End(t)).0;
            KernelPage(l'.sys, l'.kernel, pn) && forall u :: u in l'.loads ==> l'.loads[u].pn != pn
  {
    hide LInv, SysInv, LoadOk, SecondHalf, FreeTables, FreePage;
    LoadOf(l, t);
    EndHigh(l.sys, l.kernel, t, l.loads[t]);
  }

  /** Another task's address space and executable. */
  lemma SpaceKept(l: LSys, step: LStep, t: nat)
    requires LInv(l) && LShape(l) && Enabled(l, step) && Live(l.sys.task, t) && TaskOf(step) != t
    ensures var s' := LoadRuns.Next(l, step).0.sys;
            && Shape(s'.mem) && |s'.task| == |s'.exec| == NR_TASKS && Live(s'.task, t)
            && SpaceOf(s'.mem, t) == SpaceOf(l.sys.mem, t) && s'.exec[t] == l.sys.exec[t]
  {
    NextMatches(l, step);
    hide LInv, SysInv, LoadRuns.Next, Abs, SpaceOf;
    var (l', done) := LoadRuns.Next(l, step);
    AbsOf(l.sys, t);
    AbsOf(l'.sys, t);
    DoneBy(l, step);
    MeaningOther(Abs(l.sys), l.sys.image, done, t);
  }

  lemma DoneBy(l: LSys, step: LStep)
    requires LShape(l) && Enabled(l, step)
    ensures var done := LoadRuns.Next(l, step).1;
            done.Some? ==>
              && SlotOfOp(done.value.0) == TaskOf(step)
              && (done.value.0.Fork? ==> l.sys.task[done.value.0.child] == 0)
  {
    hide Step, HalfFault, SecondHalf, ExitTask, SpaceOf;
  }

  lemma MeaningOther(e: Eager, image: seq<seq<Frame>>, done: Option<(Op, bool)>, t: nat)
    requires t in e && (done.Some? ==> SlotOfOp(done.value.0) != t && (done.value.0.Fork? ==> done.value.0.child != t))
    ensures t in Meaning(e, image, done) && Meaning(e, image, done)[t] == e[t]
  {
    hide PageOf, ArgSpace;
  }

  lemma SwitchKept(l: LSys, step: LStep, t: nat, w: Switch)
    requires LInv(l) && LShape(l) && Enabled(l, step) && SwitchOk(l, t, w) && TaskOf(step) != t
    ensures var l' := LoadRuns.Next(l, step).0;
            LShape(l') && SwitchOk(l', t, w)
  {
    hide LInv, SysInv, SpaceOf, LoadRuns.Next, KernelPage;
    NextMatches(l, step);
    SpaceKept(l, step, t);
    LoadsOf(l, step, t);
    forall j | 0 <= j < |w.pns|
      ensures KernelPage(LoadRuns.Next(l, step).0.sys, LoadRuns.Next(l, step).0.kernel, w.pns[j])
      ensures LoadRuns.Next(l, step).0.sys.mem.data[w.pns[j]] == w.pages[j]
      ensures forall u :: u in LoadRuns.Next(l, step).0.loads ==> LoadRuns.Next(l, step).0.loads[u].pn != w.pns[j]
    {
      PageKept(l, step, w.pns[j]);
      KernelPageHeld(l, w.pns[j]);
      StepKeepsBytes(l, step, w.pns[j]);
    }
  }

  lemma KernelPageHeld(l: LSys, pn: PageNo)
    requires KernelPage(l.sys, l.kernel, pn)
    ensures LOW_PAGES <= pn && l.kernel[pn] == 1
  {
  }

  lemma LoadsOf(l: LSys, step: LStep, t: nat)
    requires LShape(l) && Enabled(l, step) && TaskOf(step) != t && t !in l.loads
    ensures t !in LoadRuns.Next(l, step).0.loads
  {
    hide Step, HalfFault, SecondHalf, ExitTask;
  }

  // ------------------------------------------------------------ each step

  /** The page a fault is going to share, if it is going to share one, is that of the executable. */
  ghost predicate Harmless(x: XSys, step: XStep)
    requires LShape(x.l) && XEnabled(x, step)
  {
    match step
    case Other(Begin(t, r, i, n)) =>
      var s := x.l.sys;
      var q := Asked(x, t, r, i, n);
      q != 0 && HasRoom(s.mem, DirAt(t, r)) ==>
        Look(s.mem, DirAt(q, r), i) == Some(s.image[s.exec[t]][PageIndex(r, i)])
    case _ => true
  }

  /** The step keeps the invariant and has its eager effect. */
  ghost predicate AsEager(x: XSys, step: XStep)
    requires LShape(x.l) && XEnabled(x, step)
  {
    var (x', done) := XNext(x, step);
    && XInv(x') && LShape(x'.l) && x'.l.sys.image == x.l.sys.image
    && Abs(x'.l.sys) == Meaning(Abs(x.l.sys), x.l.sys.image, done)
  }

  /** What a step should amount to, by the pages that are free and the executables in the task structures. */
  ghost function XDue(x: XSys, step: XStep): Option<(Op, bool)>
    requires LShape(x.l) && XEnabled(x, step)
  {
    var s := x.l.sys;
    match step
    case Other(Begin(t, r, i, n)) =>
      var op, lacks := Op.Touch(t, r, i, n), Lacks(s.mem, DirAt(t, r));
      if n >= 2 && Shareable(s.mem, s.task, Actual(x), t, r, i, NR_TASKS) then Some((op, lacks <= |Free(s.mem)|))
      else if |Free(s.mem)| == 0 then Some((op, false)) else None
    case Other(st) => Due(x.l, st)
    case StartExec(_, _, _) => None
    case EndExec(t) => Some((Exec(t, x.next[t].x, x.next[t].pages), true))
  }

  /** The step amounts to what it should; an execve passes its point of no return if and only if a page is free for
      each page of its arguments. */
  ghost predicate Timely(x: XSys, step: XStep)
    requires LShape(x.l) && XEnabled(x, step)
  {
    var (x', done) := XNext(x, step);
    && done == XDue(x, step)
    && (step.StartExec? ==> (step.t in x'.next <==> |step.pages| <= |Free(x.l.sys.mem)|))
  }

  lemma OtherTimely(x: XSys, st: LStep)
    requires XInv(x) && LShape(x.l) && XEnabled(x, Other(st))
    ensures Timely(x, Other(st))
  {
    hide LInv, LShape, XInv, Inv, HalfFault, Free, Lacks, Shareable, At, Due, LoadRuns.Next, Actual, ExitTask;
    XParts(x);
    match st {
      case Begin(t, r, i, n) =>
        BeginFacts(x, t, r, i, n);
        HalfDue(x.l.sys.(exec := Actual(x)), Held(x.l.kernel, x.l.sys.task), t, r, i, n);
      case _ => NextDue(x.l, st);
    }
  }

  lemma StartTimely(x: XSys, t: nat, y: nat, pages: seq<Frame>)
    requires XInv(x) && LShape(x.l) && XEnabled(x, StartExec(t, y, pages))
    ensures Timely(x, StartExec(t, y, pages))
  {
    hide LInv, XInv, TakeArgs, FreeArgs, Free, SpaceOf;
    TakeArgsTakes(x.l.sys.mem, pages);
  }

  lemma StepTimely(x: XSys, step: XStep)
    requires XInv(x) && LShape(x.l) && XEnabled(x, step)
    ensures Timely(x, step)
  {
    hide LInv, LShape, XInv, FreeTables, PutArgs, LoadRuns.Next, Fault, TakeArgs, FreeArgs, Free, Due;
    match step {
      case Other(st) => OtherTimely(x, st);
      case StartExec(t, y, pages) => StartTimely(x, t, y, pages);
      case EndExec(t) =>
    }
  }

  lemma XParts(x: XSys)
    requires XInv(x)
    ensures LInv(x.l) && LShape(x.l) && forall t :: t in x.next ==> SwitchOk(x.l, t, x.next[t])
  {
    hide LInv, LShape, SwitchOk, ArgsApart;
  }

  /** Put together again after a change of `l`. */
  lemma XWhole(x: XSys, l: LSys)
    requires XInv(x) && LInv(l) && LShape(l) && forall t :: t in x.next ==> SwitchOk(l, t, x.next[t])
    ensures XInv(x.(l := l))
  {
    hide LInv, LShape, SwitchOk, ArgsApart;
  }

  /** A step that shares nothing is one of LoadRuns. */
  lemma PlainStep(x: XSys, st: LStep, st0: LStep)
    requires XInv(x) && XEnabled(x, Other(st)) && Enabled(x.l, st0) && TaskOf(st0) == TaskOf(st)
    requires var (x', done) := XNext(x, Other(st));
             var (l', done0) := LoadRuns.Next(x.l, st0);
             x' == x.(l := l')
             && Meaning(Abs(x.l.sys), x.l.sys.image, done) == Meaning(Abs(x.l.sys), x.l.sys.image, done0)
    ensures AsEager(x, Other(st))
  {
    hide LInv, SysInv, LoadRuns.Next, XInv, XNext, Abs, Meaning, SwitchOk, LShape, Enabled;
    XParts(x);
    NextMatches(x.l, st0);
    var l' := LoadRuns.Next(x.l, st0).0;
    forall t | t in x.next
      ensures SwitchOk(l', t, x.next[t])
    {
      NotTasks(x, st, t);
      SwitchKept(x.l, st0, t, x.next[t]);
    }
    XWhole(x, l');
  }

  lemma NotTasks(x: XSys, st: LStep, t: nat)
    requires LShape(x.l) && XEnabled(x, Other(st)) && t in x.next
    ensures TaskOf(st) != t
  {
    hide Enabled, LShape, NoLoad;
  }

  lemma BeginFacts(x: XSys, t: nat, r: nat, i: nat, n: nat)
    requires XInv(x) && XEnabled(x, Other(Begin(t, r, i, n)))
    ensures Inv(x.l.sys.mem, Held(x.l.kernel, x.l.sys.task)) && Live(x.l.sys.task, t) && t !in x.l.loads && Offset(r, i)
    ensures |x.l.sys.task| == |x.l.sys.exec| == NR_TASKS && 1 <= t < NR_TASKS && LInv(x.l) && Shape(x.l.sys.mem)
    ensures At(x.l.sys.mem, DirAt(t, r), i) == Absent && Loads(x.l.sys.exec, x.l.sys.image, t, r, i)
    ensures Enabled(x.l, Begin(t, r, i, 0))
  {
    KernelMem(x.l.sys, x.l.kernel);
    hide SysInv, Inv, SwitchOk;
  }

  /** Nothing is shared: the fault goes on as if nobody had been asked. */
  lemma BeginPlain(x: XSys, t: nat, r: nat, i: nat, n: nat)
    requires XInv(x) && XEnabled(x, Other(Begin(t, r, i, n))) && Fault(x, t, r, i, n).1 != Shared
    ensures AsEager(x, Other(Begin(t, r, i, n)))
  {
    hide XInv, LInv, LShape, Inv, Fault, HalfFault, Asked, HasRoom, At, Abs, AsEager;
    BeginFacts(x, t, r, i, n);
    XParts(x);
    FaultCases(x, Held(x.l.kernel, x.l.sys.task), t, r, i, n);
    BeginSame(x, t, r, i, n);
    PlainStep(x, Begin(t, r, i, n), Begin(t, r, i, 0));
  }

  lemma BeginSame(x: XSys, t: nat, r: nat, i: nat, n: nat)
    requires LShape(x.l) && XEnabled(x, Other(Begin(t, r, i, n))) && Enabled(x.l, Begin(t, r, i, 0))
    requires Fault(x, t, r, i, n).1 != Shared && Fault(x, t, r, i, n) == HalfFault(x.l.sys, t, r, i, 0)
    ensures var (x', done) := XNext(x, Other(Begin(t, r, i, n)));
            var (l', done0) := LoadRuns.Next(x.l, Begin(t, r, i, 0));
            && x' == x.(l := l')
            && Meaning(Abs(x.l.sys), x.l.sys.image, done) == Meaning(Abs(x.l.sys), x.l.sys.image, done0)
  {
    hide Fault, HalfFault, ExitTask, Abs, PageOf;
  }

  /** A page is shared, the right one. */
  lemma BeginShared(x: XSys, t: nat, r: nat, i: nat, n: nat)
    requires XInv(x) && XEnabled(x, Other(Begin(t, r, i, n))) && Fault(x, t, r, i, n).1 == Shared
    requires Harmless(x, Other(Begin(t, r, i, n)))
    ensures AsEager(x, Other(Begin(t, r, i, n)))
  {
    hide LInv, LShape, Inv, Fault, Asked, HasRoom, At, Look, Abs, EagerStep, SwitchOk, XInv, LoadedClean, ArgsApart;
    BeginFacts(x, t, r, i, n);
    XParts(x);
    FaultCases(x, Held(x.l.kernel, x.l.sys.task), t, r, i, n);
    var m := Fault(x, t, r, i, n).0;
    RightPage(x.l, t, r, i, m, n);
    var l' := x.l.(sys := x.l.sys.(mem := m));
    LInvShape(l');
    HighKept(x.l.sys.mem, Held(x.l.kernel, x.l.sys.task), t, r, i, m);
    forall u | u in x.next
      ensures SwitchOk(l', u, x.next[u])
    {
      NotTasks(x, Begin(t, r, i, n), u);
      SwitchOnes(x.l, u, x.next[u]);
      ArgsKept(x, t, r, i, n, x.next[u].pns);
      SwitchShared(x.l, m, t, r, i, n, u, x.next[u]);
    }
    XWhole(x, l');
  }

  /** A fault leaves the bytes of argument pages alone. */
  lemma ArgsKept(x: XSys, t: nat, r: nat, i: nat, n: nat, pns: seq<PageNo>)
    requires Inv(x.l.sys.mem, Held(x.l.kernel, x.l.sys.task)) && Shape(x.l.sys.mem)
    requires Offset(r, i) && t < NR_TASKS == |x.l.sys.task| == |x.l.sys.exec|
    requires forall j {:trigger pns[j]} :: 0 <= j < |pns| ==> LOW_PAGES <= pns[j] && x.l.kernel[pns[j]] == 1
    ensures forall j {:trigger pns[j]} :: 0 <= j < |pns| ==>
              Fault(x, t, r, i, n).0.data[pns[j]] == x.l.sys.mem.data[pns[j]]
  {
    hide Inv, HalfFault, Actual;
    forall j | 0 <= j < |pns|
      ensures Fault(x, t, r, i, n).0.data[pns[j]] == x.l.sys.mem.data[pns[j]]
    {
      HeldCounted(x.l.sys.mem, Held(x.l.kernel, x.l.sys.task), pns[j]);
      HalfData(x.l.sys.(exec := Actual(x)), t, r, i, n, pns[j]);
    }
  }

  lemma HighKept(m: Mem, held: multiset<PageNo>, t: nat, r: nat, i: nat, m': Mem)
    requires Shape(m') && t < NR_TASKS && Offset(r, i)
    requires exists f: Frame :: LoadedClean(m, held, DirAt(t, r), i, f, m')
    ensures m'.high == m.high
  {
    hide Inv;
  }

  lemma SwitchShared(l: LSys, m: Mem, t: nat, r: nat, i: nat, n: nat, u: nat, w: Switch)
    requires LShape(l) && Shape(m) && m.high == l.sys.mem.high && SwitchOk(l, u, w) && u != t
    requires var l' := l.(sys := l.sys.(mem := m));
             LShape(l') && Abs(l'.sys) == EagerStep(Abs(l.sys), l.sys.image, Op.Touch(t, r, i, n), true)
    requires forall j {:trigger w.pns[j]} :: 0 <= j < |w.pns| ==> m.data[w.pns[j]] == l.sys.mem.data[w.pns[j]]
    ensures SwitchOk(l.(sys := l.sys.(mem := m)), u, w)
  {
    hide SpaceOf, Abs, PageOf;
    AbsOf(l.sys, u);
    AbsOf(l.sys.(mem := m), u);
  }

  /** A page is shared, and not the right one. */
  lemma BeginWrong(x: XSys, t: nat, r: nat, i: nat, n: nat)
    requires XInv(x) && XEnabled(x, Other(Begin(t, r, i, n))) && !Harmless(x, Other(Begin(t, r, i, n)))
    ensures !AsEager(x, Other(Begin(t, r, i, n)))
  {
    hide LInv, LShape, Inv, Fault, Asked, HasRoom, At, Look, Abs, EagerStep, SwitchOk, XInv, LoadedClean;
    BeginFacts(x, t, r, i, n);
    XParts(x);
    FaultCases(x, Held(x.l.kernel, x.l.sys.task), t, r, i, n);
    var m := Fault(x, t, r, i, n).0;
    var q := Asked(x, t, r, i, n);
    WrongPage(x.l, Held(x.l.kernel, x.l.sys.task), t, r, i, m, n, Look(x.l.sys.mem, DirAt(q, r), i).value);
  }

  lemma OtherExact(x: XSys, st: LStep)
    requires XInv(x) && LShape(x.l) && XEnabled(x, Other(st))
    ensures AsEager(x, Other(st)) <==> Harmless(x, Other(st))
  {
    hide LInv, LShape, XInv, Fault, AsEager, Asked, HasRoom, Look;
    match st {
      case Begin(t, r, i, n) =>
        BeginFacts(x, t, r, i, n);
        if !Harmless(x, Other(st)) {
          BeginWrong(x, t, r, i, n);
        } else if Fault(x, t, r, i, n).1 == Shared {
          BeginShared(x, t, r, i, n);
        } else {
          BeginPlain(x, t, r, i, n);
        }
      case _ => PlainStep(x, st, st);
    }
  }

  // ---------------------------------------------------------- execve begins

  /** Different pages that nobody had. */
  ghost predicate NewPages(s: Sys, kernel: multiset<PageNo>, pns: seq<PageNo>) {
    && (forall j {:trigger pns[j]} :: 0 <= j < |pns| ==>
          LOW_PAGES <= pns[j] < s.mem.high && kernel[pns[j]] == 0 && pns[j] !in s.task)
    && (forall j, k {:trigger pns[j], pns[k]} :: 0 <= j < k < |pns| ==> pns[j] != pns[k])
  }

  lemma HoldsNew(s: Sys, kernel: multiset<PageNo>, m: Mem, pns: seq<PageNo>, pages: seq<Frame>)
    requires HoldsArgs(m, Held(kernel, s.task), pns, pages) && m.high == s.mem.high
    ensures NewPages(s, kernel, pns) && Inv(m, Held(kernel + multiset(pns), s.task))
    ensures |pns| == |pages| && Shape(m) && Filled(m, pns, pages)
  {
    var held := Held(kernel, s.task);
    assert held + multiset(pns) == Held(kernel + multiset(pns), s.task);
    hide Inv;
    forall j | 0 <= j < |pns|
      ensures kernel[pns[j]] == 0 && pns[j] !in s.task
    {
      assert held[pns[j]] == 0 && multiset(s.task)[pns[j]] == 0;
    }
  }

  ghost predicate Filled(m: Mem, pns: seq<PageNo>, pages: seq<Frame>)
    requires Shape(m) && |pns| == |pages|
  {
    forall j {:trigger pns[j]} :: 0 <= j < |pns| ==> m.data[pns[j]] == pages[j]
  }

  /** The argument pages are the kernel's; everything else is as it was. */
  lemma ArgsTaken(s: Sys, kernel: multiset<PageNo>, pages: seq<Frame>)
    requires SysInv(s, kernel) && Shape(s.mem) && forall j :: 0 <= j < |pages| ==> |pages[j]| == PAGE_SIZE
    ensures var (m, pns) := TakeArgs(s.mem, pages);
            && (|pns| < |pages| ==> SameUse(s.mem, FreeArgs(m, pns)) && Inv(FreeArgs(m, pns), Held(kernel, s.task)))
            && (|pns| == |pages| ==>
                  && SameUse(s.mem, m) && Inv(m, Held(kernel + multiset(pns), s.task)) && NewPages(s, kernel, pns)
                  && Filled(m, pns, pages))
  {
    hide Inv, SysInv, HoldsArgs, SameUse, TakeArgs, FreeArgs, NewPages, Held, KeepsUsed, Filled;
    KernelMem(s, kernel);
    TakeArgsInv(s.mem, Held(kernel, s.task), pages);
    var (m, pns) := TakeArgs(s.mem, pages);
    var rest := pages[|pages| - |pns|..];
    SameHigh(s.mem, m);
    if |pns| < |pages| {
      FreeArgsInv(m, Held(kernel, s.task), pns, rest);
      SameUseTwice(s.mem, m, FreeArgs(m, pns));
    } else {
      assert rest == pages;
      HoldsNew(s, kernel, m, pns, rest);
    }
  }

  lemma LoadSys(l: LSys)
    requires LInv(l)
    ensures SysInv(l.sys, l.kernel)
  {
    hide SysInv, LoadOk;
  }

  /** Loads go on over any change of the kernel's own pages. */
  lemma LoadsKept(l: LSys, m: Mem, kernel': multiset<PageNo>)
    requires LInv(l) && SameUse(l.sys.mem, m) && SysInv(l.sys.(mem := m), kernel')
    requires forall u :: u in l.loads ==> kernel'[l.loads[u].pn] == l.kernel[l.loads[u].pn]
    ensures LInv(LSys(l.sys.(mem := m), kernel', l.loads))
  {
    LInvShape(l);
    hide Inv, Clean, SysInv;
    forall u | u in l.loads
      ensures LoadOk(l.sys.(mem := m), kernel', u, l.loads[u])
    {
      assert LoadOk(l.sys, l.kernel, u, l.loads[u]);
      DirOf(u, l.loads[u].r, l.loads[u].i);
      var e := At(m, DirAt(u, l.loads[u].r), l.loads[u].i);
    }
  }

  /** An execve under way, after others have got and given back pages of the kernel's. */
  lemma SwitchSame(l: LSys, m: Mem, kernel': multiset<PageNo>, t: nat, w: Switch)
    requires LShape(l) && LShape(LSys(l.sys.(mem := m), kernel', l.loads)) && SwitchOk(l, t, w)
    requires m.high == l.sys.mem.high && SpaceOf(m, t) == SpaceOf(l.sys.mem, t)
    requires forall j {:trigger w.pns[j]} :: 0 <= j < |w.pns| ==>
               kernel'[w.pns[j]] == 1 && m.data[w.pns[j]] == l.sys.mem.data[w.pns[j]]
    ensures SwitchOk(LSys(l.sys.(mem := m), kernel', l.loads), t, w)
  {
    hide SpaceOf;
  }

  /** Taking pages for arguments, or giving them back, leaves the bytes of argument pages alone. */
  lemma ArgsBytes(l: LSys, pages: seq<Frame>, pns: seq<PageNo>)
    requires LInv(l) && Shape(l.sys.mem) && forall j :: 0 <= j < |pages| ==> |pages[j]| == PAGE_SIZE
    requires forall j {:trigger pns[j]} :: 0 <= j < |pns| ==> LOW_PAGES <= pns[j] && l.kernel[pns[j]] == 1
    ensures var (m, got) := TakeArgs(l.sys.mem, pages);
            forall j {:trigger pns[j]} :: 0 <= j < |pns| ==>
              m.data[pns[j]] == l.sys.mem.data[pns[j]] && FreeArgs(m, got).data[pns[j]] == l.sys.mem.data[pns[j]]
  {
    hide Inv, SysInv, LInv, TakeArgs, FreeArgs;
    LoadSys(l);
    KernelMem(l.sys, l.kernel);
    forall j | 0 <= j < |pns|
      ensures TakeArgs(l.sys.mem, pages).0.data[pns[j]] == l.sys.mem.data[pns[j]]
      ensures FreeArgs(TakeArgs(l.sys.mem, pages).0, TakeArgs(l.sys.mem, pages).1).data[pns[j]]
                == l.sys.mem.data[pns[j]]
    {
      TakeArgsData(l.sys.mem, Held(l.kernel, l.sys.task), pages, pns[j]);
    }
  }

  /** execve that finds no memory for its arguments. */
  lemma StartFails(x: XSys, t: nat, y: nat, pages: seq<Frame>)
    requires XInv(x) && LShape(x.l) && XEnabled(x, StartExec(t, y, pages))
    requires |TakeArgs(x.l.sys.mem, pages).1| < |pages|
    ensures AsEager(x, StartExec(t, y, pages))
  {
    hide Inv, SysInv, SameUse, TakeArgs, FreeArgs, LInv, LShape, SwitchOk, XInv, Abs, ArgsApart, SpaceOf;
    var l := x.l;
    XParts(x);
    LoadSys(l);
    StartPages(x, t, y, pages);
    ArgsTaken(l.sys, l.kernel, pages);
    var m := FreeArgs(TakeArgs(l.sys.mem, pages).0, TakeArgs(l.sys.mem, pages).1);
    SameUseSys(l.sys, l.kernel, m, l.kernel);
    LoadsKept(l, m, l.kernel);
    var l' := LSys(l.sys.(mem := m), l.kernel, l.loads);
    LInvShape(l');
    SameHigh(l.sys.mem, m);
    forall u | u in x.next
      ensures SwitchOk(l', u, x.next[u])
    {
      SwitchOnes(l, u, x.next[u]);
      SameSpaces(l.sys, m, u);
      ArgsBytes(l, pages, x.next[u].pns);
      SwitchSame(l, m, l.kernel, u, x.next[u]);
    }
    assert l' == l.(sys := l.sys.(mem := m));
    XWhole(x, l');
  }

  lemma StartPages(x: XSys, t: nat, y: nat, pages: seq<Frame>)
    requires LShape(x.l) && XEnabled(x, StartExec(t, y, pages))
    ensures Shape(x.l.sys.mem) && |x.l.sys.task| == |x.l.sys.exec| == NR_TASKS
    ensures Live(x.l.sys.task, t) && t !in x.l.loads && t !in x.next && ExecOk(x.l.sys.image, y, pages)
    ensures SpaceOf(x.l.sys.mem, t) != map[] && forall j :: 0 <= j < |pages| ==> |pages[j]| == PAGE_SIZE
  {
    hide SpaceOf;
  }

  lemma SwitchOnes(l: LSys, t: nat, w: Switch)
    requires LShape(l) && SwitchOk(l, t, w)
    ensures Live(l.sys.task, t)
    ensures forall j {:trigger w.pns[j]} :: 0 <= j < |w.pns| ==> LOW_PAGES <= w.pns[j] && l.kernel[w.pns[j]] == 1
  {
    hide SpaceOf;
  }

  lemma SameSpaces(s: Sys, m: Mem, t: nat)
    requires Shape(s.mem) && Shape(m) && |s.task| == |s.exec| == NR_TASKS && Live(s.task, t)
    requires Abs(s.(mem := m)) == Abs(s)
    ensures SpaceOf(m, t) == SpaceOf(s.mem, t)
  {
    hide SpaceOf, Abs;
    AbsOf(s, t);
    AbsOf(s.(mem := m), t);
  }

  lemma {:induction false} CountedOnce(pns: seq<PageNo>, j: nat)
    requires j < |pns| && forall a, b {:trigger pns[a], pns[b]} :: 0 <= a < b < |pns| ==> pns[a] != pns[b]
    ensures multiset(pns)[pns[j]] == 1
    decreases |pns|
  {
    var last := |pns| - 1;
    assert pns == pns[..last] + [pns[last]];
    forall a, b | 0 <= a < b < |pns[..last]|
      ensures pns[..last][a] != pns[..last][b]
    {
      assert pns[..last][a] == pns[a] && pns[..last][b] == pns[b];
    }
    if j < last {
      CountedOnce(pns[..last], j);
    } else {
      forall a | 0 <= a < |pns[..last]|
        ensures pns[..last][a] != pns[last]
      {
        assert pns[..last][a] == pns[a];
      }
      NotAgain(pns[..last], pns[last]);
    }
  }

  lemma NotThere(s: Sys, kernel: multiset<PageNo>, pns: seq<PageNo>, pn: PageNo)
    requires NewPages(s, kernel, pns) && kernel[pn] > 0
    ensures (kernel + multiset(pns))[pn] == kernel[pn] && forall j {:trigger pns[j]} :: 0 <= j < |pns| ==> pns[j] != pn
  {
    NotAgain(pns, pn);
  }

  /** The new execve. */
  lemma SwitchNew(l: LSys, m: Mem, t: nat, y: nat, pages: seq<Frame>, pns: seq<PageNo>)
    requires LInv(l) && LShape(l) && NewPages(l.sys, l.kernel, pns) && |pns| == |pages| && m.high == l.sys.mem.high
    requires Live(l.sys.task, t) && t !in l.loads && ExecOk(l.sys.image, y, pages) && SpaceOf(l.sys.mem, t) != map[]
    requires var l' := LSys(l.sys.(mem := m), l.kernel + multiset(pns), l.loads);
             LShape(l') && SpaceOf(m, t) == SpaceOf(l.sys.mem, t) && Filled(m, pns, pages)
    ensures SwitchOk(LSys(l.sys.(mem := m), l.kernel + multiset(pns), l.loads), t, Switch(y, pages, pns))
  {
    hide SpaceOf, SysInv, Inv;
    forall j | 0 <= j < |pns|
      ensures (l.kernel + multiset(pns))[pns[j]] == 1
      ensures forall u :: u in l.loads ==> l.loads[u].pn != pns[j]
    {
      CountedOnce(pns, j);
      forall u | u in l.loads
        ensures l.loads[u].pn != pns[j]
      {
        assert LoadOk(l.sys, l.kernel, u, l.loads[u]);
      }
    }
  }

  /** execve with its arguments in memory. */
  lemma StartWorks(x: XSys, t: nat, y: nat, pages: seq<Frame>)
    requires XInv(x) && LShape(x.l) && XEnabled(x, StartExec(t, y, pages))
    requires |TakeArgs(x.l.sys.mem, pages).1| == |pages|
    ensures AsEager(x, StartExec(t, y, pages))
  {
    hide Inv, SysInv, SameUse, TakeArgs, FreeArgs, LInv, LShape, SwitchOk, XInv, Abs, ArgsApart, SpaceOf, NewPages;
    var l := x.l;
    XParts(x);
    LoadSys(l);
    StartPages(x, t, y, pages);
    ArgsTaken(l.sys, l.kernel, pages);
    var (m, pns) := TakeArgs(l.sys.mem, pages);
    var kernel' := l.kernel + multiset(pns);
    SameUseSys(l.sys, l.kernel, m, kernel');
    LoadPagesKept(l, pns);
    LoadsKept(l, m, kernel');
    var l' := LSys(l.sys.(mem := m), kernel', l.loads);
    LInvShape(l');
    SameHigh(l.sys.mem, m);
    SameSpaces(l.sys, m, t);
    SwitchNew(l, m, t, y, pages, pns);
    forall u | u in x.next
      ensures SwitchOk(l', u, x.next[u]) && ArgsApart(x.next[u], Switch(y, pages, pns))
          && ArgsApart(Switch(y, pages, pns), x.next[u])
    {
      SwitchOnes(l, u, x.next[u]);
      SameSpaces(l.sys, m, u);
      SwitchApart(l, pns, x.next[u], Switch(y, pages, pns));
      ArgsBytes(l, pages, x.next[u].pns);
      SwitchSame(l, m, kernel', u, x.next[u]);
    }
    XMore(x, l', t, Switch(y, pages, pns));
  }

  lemma LoadPagesKept(l: LSys, pns: seq<PageNo>)
    requires LInv(l) && LShape(l) && NewPages(l.sys, l.kernel, pns)
    ensures forall u :: u in l.loads ==> (l.kernel + multiset(pns))[l.loads[u].pn] == l.kernel[l.loads[u].pn]
  {
    hide SysInv, NewPages;
    forall u | u in l.loads
      ensures (l.kernel + multiset(pns))[l.loads[u].pn] == l.kernel[l.loads[u].pn]
    {
      assert LoadOk(l.sys, l.kernel, u, l.loads[u]);
      NotThere(l.sys, l.kernel, pns, l.loads[u].pn);
    }
  }

  lemma SwitchApart(l: LSys, pns: seq<PageNo>, v: Switch, w: Switch)
    requires NewPages(l.sys, l.kernel, pns) && w.pns == pns
    requires forall j {:trigger v.pns[j]} :: 0 <= j < |v.pns| ==> l.kernel[v.pns[j]] == 1
    ensures ArgsApart(v, w) && ArgsApart(w, v)
    ensures forall j {:trigger v.pns[j]} :: 0 <= j < |v.pns| ==> (l.kernel + multiset(pns))[v.pns[j]] == 1
  {
    hide NewPages;
    forall j | 0 <= j < |v.pns|
      ensures (l.kernel + multiset(pns))[v.pns[j]] == 1
      ensures forall k {:trigger pns[k]} :: 0 <= k < |pns| ==> pns[k] != v.pns[j]
    {
      NotThere(l.sys, l.kernel, pns, v.pns[j]);
    }
  }

  lemma XMore(x: XSys, l: LSys, t: nat, w: Switch)
    requires XInv(x) && LInv(l) && LShape(l) && SwitchOk(l, t, w)
    requires forall u :: u in x.next ==> SwitchOk(l, u, x.next[u]) && ArgsApart(x.next[u], w) && ArgsApart(w, x.next[u])
    ensures XInv(XSys(l, x.next[t := w]))
  {
    hide LInv, LShape, SwitchOk, ArgsApart;
  }

  lemma StartExact(x: XSys, t: nat, y: nat, pages: seq<Frame>)
    requires XInv(x) && LShape(x.l) && XEnabled(x, StartExec(t, y, pages))
    ensures AsEager(x, StartExec(t, y, pages))
  {
    hide Inv, SysInv, LInv, LShape, SwitchOk, XInv, AsEager, TakeArgs, SpaceOf;
    StartPages(x, t, y, pages);
    if |TakeArgs(x.l.sys.mem, pages).1| < |pages| {
      StartFails(x, t, y, pages);
    } else {
      StartWorks(x, t, y, pages);
    }
  }

  // ------------------------------------------------------------ execve ends

  /** Different pages, each the kernel's once. */
  ghost predicate OwnPages(s: Sys, kernel: multiset<PageNo>, pns: seq<PageNo>) {
    && (forall j {:trigger pns[j]} :: 0 <= j < |pns| ==> KernelPage(s, kernel, pns[j]))
    && (forall j, k {:trigger pns[j], pns[k]} :: 0 <= j < k < |pns| ==> pns[j] != pns[k])
  }

  lemma OwnCounts(s: Sys, kernel: multiset<PageNo>, pns: seq<PageNo>)
    requires OwnPages(s, kernel, pns)
    ensures multiset(pns) <= kernel && kernel - multiset(pns) + multiset(pns) == kernel
    ensures forall j {:trigger pns[j]} :: 0 <= j < |pns| ==> (kernel - multiset(pns))[pns[j]] == 0
    ensures forall p: PageNo :: p !in pns ==> (kernel - multiset(pns))[p] == kernel[p]
  {
    forall p: PageNo
      ensures multiset(pns)[p] <= kernel[p]
      ensures p in pns ==> multiset(pns)[p] == 1 == kernel[p]
      ensures p !in pns ==> multiset(pns)[p] == 0
    {
      if p in pns {
        var j :| 0 <= j < |pns| && pns[j] == p;
        CountedOnce(pns, j);
      } else {
        NotAgain(pns, p);
      }
    }
  }

  lemma OwnHolds(s: Sys, kernel: multiset<PageNo>, pns: seq<PageNo>, pages: seq<Frame>)
    requires Shape(s.mem) && Inv(s.mem, Held(kernel, s.task)) && OwnPages(s, kernel, pns) && |pns| == |pages|
    requires Filled(s.mem, pns, pages)
    ensures HoldsArgs(s.mem, Held(kernel - multiset(pns), s.task), pns, pages)
  {
    hide Inv;
    OwnCounts(s, kernel, pns);
    var held := Held(kernel - multiset(pns), s.task);
    assert held + multiset(pns) == Held(kernel, s.task);
    forall j | 0 <= j < |pns|
      ensures held[pns[j]] == 0
    {
      assert multiset(s.task)[pns[j]] == 0;
    }
  }

  lemma OwnSwitch(l: LSys, t: nat, w: Switch)
    requires LShape(l) && SwitchOk(l, t, w)
    ensures OwnPages(l.sys, l.kernel, w.pns) && |w.pns| == |w.pages| && Filled(l.sys.mem, w.pns, w.pages)
    ensures Live(l.sys.task, t) && t !in l.loads && ExecOk(l.sys.image, w.x, w.pages)
    ensures SpaceOf(l.sys.mem, t) != map[]
    ensures forall u, j {:trigger l.loads[u], w.pns[j]} :: u in l.loads && 0 <= j < |w.pns| ==>
              l.loads[u].pn != w.pns[j]
  {
    hide SpaceOf;
  }

  /** The memory at the end of an execve. */
  function EndMemory(m: Mem, t: nat, pns: seq<PageNo>): (r: Mem)
    requires Shape(m) && t < NR_TASKS && |pns| <= MAX_ARG_PAGES
    ensures Shape(r)
  {
    PutArgs(FreeTables(m, FirstDir(t), SLOT_DIRS), pns, DirAt(t, ARG_DIR), ENTRIES - 1)
  }

  lemma EndReplaces(l: LSys, t: nat, w: Switch)
    requires LInv(l) && LShape(l) && SwitchOk(l, t, w)
    ensures |w.pns| <= MAX_ARG_PAGES
    ensures var r := EndMemory(l.sys.mem, t, w.pns);
            Replaced(l.sys.mem, Held(l.kernel - multiset(w.pns), l.sys.task), t, w.pages, r)
  {
    var s := l.sys;
    hide LInv, SysInv, Inv, SpaceOf, SwitchOk, OwnPages, Filled, Replaced, HoldsArgs, FreeTables, PutArgs, HasTable;
    LoadSys(l);
    KernelMem(s, l.kernel);
    OwnSwitch(l, t, w);
    OwnHolds(s, l.kernel, w.pns, w.pages);
    SomeTable(s.mem, t);
    SameUseSelf(s.mem);
    ExecWorks(s.mem, Held(l.kernel - multiset(w.pns), s.task), t, w.pages, s.mem, w.pns);
  }

  lemma SameUseSelf(m: Mem)
    requires Shape(m)
    ensures SameUse(m, m)
  {
  }

  lemma EndLoad(s: Sys, kernel: multiset<PageNo>, kernel': multiset<PageNo>, t: nat, x: nat, pages: seq<Frame>, r: Mem,
      u: nat, l: Load)
    requires Shape(s.mem) && |s.task| == |s.exec| == NR_TASKS && LoadOk(s, kernel, u, l) && u != t && t < NR_TASKS
    requires Replaced(s.mem, Held(kernel', s.task), t, pages, r) && kernel'[l.pn] == kernel[l.pn] && Shape(r)
    ensures LoadOk(s.(mem := r, exec := s.exec[t := x]), kernel', u, l)
  {
    hide Inv;
    DirOf(u, l.r, l.i);
    var e := At(r, DirAt(u, l.r), l.i);
  }

  /** What an execve leaves of the loads of the others. */
  lemma EndLoads(l: LSys, t: nat, w: Switch, r: Mem)
    requires LInv(l) && LShape(l) && SwitchOk(l, t, w) && Shape(r)
    requires Replaced(l.sys.mem, Held(l.kernel - multiset(w.pns), l.sys.task), t, w.pages, r)
    requires SysInv(l.sys.(mem := r, exec := l.sys.exec[t := w.x]), l.kernel - multiset(w.pns))
    ensures LInv(LSys(l.sys.(mem := r, exec := l.sys.exec[t := w.x]), l.kernel - multiset(w.pns), l.loads))
  {
    hide Inv, SysInv, SpaceOf, LoadOk, Replaced;
    var kernel' := l.kernel - multiset(w.pns);
    var s' := l.sys.(mem := r, exec := l.sys.exec[t := w.x]);
    OwnCounts(l.sys, l.kernel, w.pns);
    forall u | u in l.loads
      ensures LoadOk(s', kernel', u, l.loads[u])
    {
      assert LoadOk(l.sys, l.kernel, u, l.loads[u]);
      assert l.loads[u].pn !in w.pns;
      EndLoad(l.sys, l.kernel, kernel', t, w.x, w.pages, r, u, l.loads[u]);
    }
  }

  /** What it leaves of other execves. */
  lemma EndSwitch(l: LSys, t: nat, w: Switch, u: nat, v: Switch)
    requires LInv(l) && LShape(l) && SwitchOk(l, t, w) && SwitchOk(l, u, v) && u != t && ArgsApart(w, v)
    requires |w.pns| <= MAX_ARG_PAGES
    requires var r := EndMemory(l.sys.mem, t, w.pns);
             && Replaced(l.sys.mem, Held(l.kernel - multiset(w.pns), l.sys.task), t, w.pages, r)
             && LShape(LSys(l.sys.(mem := r, exec := l.sys.exec[t := w.x]), l.kernel - multiset(w.pns), l.loads))
    ensures var r := EndMemory(l.sys.mem, t, w.pns);
            SwitchOk(LSys(l.sys.(mem := r, exec := l.sys.exec[t := w.x]), l.kernel - multiset(w.pns), l.loads), u, v)
  {
    hide LInv, SysInv, Inv, SpaceOf, FreeTables, PutArgs;
    var held := Held(l.kernel, l.sys.task);
    LoadSys(l);
    KernelMem(l.sys, l.kernel);
    OwnCounts(l.sys, l.kernel, w.pns);
    ExecOthers(l.sys.mem, Held(l.kernel - multiset(w.pns), l.sys.task), t, w.pages, EndMemory(l.sys.mem, t, w.pns), u);
    forall j | 0 <= j < |v.pns|
      ensures (l.kernel - multiset(w.pns))[v.pns[j]] == 1
      ensures EndMemory(l.sys.mem, t, w.pns).data[v.pns[j]] == v.pages[j]
    {
      assert KernelPage(l.sys, l.kernel, v.pns[j]);
      assert v.pns[j] !in w.pns;
      ReplaceData(l.sys.mem, held, t, w.pns, v.pns[j]);
    }
  }

  lemma XLess(x: XSys, l: LSys, t: nat)
    requires XInv(x) && LInv(l) && LShape(l)
    requires forall u :: u in x.next && u != t ==> SwitchOk(l, u, x.next[u])
    ensures XInv(XSys(l, x.next - {t}))
  {
    hide LInv, LShape, SwitchOk, ArgsApart;
  }

  lemma XApart(x: XSys, t: nat, u: nat)
    requires XInv(x) && t in x.next && u in x.next && t != u
    ensures ArgsApart(x.next[t], x.next[u])
  {
    hide LInv, LShape, SwitchOk, ArgsApart;
  }

  lemma EndState(l: LSys, t: nat, w: Switch)
    requires LInv(l) && LShape(l) && SwitchOk(l, t, w)
    ensures |w.pns| <= MAX_ARG_PAGES && t < NR_TASKS && |w.pages| <= MAX_ARG_PAGES
    ensures var r := EndMemory(l.sys.mem, t, w.pns);
            var l' := LSys(l.sys.(mem := r, exec := l.sys.exec[t := w.x]), l.kernel - multiset(w.pns), l.loads);
            && LInv(l') && LShape(l') && Abs(l'.sys) == EagerStep(Abs(l.sys), l.sys.image, Exec(t, w.x, w.pages), true)
            && Replaced(l.sys.mem, Held(l.kernel - multiset(w.pns), l.sys.task), t, w.pages, r)
  {
    hide LInv, SysInv, Inv, SpaceOf, SwitchOk, Replaced, EndMemory, ArgSpace, Abs, OwnPages, Filled, LShape;
    var s := l.sys;
    OwnSwitch(l, t, w);
    LoadSys(l);
    KernelMem(s, l.kernel);
    EndReplaces(l, t, w);
    var r := EndMemory(s.mem, t, w.pns);
    var kernel' := l.kernel - multiset(w.pns);
    ExecTidy(s, l.kernel, t, w.x, w.pages, r, kernel');
    ExecAbs(s, kernel', t, w.x, w.pages, r);
    EndLoads(l, t, w, r);
    LInvShape(LSys(s.(mem := r, exec := s.exec[t := w.x]), kernel', l.loads));
    AbsOf(s, t);
  }

  lemma ShapeOf(l: LSys)
    requires LShape(l)
    ensures Shape(l.sys.mem) && |l.sys.task| == |l.sys.exec| == NR_TASKS
  {
  }

  lemma EndExact(x: XSys, t: nat)
    requires XInv(x) && LShape(x.l) && XEnabled(x, EndExec(t))
    ensures AsEager(x, EndExec(t))
  {
    hide LInv, LShape, XInv, SwitchOk, SysInv, Inv, SpaceOf, Replaced, PutArgs, FreeTables, ArgSpace, Abs, EagerStep;
    XParts(x);
    var l, w := x.l, x.next[t];
    ShapeOf(l);
    EndState(l, t, w);
    var r := EndMemory(l.sys.mem, t, w.pns);
    var l' := LSys(l.sys.(mem := r, exec := l.sys.exec[t := w.x]), l.kernel - multiset(w.pns), l.loads);
    forall u | u in x.next && u != t
      ensures SwitchOk(l', u, x.next[u])
    {
      XApart(x, t, u);
      EndSwitch(l, t, w, u, x.next[u]);
    }
    XLess(x, l', t);
  }

  // --------------------------------------------------------------------- runs

  /** A step has its eager effect if and only if it shares no wrong page, and fails only without memory. */
  lemma StepExact(x: XSys, step: XStep)
    requires XInv(x) && LShape(x.l) && XEnabled(x, step)
    ensures AsEager(x, step) <==> Harmless(x, step)
    ensures Timely(x, step)
  {
    hide LInv, LShape, XInv, AsEager, XEnabled, Timely;
    StepTimely(x, step);
    match step {
      case Other(st) => OtherExact(x, st);
      case StartExec(t, y, pages) => StartExact(x, t, y, pages);
      case EndExec(t) => EndExact(x, t);
    }
  }

  ghost predicate LegalRun(x: XSys, steps: seq<XStep>)
    decreases |steps|
  {
    steps == [] || (LShape(x.l) && XEnabled(x, steps[0]) && LegalRun(XNext(x, steps[0]).0, steps[1..]))
  }

  /** The state at the end, and what tasks that own their pages make of the same steps. */
  ghost function RunAll(x: XSys, steps: seq<XStep>, e: Eager): (XSys, Eager)
    requires LegalRun(x, steps)
    decreases |steps|
  {
    if steps == [] then (x, e)
    else
      var (x', done) := XNext(x, steps[0]);
      RunAll(x', steps[1..], Meaning(e, x.l.sys.image, done))
  }

  /** No step of the run shares a page that is not the executable's. */
  ghost predicate HarmlessRun(x: XSys, steps: seq<XStep>)
    requires LegalRun(x, steps)
    decreases |steps|
  {
    steps == [] || (Harmless(x, steps[0]) && HarmlessRun(XNext(x, steps[0]).0, steps[1..]))
  }

  /** Every step of the run keeps the invariant and has its eager effect. */
  ghost predicate EagerRunOf(x: XSys, steps: seq<XStep>)
    requires LegalRun(x, steps)
    decreases |steps|
  {
    steps == [] || (AsEager(x, steps[0]) && EagerRunOf(XNext(x, steps[0]).0, steps[1..]))
  }

  lemma EagerInv(x: XSys, step: XStep)
    requires LShape(x.l) && XEnabled(x, step) && AsEager(x, step)
    ensures var (x', done) := XNext(x, step);
            XInv(x') && LShape(x'.l) && Abs(x'.l.sys) == Meaning(Abs(x.l.sys), x.l.sys.image, done)
  {
    hide XInv, LShape, XEnabled, XNext, Abs, Meaning;
  }

  /** Every step of the run amounts to what it should. */
  ghost predicate TimelyRun(x: XSys, steps: seq<XStep>)
    requires LegalRun(x, steps)
    decreases |steps|
  {
    steps != [] ==> Timely(x, steps[0]) && TimelyRun(XNext(x, steps[0]).0, steps[1..])
  }

  /** Whatever is interleaved, faults and execves that sleep included: each step of a run has its eager effect if
      and only if no fault shares a wrong page; and then the run ends where eager copying ends, and nothing has
      failed while the pages it needed were free. */
  lemma {:induction false} SleepingExecves(x: XSys, steps: seq<XStep>)
    requires XInv(x) && LegalRun(x, steps)
    ensures EagerRunOf(x, steps) <==> HarmlessRun(x, steps)
    ensures HarmlessRun(x, steps) ==>
              var (x', e') := RunAll(x, steps, Abs(x.l.sys));
              XInv(x') && LShape(x'.l) && Abs(x'.l.sys) == e'
    ensures HarmlessRun(x, steps) ==> TimelyRun(x, steps)
    decreases |steps|
  {
    hide XInv, LShape, XEnabled, XNext, Abs, Meaning, AsEager, Harmless, Timely;
    XShape(x);
    if steps != [] {
      StepExact(x, steps[0]);
      if Harmless(x, steps[0]) {
        EagerInv(x, steps[0]);
        SleepingExecves(XNext(x, steps[0]).0, steps[1..]);
      }
    }
  }

  lemma XShape(x: XSys)
    requires XInv(x)
    ensures LShape(x.l)
  {
    hide LShape, LInv, SwitchOk, ArgsApart;
  }

  // -------------------------------------------- when no execve is under way

  /** Every clean page of a task that has finished its execves is its executable's. */
  lemma SettledPage(l: LSys, q: nat, r: nat, i: nat)
    requires LInv(l) && 1 <= q < NR_TASKS && Offset(r, i) && Shape(l.sys.mem) && |l.sys.exec| == NR_TASKS
    requires At(l.sys.mem, DirAt(q, r), i).Present? && !At(l.sys.mem, DirAt(q, r), i).dirty
    requires Loads(l.sys.exec, l.sys.image, q, r, i)
    ensures Look(l.sys.mem, DirAt(q, r), i) == Some(l.sys.image[l.sys.exec[q]][PageIndex(r, i)])
  {
    hide Inv;
    DirOf(q, r, i);
    assert CleanPage(l.sys.mem, l.sys.exec, l.sys.image, DirAt(q, r), i);
  }

  /** Only a task in the middle of an execve can give away a wrong page. */
  lemma HarmlessUnlessAsleep(x: XSys, t: nat, r: nat, i: nat, n: nat)
    requires XInv(x) && LShape(x.l) && XEnabled(x, Other(Begin(t, r, i, n)))
    requires Asked(x, t, r, i, n) !in x.next
    ensures Harmless(x, Other(Begin(t, r, i, n)))
  {
    hide LInv, LShape, XInv, Inv, At, Look, SwitchOk;
    BeginFacts(x, t, r, i, n);
    var q := Asked(x, t, r, i, n);
    if q != 0 {
      SharerClean(x.l.sys.mem, x.l.sys.task, Actual(x), t, r, i, NR_TASKS);
      SettledPage(x.l, q, r, i);
    }
  }
}

/**
 Runs in which a page fault sleeps while its page is read from the disk: do_no_page is two steps there,
 and whatever the other tasks do in between, copy-on-write still refines eager copying.
*/
module LoadRuns {
  import opened PageTables
  import opened CowPaging
  import opened ExecPages
  import opened EagerCopy
  import opened EagerRuns
  import opened PageDemand
  import opened RequestDemand

  /** A page being read for the entry at offset (r, i) of a task. */
  datatype Load = Load(r: nat, i: nat, pn: PageNo)

  /** kernel: the pages the kernel holds, those being read among them. */
  datatype LSys = LSys(sys: Sys, kernel: multiset<PageNo>, loads: map<nat, Load>)

  datatype LStep =
    | Whole(op: Op)                                     // a request without such a sleep
    | Begin(t: nat, r: nat, i: nat, iCount: nat)        // do_no_page up to bread_page
    | End(t: nat)                                       // and from there on

  /** The first half of do_no_page: shared with another task, or a page to read into, or no memory. */
  function HalfFault(s: Sys, t: nat, r: nat, i: nat, iCount: nat): (res: (Mem, Sharing, PageNo))
    requires Shape(s.mem) && Offset(r, i) && t < NR_TASKS == |s.task| == |s.exec|
    ensures Shape(res.0)
  {
    var (m1, shared) := if iCount < 2 then (s.mem, NotShared) else SharePage(s.mem, s.task, s.exec, t, r, i, NR_TASKS);
    if shared != NotShared then (m1, shared, 0)
    else
      var (m2, pn) := GetFreePage(m1);
      if pn == 0 then (m1, OutOfMemory, 0) else (m2, NotShared, pn)
  }

  /** The second half: the bytes of the executable, and the page goes into its entry. */
  function SecondHalf(s: Sys, t: nat, l: Load, bytes: Frame): (res: (Mem, bool))
    requires Shape(s.mem) && Offset(l.r, l.i) && t < NR_TASKS && |bytes| == PAGE_SIZE
    ensures Shape(res.0)
  {
    var (m, ok) := PutPage(s.mem.(data := s.mem.data[l.pn := bytes]), l.pn, DirAt(t, l.r), l.i);
    if ok then (m, true) else (FreePage(m, l.pn), false)
  }

  function SlotOfOp(op: Op): nat {
    match op
    case Fork(p, _) => p
    case Touch(t, _, _, _) => t
    case Write(t, _, _, _, _, _) => t
    case Exit(t) => t
    case Exec(t, _, _) => t
  }

  ghost predicate LShape(l: LSys) {
    && Shape(l.sys.mem) && |l.sys.task| == |l.sys.exec| == NR_TASKS && Images(l.sys.image)
    && (forall t ::
        t in l.loads ==>
          t < NR_TASKS && Offset(l.loads[t].r, l.loads[t].i)
          && Loads(l.sys.exec, l.sys.image, t, l.loads[t].r, l.loads[t].i))
  }

  ghost predicate Enabled(l: LSys, step: LStep)
    requires LShape(l)
  {
    match step
    case Whole(op) => Legal(l.sys, op) && SlotOfOp(op) !in l.loads
    case Begin(t, r, i, _) =>
      && Live(l.sys.task, t) && t !in l.loads && Offset(r, i) && At(l.sys.mem, DirAt(t, r), i) == Absent
      && Loads(l.sys.exec, l.sys.image, t, r, i)
    case End(t) => t in l.loads
  }

  /** The next state, and what the step amounts to in the eager system: an operation and whether it found memory. */
  ghost function Next(l: LSys, step: LStep): (res: (LSys, Option<(Op, bool)>))
    requires LShape(l) && Enabled(l, step)
  {
    var s := l.sys;
    match step
    case Whole(op) =>
      var (s', ok) := Step(s, op);
      (l.(sys := s'), Some((op, ok)))
    case Begin(t, r, i, n) =>
      var (m, shared, pn) := HalfFault(s, t, r, i, n);
      var s1 := s.(mem := m);
      (match shared
       case Shared => (l.(sys := s1), Some((Op.Touch(t, r, i, n), true)))
       case OutOfMemory => (l.(sys := ExitTask(s1, t)), Some((Op.Touch(t, r, i, n), false)))
       case NotShared => (LSys(s1, l.kernel + multiset{pn}, l.loads[t := Load(r, i, pn)]), None))
    case End(t) =>
      var Load(r, i, pn) := l.loads[t];
      var (m, ok) := SecondHalf(s, t, l.loads[t], s.image[s.exec[t]][PageIndex(r, i)]);
      var s1 := s.(mem := m);
      (LSys(if ok then s1 else ExitTask(s1, t), l.kernel - multiset{pn}, l.loads - {t}),
          Some((Op.Touch(t, r, i, 0), ok)))
  }

  /** The page of a load is the kernel's, for this one load; its entry is still empty. */
  ghost predicate LoadOk(s: Sys, kernel: multiset<PageNo>, t: nat, l: Load)
    requires Shape(s.mem) && |s.task| == |s.exec| == NR_TASKS
  {
    && Live(s.task, t) && Offset(l.r, l.i) && Loads(s.exec, s.image, t, l.r, l.i)
    && At(s.mem, DirAt(t, l.r), l.i) == Absent
    && LOW_PAGES <= l.pn < s.mem.high && kernel[l.pn] == 1 && l.pn !in s.task
  }

  ghost predicate LInv(l: LSys) {
    true == (
      && SysInv(l.sys, l.kernel)
      && (forall t :: t in l.loads ==> LoadOk(l.sys, l.kernel, t, l.loads[t]))
      && (forall t, u :: t in l.loads && u in l.loads && t != u ==> l.loads[t].pn != l.loads[u].pn))
  }

  lemma LInvShape(l: LSys)
    requires LInv(l)
    ensures LShape(l)
  {
  }

  // ------------------------------------------------- what others leave alone

  lemma TouchHigh(s: Sys, kernel: multiset<PageNo>, t: nat, r: nat, i: nat, n: nat)
    requires SysInv(s, kernel) && Live(s.task, t) && Offset(r, i)
    ensures TouchPage(s, t, r, i, n).0.mem.high == s.mem.high
  {
    DirOf(t, r, i);
    if !At(s.mem, DirAt(t, r), i).Present? {
      assert At(s.mem, DirAt(t, r), i) == Absent;
      NoPageInv(s, Held(kernel, s.task), t, r, i, n);
      var (m1, ok) := NoPage(s, t, r, i, n);
      if !ok {
        ExitHigh(s.(mem := m1), Held(kernel, s.task), t);
      }
    }
  }

  lemma ExitHigh(s: Sys, held: multiset<PageNo>, t: nat)
    requires Inv(s.mem, held) && 1 <= t < NR_TASKS == |s.task| == |s.exec|
    ensures ExitTask(s, t).mem.high == s.mem.high
  {
    FreeTablesInv(s.mem, held, FirstDir(t), SLOT_DIRS);
  }

  lemma WriteHigh(s: Sys, kernel: multiset<PageNo>, t: nat, r: nat, i: nat, k: nat, v: Byte, n: nat)
    requires SysInv(s, kernel) && Live(s.task, t) && Offset(r, i) && k < PAGE_SIZE
    ensures WriteByte(s, t, r, i, k, v, n).0.mem.high == s.mem.high
  {
    TouchHigh(s, kernel, t, r, i, n);
    TouchInv(s, kernel, t, r, i, n);
    var (s1, ok) := TouchPage(s, t, r, i, n);
    DirOf(t, r, i);
    if ok {
      WriteMemInv(s1, kernel, t, r, i, k, v);
      ExitHigh(s1, Held(kernel, s1.task), t);
    }
  }

  lemma ForkHigh(s: Sys, kernel: multiset<PageNo>, p: nat, c: nat)
    requires SysInv(s, kernel) && Live(s.task, p) && 1 <= c < NR_TASKS && s.task[c] == 0
    ensures ForkTask(s, p, c).0.mem.high == s.mem.high
  {
    var h := Held(kernel, s.task);
    GetFreePageInv(s.mem, h);
    var (m1, pn) := GetFreePage(s.mem);
    if pn != 0 {
      forall d: nat | FirstDir(c) <= d < FirstDir(c) + SLOT_DIRS
        ensures m1.dir[d] == 0
      {
        assert SlotOf(d) == c;
      }
      CopyMemInv(m1, h + multiset{pn}, FirstDir(p), FirstDir(c), SLOT_DIRS);
    }
  }

  lemma StepHigh(s: Sys, kernel: multiset<PageNo>, op: Op)
    requires SysInv(s, kernel) && Legal(s, op)
    ensures Step(s, op).0.mem.high == s.mem.high
  {
    hide SysInv, ForkTask, TouchPage, WriteByte, ExitTask, ExecTask, SpaceOf;
    match op {
      case Fork(p, c) => ForkHigh(s, kernel, p, c);
      case Touch(t, r, i, n) => TouchHigh(s, kernel, t, r, i, n);
      case Write(t, r, i, k, v, n) => WriteHigh(s, kernel, t, r, i, k, v, n);
      case Exit(t) => KernelMem(s, kernel); ExitHigh(s, Held(kernel, s.task), t);
      case Exec(t, x, pages) => ExecHigh(s, kernel, t, x, pages);
    }
  }

  lemma ExecHigh(s: Sys, kernel: multiset<PageNo>, t: nat, x: nat, pages: seq<Frame>)
    requires SysInv(s, kernel) && Live(s.task, t) && SpaceOf(s.mem, t) != map[] && ExecOk(s.image, x, pages)
    ensures ExecTask(s, t, x, pages).0.mem.high == s.mem.high
  {
    SomeTable(s.mem, t);
    KernelMem(s, kernel);
    hide Inv, SpaceOf, HasTable, ExecMem;
    ExecMemInv(s.mem, Held(kernel, s.task), t, pages);
  }

  /** The pages of task structures are those of before, or one that was free. */
  lemma TaskPages(s: Sys, op: Op, pn: PageNo)
    requires Shape(s.mem) && |s.task| == |s.exec| == NR_TASKS && Images(s.image) && Legal(s, op)
    requires pn !in s.task && LOW_PAGES <= pn && s.mem.count[pn - LOW_PAGES] != 0
    ensures pn !in Step(s, op).0.task
  {
    hide FreeTables, CopyMem, NoPage, UserWrite, Images, ExecMem, SpaceOf;
  }

  /** Another task keeps its pages and its executable. */
  lemma OtherExec(s: Sys, kernel: multiset<PageNo>, op: Op, t: nat)
    requires SysInv(s, kernel) && Legal(s, op) && SlotOfOp(op) != t && Live(s.task, t)
    ensures var s' := Step(s, op).0;
            SysInv(s', kernel) && Live(s'.task, t) && SpaceOf(s'.mem, t) == SpaceOf(s.mem, t) && s'.exec[t] == s.exec[t]
  {
    hide Step, SysInv, SpaceOf, Abs, FreshPage;
    KernelMem(s, kernel);
    StepInv(s, kernel, op);
    OthersUntouched(s, kernel, op, t);
    AbsOf(s, t);
    AbsOf(Step(s, op).0, t);
  }

  lemma InSpace(m: Mem, t: nat, r: nat, i: nat)
    requires Shape(m) && t < NR_TASKS && Offset(r, i)
    ensures (r, i) in SpaceOf(m, t) <==> Look(m, DirAt(t, r), i).Some?
  {
  }

  lemma NotSwapped(s: Sys, kernel: multiset<PageNo>, d: nat, i: nat)
    requires SysInv(s, kernel) && User(d, i)
    ensures !At(s.mem, d, i).Swapped?
  {
    hide Inv, Clean;
  }

  lemma StillAbsent(s: Sys, kernel: multiset<PageNo>, m: Mem, t: nat, r: nat, i: nat)
    requires SysInv(s, kernel) && Live(s.task, t) && Offset(r, i) && Shape(m) && At(m, DirAt(t, r), i) == Absent
    requires Shape(s.mem) && |s.task| == NR_TASKS && SpaceOf(s.mem, t) == SpaceOf(m, t)
    ensures At(s.mem, DirAt(t, r), i) == Absent
  {
    hide SysInv, SpaceOf, At;
    DirOf(t, r, i);
    InSpace(m, t, r, i);
    InSpace(s.mem, t, r, i);
    NotSwapped(s, kernel, DirAt(t, r), i);
  }

  /** A load goes on as if nothing had happened. */
  lemma LoadKept(s: Sys, kernel: multiset<PageNo>, op: Op, t: nat, l: Load)
    requires SysInv(s, kernel) && Legal(s, op) && SlotOfOp(op) != t && LoadOk(s, kernel, t, l)
    ensures LoadOk(Step(s, op).0, kernel, t, l)
  {
    hide Step, SysInv, SpaceOf, Inv;
    KernelMem(s, kernel);
    OtherExec(s, kernel, op, t);
    StillAbsent(Step(s, op).0, kernel, s.mem, t, l.r, l.i);
    StepHigh(s, kernel, op);
    CountBounded(s.mem, Held(kernel, s.task), l.pn);
    TaskPages(s, op, l.pn);
  }

  lemma WholeInv(l: LSys, op: Op)
    requires LInv(l) && LShape(l) && Enabled(l, Whole(op))
    ensures var (s', ok) := Step(l.sys, op);
            LInv(l.(sys := s')) && Abs(s') == EagerStep(Abs(l.sys), l.sys.image, op, ok)
  {
    hide SysInv, LoadOk, Step, Abs;
    StepInv(l.sys, l.kernel, op);
    forall t | t in l.loads
      ensures LoadOk(Step(l.sys, op).0, l.kernel, t, l.loads[t])
    {
      LoadKept(l.sys, l.kernel, op, t, l.loads[t]);
    }
  }

  // ------------------------------------------------------- the first half

  lemma MoreHeld(kernel: multiset<PageNo>, task: seq<PageNo>, pn: PageNo)
    ensures Held(kernel + multiset{pn}, task) == Held(kernel, task) + multiset{pn}
  {
  }

  /** A page is taken to read into. */
  lemma TakenInv(l: LSys, t: nat, r: nat, i: nat)
    requires LInv(l) && LShape(l) && Live(l.sys.task, t) && t !in l.loads && Offset(r, i)
        && At(l.sys.mem, DirAt(t, r), i) == Absent
    requires Loads(l.sys.exec, l.sys.image, t, r, i) && GetFreePage(l.sys.mem).1 != 0
    ensures var (m, pn) := GetFreePage(l.sys.mem);
            var l' := LSys(l.sys.(mem := m), l.kernel + multiset{pn}, l.loads[t := Load(r, i, pn)]);
            LInv(l') && Abs(l'.sys) == Abs(l.sys)
  {
    var s := l.sys;
    var h := Held(l.kernel, s.task);
    KernelMem(s, l.kernel);
    GetFreePageInv(s.mem, h);
    var (m, pn) := GetFreePage(s.mem);
    MoreHeld(l.kernel, s.task, pn);
    assert SameUse(s.mem, m);
    SameUseSys(s, l.kernel, m, l.kernel + multiset{pn});
    assert h[pn] == 0 && l.kernel[pn] == 0 && multiset(s.task)[pn] == 0;
    DirOf(t, r, i);
    hide SysInv, Inv, Abs;
    forall u | u in l.loads
      ensures LoadOk(s.(mem := m), l.kernel + multiset{pn}, u, l.loads[u]) && l.loads[u].pn != pn
    {
      assert LoadOk(s, l.kernel, u, l.loads[u]);
      DirOf(u, l.loads[u].r, l.loads[u].i);
      assert At(m, DirAt(u, l.loads[u].r), l.loads[u].i) == At(s.mem, DirAt(u, l.loads[u].r), l.loads[u].i);
    }
    assert At(m, DirAt(t, r), i) == Absent;
  }

  /** A fault that found its page: the entry is filled, and other loads are not concerned. */
  lemma FilledLoads(l: LSys, t: nat, r: nat, i: nat, m: Mem, kernel: multiset<PageNo>, loads: map<nat, Load>)
    requires LInv(l) && Live(l.sys.task, t) && Offset(r, i) && Shape(m) && Elsewhere(l.sys.mem, m, DirAt(t, r), i)
    requires SysInv(l.sys.(mem := m), kernel)
    requires forall u :: u in loads ==> u in l.loads && u != t && loads[u] == l.loads[u] && kernel[loads[u].pn] == 1
    ensures LInv(LSys(l.sys.(mem := m), kernel, loads))
  {
    LInvShape(l);
    hide Inv, Clean;
    DirOf(t, r, i);
    forall u | u in loads
      ensures LoadOk(l.sys.(mem := m), kernel, u, loads[u])
    {
      assert LoadOk(l.sys, l.kernel, u, l.loads[u]);
      var d, j := DirAt(u, loads[u].r), loads[u].i;
      DirOf(u, loads[u].r, j);
      assert Weaker(At(m, d, j), At(l.sys.mem, d, j));
    }
  }

  /** The task exits; its own load is over. */
  lemma ExitLoads(l: LSys, t: nat)
    requires LInv(l) && Live(l.sys.task, t) && t !in l.loads
    ensures LInv(l.(sys := ExitTask(l.sys, t))) && Abs(ExitTask(l.sys, t)) == Abs(l.sys) - {t}
  {
    LInvShape(l);
    KernelMem(l.sys, l.kernel);
    WholeInv(l, Op.Exit(t));
  }

  lemma SharedInv(l: LSys, t: nat, r: nat, i: nat, n: nat)
    requires LInv(l) && LShape(l) && Enabled(l, Begin(t, r, i, n)) && HalfFault(l.sys, t, r, i, n).1 == Shared
    ensures var s' := l.sys.(mem := HalfFault(l.sys, t, r, i, n).0);
            LInv(l.(sys := s')) && Abs(s') == EagerStep(Abs(l.sys), l.sys.image, Op.Touch(t, r, i, n), true)
  {
    var s := l.sys;
    KernelMem(s, l.kernel);
    DirOf(t, r, i);
    var f := s.image[s.exec[t]][PageIndex(r, i)];
    SharePageInv(s.mem, Held(l.kernel, s.task), s, t, r, i, NR_TASKS);
    var m := HalfFault(s, t, r, i, n).0;
    assert LoadedClean(s.mem, Held(l.kernel, s.task), DirAt(t, r), i, f, m);
    KeepSys(s, l.kernel, m, t, r, i);
    FilledLoads(l, t, r, i, m, l.kernel, l.loads);
    SetPageMatches(s, l.kernel, t, r, i, m, f);
    FreshHere(s, t, r, i);
  }

  /** A page never touched is fresh in the eager system too. */
  lemma FreshHere(s: Sys, t: nat, r: nat, i: nat)
    requires Shape(s.mem) && |s.task| == |s.exec| == NR_TASKS && Live(s.task, t) && Offset(r, i)
        && Loads(s.exec, s.image, t, r, i)
    requires At(s.mem, DirAt(t, r), i) == Absent
    ensures t in Abs(s) && PageOf(Abs(s)[t], s.image, r, i) == s.image[s.exec[t]][PageIndex(r, i)]
  {
    AbsOf(s, t);
    assert (r, i) !in SpaceOf(s.mem, t);
  }

  lemma BeginInv(l: LSys, t: nat, r: nat, i: nat, n: nat)
    requires LInv(l) && LShape(l) && Enabled(l, Begin(t, r, i, n))
    ensures var (l', done) := Next(l, Begin(t, r, i, n));
            LInv(l') && Abs(l'.sys) == (if done.None? then Abs(l.sys)
                else EagerStep(Abs(l.sys), l.sys.image, done.value.0, done.value.1))
  {
    var s := l.sys;
    KernelMem(s, l.kernel);
    DirOf(t, r, i);
    SharePageInv(s.mem, Held(l.kernel, s.task), s, t, r, i, NR_TASKS);
    var (m, shared, pn) := HalfFault(s, t, r, i, n);
    match shared {
      case Shared => SharedInv(l, t, r, i, n);
      case OutOfMemory =>
        assert s.(mem := m) == s;
        AbsOf(s, t);
        ExitLoads(l, t);
      case NotShared => TakenInv(l, t, r, i);
    }
  }

  // ------------------------------------------------------ the second half

  lemma LessHeld(kernel: multiset<PageNo>, task: seq<PageNo>, pn: PageNo)
    requires kernel[pn] == 1 && pn !in task
    ensures Held(kernel - multiset{pn}, task) + multiset{pn} == Held(kernel, task)
        && Held(kernel - multiset{pn}, task)[pn] == 0
  {
    assert multiset(task)[pn] == 0;
  }

  /** The bytes are in the page, and the page in its entry. */
  lemma EndMem(s: Sys, kernel: multiset<PageNo>, t: nat, l: Load)
    requires SysInv(s, kernel) && LoadOk(s, kernel, t, l)
    ensures var f := s.image[s.exec[t]][PageIndex(l.r, l.i)];
            var d := DirAt(t, l.r);
            && |f| == PAGE_SIZE
            && (var (m, ok) := SecondHalf(s, t, l, f);
                && Inv(m, Held(kernel - multiset{l.pn}, s.task))
                && (if ok then Elsewhere(s.mem, m, d, l.i) && At(m, d, l.i) == Present(l.pn, true, false)
                    && Look(m, d, l.i) == Some(f)
                    else SameUse(s.mem, m)))
  {
    var f := s.image[s.exec[t]][PageIndex(l.r, l.i)];
    var d := DirAt(t, l.r);
    var h, h' := Held(kernel, s.task), Held(kernel - multiset{l.pn}, s.task);
    KernelMem(s, kernel);
    DirOf(t, l.r, l.i);
    LessHeld(kernel, s.task, l.pn);
    var m1 := s.mem.(data := s.mem.data[l.pn := f]);
    FillHeld(s.mem, h, l.pn, f);
    PutPageInv(m1, h', l.pn, d, l.i);
    if !PutPage(m1, l.pn, d, l.i).1 {
      ReleaseInv(m1, h, h', l.pn);
    }
  }

  lemma EndPut(l: LSys, t: nat)
    requires LInv(l) && LShape(l) && t in l.loads
    requires SecondHalf(l.sys, t, l.loads[t], l.sys.image[l.sys.exec[t]][PageIndex(l.loads[t].r, l.loads[t].i)]).1
    ensures var (l', done) := Next(l, End(t));
            LInv(l') && done.Some? && Abs(l'.sys) == EagerStep(Abs(l.sys), l.sys.image, done.value.0, done.value.1)
  {
    hide SysInv, Elsewhere, SecondHalf, Abs, SpaceOf, Inv;
    var s := l.sys;
    var Load(r, i, pn) := l.loads[t];
    assert LoadOk(s, l.kernel, t, l.loads[t]);
    EndMem(s, l.kernel, t, l.loads[t]);
    var f := s.image[s.exec[t]][PageIndex(r, i)];
    var m := SecondHalf(s, t, l.loads[t], f).0;
    var kernel' := l.kernel - multiset{pn};
    EndSys(s, l.kernel, kernel', t, l.loads[t], m);
    FilledLoads(l, t, r, i, m, kernel', l.loads - {t});
    SetPageMatches(s, kernel', t, r, i, m, f);
    FreshHere(s, t, r, i);
  }

  lemma EndSys(s: Sys, kernel: multiset<PageNo>, kernel': multiset<PageNo>, t: nat, l: Load, m: Mem)
    requires SysInv(s, kernel) && LoadOk(s, kernel, t, l) && Inv(m, Held(kernel', s.task))
        && Elsewhere(s.mem, m, DirAt(t, l.r), l.i)
    requires At(m, DirAt(t, l.r), l.i) == Present(l.pn, true, false)
    requires Look(m, DirAt(t, l.r), l.i) == Some(s.image[s.exec[t]][PageIndex(l.r, l.i)])
    ensures SysInv(s.(mem := m), kernel')
  {
    DirOf(t, l.r, l.i);
    KernelMem(s, kernel);
    hide Inv, Held;
    forall d: nat, i: nat | User(d, i)
      ensures !At(m, d, i).Swapped? && CleanPage(m, s.exec, s.image, d, i)
    {
      assert !At(s.mem, d, i).Swapped? && CleanPage(s.mem, s.exec, s.image, d, i);
    }
  }

  lemma EndFails(l: LSys, t: nat)
    requires LInv(l) && LShape(l) && t in l.loads
    requires !SecondHalf(l.sys, t, l.loads[t], l.sys.image[l.sys.exec[t]][PageIndex(l.loads[t].r, l.loads[t].i)]).1
    ensures var (l', done) := Next(l, End(t));
            LInv(l') && done.Some? && Abs(l'.sys) == EagerStep(Abs(l.sys), l.sys.image, done.value.0, done.value.1)
  {
    var s := l.sys;
    var Load(r, i, pn) := l.loads[t];
    assert LoadOk(s, l.kernel, t, l.loads[t]);
    EndMem(s, l.kernel, t, l.loads[t]);
    var m := SecondHalf(s, t, l.loads[t], s.image[s.exec[t]][PageIndex(r, i)]).0;
    var kernel' := l.kernel - multiset{pn};
    SameUseSys(s, l.kernel, m, kernel');
    var l1 := LSys(s.(mem := m), kernel', l.loads - {t});
    SameUseLoads(l, m, kernel', t);
    ExitLoads(l1, t);
    AbsOf(s, t);
  }

  lemma SameUseLoads(l: LSys, m: Mem, kernel': multiset<PageNo>, t: nat)
    requires LInv(l) && t in l.loads && SameUse(l.sys.mem, m) && SysInv(l.sys.(mem := m), kernel')
    requires kernel' == l.kernel - multiset{l.loads[t].pn}
    ensures LInv(LSys(l.sys.(mem := m), kernel', l.loads - {t}))
  {
    LInvShape(l);
    hide Inv, Clean, SysInv;
    forall u | u in l.loads && u != t
      ensures LoadOk(l.sys.(mem := m), kernel', u, l.loads[u])
    {
      assert LoadOk(l.sys, l.kernel, u, l.loads[u]) && l.loads[u].pn != l.loads[t].pn;
      DirOf(u, l.loads[u].r, l.loads[u].i);
      var x := At(m, DirAt(u, l.loads[u].r), l.loads[u].i);
    }
  }

  // --------------------------------------------------------------------- runs

  /** What a step means for tasks that own their pages: nothing while a page is on its way. */
  function Meaning(e: Eager, image: seq<seq<Frame>>, done: Option<(Op, bool)>): Eager {
    match done
    case None => e
    case Some(x) => EagerStep(e, image, x.0, x.1)
  }

  /** What a step should amount to, by the pages that are free: a fault whose page can be shared needs a page only for
      a missing table; any other sleeps if there is a page to read into, and needs one for the table when it ends. */
  ghost function Due(l: LSys, step: LStep): Option<(Op, bool)>
    requires LShape(l) && Enabled(l, step)
  {
    var s := l.sys;
    match step
    case Whole(op) => Some((op, Enough(s, op)))
    case Begin(t, r, i, n) =>
      if Found(s, t, r, i, n) then Some((Op.Touch(t, r, i, n), Lacks(s.mem, DirAt(t, r)) <= |Free(s.mem)|))
      else if |Free(s.mem)| == 0 then Some((Op.Touch(t, r, i, n), false))
      else None
    case End(t) =>
      var Load(r, i, pn) := l.loads[t];
      Some((Op.Touch(t, r, i, 0), Lacks(s.mem, DirAt(t, r)) <= |Free(s.mem)|))
  }

  lemma EndDue(l: LSys, t: nat)
    requires LShape(l) && Enabled(l, End(t)) && LInv(l)
    ensures Next(l, End(t)).1 == Due(l, End(t))
  {
    var s := l.sys;
    var ld := l.loads[t];
    KernelMem(s, l.kernel);
    assert LoadOk(s, l.kernel, t, ld);
    hide LInv, SysInv, Inv, EnsureTable, Free, ExitTask, Lacks;
    var m := s.mem.(data := s.mem.data[ld.pn := s.image[s.exec[t]][PageIndex(ld.r, ld.i)]]);
    SameCounts(s.mem, m, DirAt(t, ld.r));
    EnsureTakes(m, DirAt(t, ld.r));
  }

  lemma SameCounts(m: Mem, r: Mem, d: nat)
    requires Shape(m) && Shape(r) && r.count == m.count && r.dir == m.dir && d < DIRS
    ensures Free(r) == Free(m) && Lacks(r, d) == Lacks(m, d)
  {
  }

  /** The first half of a fault: what it comes to, by the pages that are free. */
  lemma HalfDue(s: Sys, held: multiset<PageNo>, t: nat, r: nat, i: nat, n: nat)
    requires |s.task| == |s.exec| == NR_TASKS && Inv(s.mem, held) && Offset(r, i) && 1 <= t < NR_TASKS
    requires Shape(s.mem) && At(s.mem, DirAt(t, r), i) == Absent
    ensures HalfFault(s, t, r, i, n).1 ==
              if n >= 2 && Shareable(s.mem, s.task, s.exec, t, r, i, NR_TASKS) then
                if Lacks(s.mem, DirAt(t, r)) <= |Free(s.mem)| then Shared else OutOfMemory
              else if |Free(s.mem)| == 0 then OutOfMemory else NotShared
  {
    hide Inv, SharePage, Free, Lacks, Shareable, TookFor, At;
    SharePageTakes(s.mem, held, s.task, s.exec, t, r, i, NR_TASKS);
    TakesOne(s.mem);
  }

  lemma BeginDue(l: LSys, t: nat, r: nat, i: nat, n: nat)
    requires LShape(l) && Enabled(l, Begin(t, r, i, n)) && LInv(l)
    ensures Next(l, Begin(t, r, i, n)).1 == Due(l, Begin(t, r, i, n))
  {
    KernelMem(l.sys, l.kernel);
    hide LInv, SysInv, Inv, HalfFault, Free, ExitTask, Lacks, Shareable, At;
    HalfDue(l.sys, Held(l.kernel, l.sys.task), t, r, i, n);
  }

  /** A step amounts to what it should. */
  lemma NextDue(l: LSys, step: LStep)
    requires LInv(l) && LShape(l) && Enabled(l, step)
    ensures Next(l, step).1 == Due(l, step)
  {
    hide LInv, SysInv, Step, Abs, EagerStep, HalfFault, SecondHalf, Enough;
    match step {
      case Whole(op) => WholeDue(l, op);
      case Begin(t, r, i, n) => BeginDue(l, t, r, i, n);
      case End(t) => EndDue(l, t);
    }
  }

  lemma WholeDue(l: LSys, op: Op)
    requires LInv(l) && LShape(l) && Enabled(l, Whole(op))
    ensures Next(l, Whole(op)).1 == Due(l, Whole(op))
  {
    hide SysInv, LoadOk, Step, Abs, Enough;
    StepInv(l.sys, l.kernel, op);
  }

  /** A page fault that sleeps half-way has its eager effect when it ends, and none before; whether it sleeps and
      whether it succeeds depends on the free pages alone. */
  lemma NextMatches(l: LSys, step: LStep)
    requires LInv(l) && LShape(l) && Enabled(l, step)
    ensures var (l', done) := Next(l, step);
            && LInv(l') && LShape(l') && l'.sys.image == l.sys.image && done == Due(l, step)
            && Abs(l'.sys) == Meaning(Abs(l.sys), l.sys.image, done)
  {
    hide LInv, SysInv, Step, Abs, EagerStep, HalfFault, SecondHalf, Due;
    NextDue(l, step);
    match step {
      case Whole(op) => WholeInv(l, op);
      case Begin(t, r, i, n) => BeginInv(l, t, r, i, n);
      case End(t) =>
        if SecondHalf(l.sys, t, l.loads[t], l.sys.image[l.sys.exec[t]][PageIndex(l.loads[t].r, l.loads[t].i)]).1 {
          EndPut(l, t);
        } else {
          EndFails(l, t);
        }
    }
    LInvShape(Next(l, step).0);
  }

  ghost predicate LegalRun(l: LSys, steps: seq<LStep>)
    decreases |steps|
  {
    steps == [] || (LShape(l) && Enabled(l, steps[0]) && LegalRun(Next(l, steps[0]).0, steps[1..]))
  }

  /** The state at the end, and what the eager system makes of the same steps. */
  ghost function RunAll(l: LSys, steps: seq<LStep>, e: Eager): (LSys, Eager)
    requires LegalRun(l, steps)
    decreases |steps|
  {
    if steps == [] then (l, e)
    else
      var (l', done) := Next(l, steps[0]);
      RunAll(l', steps[1..], Meaning(e, l.sys.image, done))
  }

  /** Every step of the run amounts to what it should. */
  ghost predicate DueRun(l: LSys, steps: seq<LStep>)
    requires LegalRun(l, steps)
    decreases |steps|
  {
    steps != [] ==> var (l', done) := Next(l, steps[0]); done == Due(l, steps[0]) && DueRun(l', steps[1..])
  }

  /** Any interleaving, with any number of pages being read: copy-on-write refines eager copying, and nothing fails
      while the pages it needs are free. */
  lemma {:induction false} SleepingFaultsRefineEagerCopy(l: LSys, steps: seq<LStep>)
    requires LInv(l) && LegalRun(l, steps)
    ensures var (l', e') := RunAll(l, steps, Abs(l.sys));
            LInv(l') && Abs(l'.sys) == e'
    ensures DueRun(l, steps)
    decreases |steps|
  {
    if steps != [] {
      NextMatches(l, steps[0]);
      hide Next, Enabled, LInv, Abs, Meaning, Due;
      SleepingFaultsRefineEagerCopy(Next(l, steps[0]).0, steps[1..]);
    }
  }

  /** With nothing being read, the invariant is that of whole requests. */
  lemma NoLoads(s: Sys, kernel: multiset<PageNo>)
    requires SysInv(s, kernel)
    ensures LInv(LSys(s, kernel, map[]))
  {
  }
}

/**
 From power-on to the first executables: states in which page faults sleep and pages of an executable
 are shared, reached by the steps the theorems about runs are about.
*/
module ExecCases {
  import opened PageTables
  import opened CowPaging
  import opened ExecPages
  import opened EagerCopy
  import opened EagerRuns
  import opened FirstFork
  import LoadRuns

  /** execve with room for its arguments, a page table and one page more does not fail, and leaves a page free. */
  lemma ExecFits(s: Sys, t: nat, x: nat, pages: seq<Frame>, lo: nat, hi: nat)
    requires Shape(s.mem) && |s.task| == |s.exec| == NR_TASKS && t < NR_TASKS && ExecOk(s.image, x, pages)
    requires FreeRun(s.mem, lo, hi) && lo + |pages| + 1 < hi
    ensures ExecTask(s, t, x, pages).1 && ExecTask(s, t, x, pages).0.exec[t] == x
    ensures GetFreePage(ExecTask(s, t, x, pages).0.mem).1 != 0
  {
    ExecMemRun(s.mem, t, pages, lo, hi);
    hide ExecMem;
    FreeRunTake(ExecMem(s.mem, t, pages).0, lo, hi - |pages| - 1);
  }

  /** A task that has just called execve has none of its pages: the first instruction faults. */
  lemma FirstInstruction(s: Sys, kernel: multiset<PageNo>, t: nat, x: nat, pages: seq<Frame>)
    requires SysInv(s, kernel) && Live(s.task, t) && s.exec[t] == x && ExecOk(s.image, x, pages) && s.image[x] != []
    requires SpaceOf(s.mem, t) == ArgSpace(pages)
    ensures At(s.mem, DirAt(t, 0), 0) == Absent && Loads(s.exec, s.image, t, 0, 0)
  {
    DirOf(t, 0, 0);
    LoadRuns.InSpace(s.mem, t, 0, 0);
    LoadRuns.NotSwapped(s, kernel, DirAt(t, 0), 0);
  }

  /** The first task can call execve; it then has the argument pages and nothing else, its first instruction faults,
      and the fault sleeps while the page is read. */
  ghost predicate Executes(l: LoadRuns.LSys, x: nat, pages: seq<Frame>) {
    && LoadRuns.LShape(l) && LoadRuns.Enabled(l, LoadRuns.Whole(Exec(1, x, pages))) && |pages| <= MAX_ARG_PAGES
    && var l1 := LoadRuns.Next(l, LoadRuns.Whole(Exec(1, x, pages))).0;
       && LoadRuns.LShape(l1) && LoadRuns.LInv(l1) && l1.sys.exec[1] == x
       && Abs(l1.sys) == map[1 := Private(ArgSpace(pages), x)]
       && LoadRuns.Enabled(l1, LoadRuns.Begin(1, 0, 0, 1))
       && 1 in LoadRuns.Next(l1, LoadRuns.Begin(1, 0, 0, 1)).0.loads
  }

  /** The runs of the theorem above include those with executables and with faults that sleep: after power-on and the
      first fork an execve with room for its arguments is a possible step, and its first instruction faults. */
  lemma BootExecFaults(
      start: nat, high: nat, dir: seq<PageNo>, table: seq<seq<Entry>>, data: seq<Frame>, image: seq<seq<Frame>>,
      x: nat, pages: seq<Frame>)
    requires LOW_PAGES <= start && start + |pages| + 3 < high <= 0x1000 && Images(image)
    requires |dir| == DIRS && |table| == |data| == 0x1000
    requires forall p :: 0 <= p < 0x1000 ==> |table[p]| == ENTRIES && |data[p]| == PAGE_SIZE
    requires forall d :: SLOT_DIRS <= d < DIRS ==> dir[d] == 0
    requires LowMapped(Mem(high, MemInit(start, high), dir, table, data, false))
    requires ExecOk(image, x, pages) && image[x] != []
    ensures var m := Mem(high, MemInit(start, high), dir, table, data, false);
            var s := ForkFirst(Sys(m, seq(NR_TASKS, _ => 0), seq(NR_TASKS, _ => 0), image), 1).0;
            var l := LoadRuns.LSys(s, KernelHolds(m.count, PAGING_PAGES), map[]);
            LoadRuns.LInv(l) && Executes(l, x, pages)
  {
    BootFork(start, high, dir, table, data, image);
    var m := Mem(high, MemInit(start, high), dir, table, data, false);
    var s := ForkFirst(Sys(m, seq(NR_TASKS, _ => 0), seq(NR_TASKS, _ => 0), image), 1).0;
    FirstExec(s, KernelHolds(m.count, PAGING_PAGES), LowSpace(m), x, pages, start, high - 2) by {
      assert (0, 0) in LowSpace(m);
    }
  }

  lemma FirstExec(s: Sys, kernel: multiset<PageNo>, space: Space, x: nat, pages: seq<Frame>, lo: nat, hi: nat)
    requires SysInv(s, kernel) && Live(s.task, 1) && Abs(s) == map[1 := Private(space, 0)] && space != map[]
    requires ExecOk(s.image, x, pages) && s.image[x] != [] && FreeRun(s.mem, lo, hi)
    requires lo + |pages| + 1 < hi
    ensures var l := LoadRuns.LSys(s, kernel, map[]);
            LoadRuns.LInv(l) && Executes(l, x, pages)
  {
    hide SysInv, SpaceOf, ArgSpace, ExecTask, Abs, FreeRun, GetFreePage, Shape, Images;
    hide LoadRuns.LInv, LoadRuns.HalfFault;
    var l := LoadRuns.LSys(s, kernel, map[]);
    var op := Op.Exec(1, x, pages);
    KernelMem(s, kernel);
    AbsOf(s, 1);
    LoadRuns.NoLoads(s, kernel);
    assert Legal(s, op) && LoadRuns.LShape(l) && LoadRuns.Enabled(l, LoadRuns.Whole(op));
    ExecFits(s, 1, x, pages, lo, hi);
    ExecInv(s, kernel, 1, x, pages);
    var s1 := ExecTask(s, 1, x, pages).0;
    assert Step(s, op) == (s1, true);
    FirstFault(s1, kernel, x, pages);
    LoadRuns.NoLoads(s1, kernel);
  }

  lemma FirstFault(s: Sys, kernel: multiset<PageNo>, x: nat, pages: seq<Frame>)
    requires SysInv(s, kernel) && ExecOk(s.image, x, pages) && s.image[x] != [] && s.exec[1] == x
    requires Shape(s.mem) && GetFreePage(s.mem).1 != 0
    requires Abs(s) == map[1 := Private(ArgSpace(pages), x)]
    ensures var l := LoadRuns.LSys(s, kernel, map[]);
            && LoadRuns.LShape(l) && LoadRuns.Enabled(l, LoadRuns.Begin(1, 0, 0, 1))
            && 1 in LoadRuns.Next(l, LoadRuns.Begin(1, 0, 0, 1)).0.loads
  {
    KernelMem(s, kernel);
    AbsOf(s, 1);
    FirstInstruction(s, kernel, 1, x, pages);
    hide SysInv, SpaceOf, ArgSpace, Abs, GetFreePage;
    LoadRuns.NoLoads(s, kernel);
    LoadRuns.LInvShape(LoadRuns.LSys(s, kernel, map[]));
  }

  // ------------------------------------------------- a page shared by two tasks

  /** Task 1 alone, running executable `x`, without any page; the pages from `lo` up to `hi` are free. */
  ghost predicate Alone(s: Sys, kernel: multiset<PageNo>, x: nat, lo: nat, hi: nat) {
    && SysInv(s, kernel) && |s.task| == |s.exec| == NR_TASKS && Shape(s.mem) && FreeRun(s.mem, lo, hi)
    && s.task[1] != 0 && (forall t: nat :: 2 <= t < NR_TASKS ==> s.task[t] == 0)
    && s.exec[1] == x && 0 < x < |s.image| && s.image[x] != []
    && (forall k: nat {:trigger DirAt(1, k)} :: k < SLOT_DIRS ==> s.mem.dir[DirAt(1, k)] == 0)
  }

  /** Tasks 1 and 2, both running it, without any page. */
  ghost predicate Two(s: Sys, kernel: multiset<PageNo>, x: nat, lo: nat, hi: nat) {
    && SysInv(s, kernel) && |s.task| == |s.exec| == NR_TASKS && Shape(s.mem) && FreeRun(s.mem, lo, hi)
    && s.task[1] != 0 && s.task[2] != 0 && (forall t: nat :: 3 <= t < NR_TASKS ==> s.task[t] == 0)
    && s.exec[1] == s.exec[2] == x && 0 < x < |s.image| && s.image[x] != []
    && (forall k: nat {:trigger DirAt(1, k)} :: k < SLOT_DIRS ==> s.mem.dir[DirAt(1, k)] == 0)
    && (forall k: nat {:trigger DirAt(2, k)} :: k < SLOT_DIRS ==> s.mem.dir[DirAt(2, k)] == 0)
  }

  /** Directory entries without tables are copied at no cost. */
  lemma {:induction false} CopyNothing(m: Mem, fd: nat, td: nat, n: nat, span: nat)
    requires Shape(m) && fd + n <= DIRS && td + n <= DIRS && span <= ENTRIES
    requires forall d: nat :: fd <= d < fd + n || td <= d < td + n ==> m.dir[d] == 0
    ensures CopyTables(m, fd, td, n, span) == (m, true)
    decreases n
  {
    if n > 0 {
      CopyNothing(m, fd + 1, td + 1, n - 1, span);
    }
  }

  lemma NoTables(s: Sys, kernel: multiset<PageNo>, t: nat)
    requires SysInv(s, kernel) && 1 <= t < NR_TASKS == |s.task| && s.task[t] == 0
    ensures Shape(s.mem) && forall d: nat :: FirstDir(t) <= d < FirstDir(t) + SLOT_DIRS ==> s.mem.dir[d] == 0
  {
    hide Inv, Clean;
    KernelMem(s, kernel);
    forall d: nat | FirstDir(t) <= d < FirstDir(t) + SLOT_DIRS
      ensures s.mem.dir[d] == 0
    {
      assert SlotOf(d) == t;
    }
  }

  /** What the fork takes: the page of the task structure. */
  lemma ForkTakes(s: Sys, kernel: multiset<PageNo>, x: nat, lo: nat, hi: nat)
    requires Alone(s, kernel, x, lo, hi) && lo < hi
    ensures var (m, pn) := GetFreePage(s.mem);
            && pn != 0 && FreeRun(m, lo, hi - 1) && m.dir == s.mem.dir
            && CopyMem(m, FirstDir(1), FirstDir(2), SLOT_DIRS) == (m, true)
  {
    NoTables(s, kernel, 2);
    FreeRunTake(s.mem, lo, hi);
    var m := GetFreePage(s.mem).0;
    hide SysInv, FreeRun;
    forall d: nat | FirstDir(1) <= d < FirstDir(1) + SLOT_DIRS || FirstDir(2) <= d < FirstDir(2) + SLOT_DIRS
      ensures m.dir[d] == 0
    {
      assert FirstDir(1) <= d < FirstDir(1) + SLOT_DIRS ==> d == DirAt(1, d - FirstDir(1));
    }
    CopyNothing(m, FirstDir(1), FirstDir(2), SLOT_DIRS, ENTRIES);
  }

  lemma ForkAlone(s: Sys, kernel: multiset<PageNo>, x: nat, lo: nat, hi: nat)
    requires Alone(s, kernel, x, lo, hi) && lo < hi
    ensures Legal(s, Fork(1, 2)) && ForkTask(s, 1, 2).1 && Two(ForkTask(s, 1, 2).0, kernel, x, lo, hi - 1)
  {
    hide SysInv, Abs, GetFreePage, FreeRun, CopyMem;
    ForkInv(s, kernel, 1, 2);
    ForkTakes(s, kernel, x, lo, hi);
    var (m, pn) := GetFreePage(s.mem);
    assert ForkTask(s, 1, 2) == (s.(mem := m, task := s.task[2 := pn], exec := s.exec[2 := x]), true);
    SecondEmpty(s, kernel);
  }

  lemma SecondEmpty(s: Sys, kernel: multiset<PageNo>)
    requires SysInv(s, kernel) && |s.task| == NR_TASKS && s.task[2] == 0
    ensures Shape(s.mem) && forall k: nat {:trigger DirAt(2, k)} :: k < SLOT_DIRS ==> s.mem.dir[DirAt(2, k)] == 0
  {
    hide SysInv;
    NoTables(s, kernel, 2);
    forall k: nat | k < SLOT_DIRS
      ensures FirstDir(2) <= DirAt(2, k) < FirstDir(2) + SLOT_DIRS
    {
    }
  }

  function HalfFault1(s: Sys): (res: (Mem, Sharing, PageNo))
    requires Shape(s.mem) && NR_TASKS == |s.task| == |s.exec|
  {
    LoadRuns.HalfFault(s, 1, 0, 0, 1)
  }

  /** A clean page in the first entry of task 1 is taken over by task 2, which has no table. */
  lemma TryFirst(m: Mem, lo: nat, hi: nat, pn: PageNo)
    requires Shape(m) && FreeRun(m, lo, hi) && lo < hi && LOW_PAGES <= pn < m.high
    requires m.dir[16] != 0 && m.table[m.dir[16]][0] == Present(pn, true, false) && m.dir[32] == 0
    ensures TryShare(m, 0, 0, 1, 2).1 == Shared
  {
    FreeRunTake(m, lo, hi);
    assert DirAt(1, 0) == 16 && DirAt(2, 0) == 32;
  }

  /** Of the tasks from `p` down only task 1 runs the executable of task 2. */
  lemma {:induction false} OnlyTheOther(m: Mem, task: seq<PageNo>, exec: seq<nat>, r: nat, i: nat, p: nat)
    requires Shape(m) && Offset(r, i) && 2 <= p <= NR_TASKS == |task| == |exec|
    requires task[1] != 0 && exec[1] == exec[2] && forall t: nat :: 3 <= t < NR_TASKS ==> task[t] == 0
    requires TryShare(m, r, i, 1, 2).1 == Shared
    ensures SharePage(m, task, exec, 2, r, i, p).1 == Shared
    decreases p
  {
    hide TryShare;
    if p > 2 {
      OnlyTheOther(m, task, exec, r, i, p - 1);
    }
  }

  /** The page of task 1's first instruction goes into its entry; task 2 finds it there. */
  lemma LoadThenShare(s: Sys, kernel: multiset<PageNo>, x: nat, lo: nat, hi: nat, f: Frame)
    requires Two(s, kernel, x, lo, hi) && lo + 2 < hi && |f| == PAGE_SIZE
    ensures var (m, shared, pn) := HalfFault1(s);
            && shared == NotShared && pn != 0
            && (var (m2, ok) := LoadRuns.SecondHalf(s.(mem := m), 1, LoadRuns.Load(0, 0, pn), f);
                && ok && At(m2, DirAt(2, 0), 0) == Absent
                && SharePage(m2, s.task, s.exec, 2, 0, 0, NR_TASKS).1 == Shared)
  {
    KernelMem(s, kernel);
    FreeRunTake(s.mem, lo, hi);
    GetFreePageInv(s.mem, Held(kernel, s.task));
    var (m, pn) := GetFreePage(s.mem);
    FreeRunTake(m, lo, hi - 1);
    var q := m.(data := m.data[pn := f]);
    assert DirAt(1, 0) == 16 && DirAt(2, 0) == 32 && s.mem.dir[DirAt(1, 0)] == 0 && s.mem.dir[DirAt(2, 0)] == 0;
    var (m1, t) := GetFreePage(q);
    FreeRunTake(q, lo, hi - 1);
    hide SysInv, Inv, GetFreePage, FreeRun;
    var m2 := PutPage(q, pn, DirAt(1, 0), 0).0;
    TryFirst(m2, lo, hi - 2, pn);
    OnlyTheOther(m2, s.task, s.exec, 0, 0, NR_TASKS);
  }

  lemma NoneElse(s: Sys, space: Space)
    requires Shape(s.mem) && |s.task| == |s.exec| == NR_TASKS && Abs(s) == map[1 := Private(space, 0)]
    ensures s.task[1] != 0 && SpaceOf(s.mem, 1) == space && forall t: nat :: 2 <= t < NR_TASKS ==> s.task[t] == 0
  {
    hide SpaceOf, Abs;
    AbsOf(s, 1);
    forall t: nat | 2 <= t < NR_TASKS
      ensures s.task[t] == 0
    {
      AbsOf(s, t);
    }
  }

  /** Without arguments the old tables go and no new one comes. */
  lemma TablesGone(m: Mem, held: multiset<PageNo>)
    requires Shape(m) && Inv(m, held)
    ensures ExecMem(m, 1, []) == (FreeTables(m, FirstDir(1), SLOT_DIRS), true)
    ensures forall k: nat {:trigger DirAt(1, k)} :: k < SLOT_DIRS ==>
              FreeTables(m, FirstDir(1), SLOT_DIRS).dir[DirAt(1, k)] == 0
  {
    hide Inv, FreeTables;
    NoArgs(m);
    FreeTablesInv(m, held, FirstDir(1), SLOT_DIRS);
    forall k: nat | k < SLOT_DIRS
      ensures FreeTables(m, FirstDir(1), SLOT_DIRS).dir[DirAt(1, k)] == 0
    {
      assert FirstDir(1) <= DirAt(1, k) < FirstDir(1) + SLOT_DIRS;
    }
  }

  lemma NoArgs(m: Mem)
    requires Shape(m)
    ensures ExecMem(m, 1, []) == (FreeTables(m, FirstDir(1), SLOT_DIRS), true)
  {
    hide FreeTables;
    var none: seq<Frame> := [];
    assert TakeArgs(m, none) == (m, []);
  }

  /** execve without arguments leaves the only task alone with its executable. */
  lemma ExecAlone(s: Sys, kernel: multiset<PageNo>, space: Space, x: nat, lo: nat, hi: nat)
    requires SysInv(s, kernel) && Live(s.task, 1) && Abs(s) == map[1 := Private(space, 0)] && space != map[]
    requires ExecOk(s.image, x, []) && s.image[x] != [] && FreeRun(s.mem, lo, hi) && lo + 1 < hi
    ensures Shape(s.mem) && |s.task| == |s.exec| == NR_TASKS
    ensures Legal(s, Exec(1, x, [])) && ExecTask(s, 1, x, []).1
    ensures Alone(ExecTask(s, 1, x, []).0, kernel, x, lo, hi - 1)
  {
    hide SysInv, Inv, FreeTables, Abs, SpaceOf, FreeRun, ExecMem, ArgSpace;
    KernelMem(s, kernel);
    NoneElse(s, space);
    ExecInv(s, kernel, 1, x, []);
    ExecMemRun(s.mem, 1, [], lo, hi);
    TablesGone(s.mem, Held(kernel, s.task));
  }

  /** A system with nothing being read, and one with a page on its way for the first instruction of task 1. */
  function Still(s: Sys, kernel: multiset<PageNo>): LoadRuns.LSys {
    LoadRuns.LSys(s, kernel, map[])
  }

  function Fetching(s: Sys, kernel: multiset<PageNo>): LoadRuns.LSys
    requires Shape(s.mem)
  {
    var (m, pn) := GetFreePage(s.mem);
    LoadRuns.LSys(s.(mem := m), kernel + multiset{pn}, map[1 := LoadRuns.Load(0, 0, pn)])
  }

  lemma BeginFirst(s: Sys, kernel: multiset<PageNo>, x: nat, lo: nat, hi: nat)
    requires Two(s, kernel, x, lo, hi) && lo < hi
    ensures LoadRuns.LShape(Still(s, kernel)) && LoadRuns.Enabled(Still(s, kernel), LoadRuns.Begin(1, 0, 0, 1))
    ensures LoadRuns.Next(Still(s, kernel), LoadRuns.Begin(1, 0, 0, 1)).0 == Fetching(s, kernel)
    ensures LoadRuns.LInv(Fetching(s, kernel)) && LoadRuns.LShape(Fetching(s, kernel))
  {
    KernelMem(s, kernel);
    FreeRunTake(s.mem, lo, hi);
    LoadRuns.NoLoads(s, kernel);
    assert DirAt(1, 0) == 16 && s.mem.dir[DirAt(1, 0)] == 0;
    hide SysInv, Inv, GetFreePage, FreeRun, LoadRuns.LInv;
    assert LoadRuns.Enabled(Still(s, kernel), LoadRuns.Begin(1, 0, 0, 1));
    assert map[][1 := LoadRuns.Load(0, 0, GetFreePage(s.mem).1)] == map[1 := LoadRuns.Load(0, 0, GetFreePage(s.mem).1)];
    LoadRuns.NextMatches(Still(s, kernel), LoadRuns.Begin(1, 0, 0, 1));
  }

  /** Only tasks 1 and 2, running `x`; task 1 has its first page as it was loaded. */
  ghost predicate Pair(s: Sys, x: nat) {
    && Shape(s.mem) && |s.task| == |s.exec| == NR_TASKS && s.exec[1] == s.exec[2] == x
    && s.task[1] != 0 && s.task[2] != 0 && (forall t: nat :: 3 <= t < NR_TASKS ==> s.task[t] == 0)
    && 0 < x < |s.image| && s.image[x] != []
    && var e := At(s.mem, DirAt(1, 0), 0);
       e.Present? && !e.dirty && LOW_PAGES <= e.page
  }

  /** And task 2, whose first instruction faults, is going to find that page with task 1. */
  ghost predicate Paged(l: LoadRuns.LSys, x: nat) {
    && LoadRuns.LInv(l) && LoadRuns.LShape(l) && l.loads == map[] && Pair(l.sys, x)
    && LoadRuns.Enabled(l, LoadRuns.Begin(2, 0, 0, 2)) && LoadRuns.HalfFault(l.sys, 2, 0, 0, 2).1 == Shared
  }

  lemma EndFirst(s: Sys, kernel: multiset<PageNo>, x: nat, lo: nat, hi: nat)
    requires Two(s, kernel, x, lo, hi) && lo + 2 < hi
    requires LoadRuns.LInv(Fetching(s, kernel)) && LoadRuns.LShape(Fetching(s, kernel))
    ensures LoadRuns.Enabled(Fetching(s, kernel), LoadRuns.End(1))
    ensures Paged(LoadRuns.Next(Fetching(s, kernel), LoadRuns.End(1)).0, x)
  {
    hide SysInv, Inv, GetFreePage, FreeRun, LoadRuns.LInv, LoadRuns.SecondHalf, SharePage, Shape;
    var f := s.image[x][0];
    KernelMem(s, kernel);
    LoadThenShare(s, kernel, x, lo, hi, f);
    LoadRuns.NextMatches(Fetching(s, kernel), LoadRuns.End(1));
    FetchedPage(s, kernel, f);
    var pn := GetFreePage(s.mem).1;
    assert map[1 := LoadRuns.Load(0, 0, pn)] - {1} == map[];
  }

  lemma FetchedPage(s: Sys, kernel: multiset<PageNo>, f: Frame)
    requires Shape(s.mem) && LoadRuns.LInv(Fetching(s, kernel)) && |s.task| == |s.exec| == NR_TASKS
    requires 0 < s.exec[1] < |s.image| && s.image[s.exec[1]] != [] && f == s.image[s.exec[1]][0]
    ensures |f| == PAGE_SIZE
    ensures var l := Fetching(s, kernel);
            var (m, ok) := LoadRuns.SecondHalf(l.sys, 1, l.loads[1], f);
            var e := At(m, DirAt(1, 0), 0);
            ok ==> e.Present? && !e.dirty && LOW_PAGES <= e.page
  {
    hide SysInv, Inv, LoadRuns.SecondHalf, GetFreePage;
    var l := Fetching(s, kernel);
    assert LoadRuns.LoadOk(l.sys, l.kernel, 1, l.loads[1]);
    LoadRuns.EndMem(l.sys, l.kernel, 1, l.loads[1]);
  }

  /** The runs of the theorem include pages shared between tasks: after power-on, the first fork and an execve, the
      task forks, its first instruction is read from the disk, and the fault of the child is served by sharing. */
  lemma BootShares(
      start: nat, high: nat, dir: seq<PageNo>, table: seq<seq<Entry>>, data: seq<Frame>, image: seq<seq<Frame>>,
      x: nat)
    requires LOW_PAGES <= start && start + 7 < high <= 0x1000 && Images(image)
    requires |dir| == DIRS && |table| == |data| == 0x1000
    requires forall p :: 0 <= p < 0x1000 ==> |table[p]| == ENTRIES && |data[p]| == PAGE_SIZE
    requires forall d :: SLOT_DIRS <= d < DIRS ==> dir[d] == 0
    requires LowMapped(Mem(high, MemInit(start, high), dir, table, data, false))
    requires ExecOk(image, x, []) && image[x] != []
    ensures var m := Mem(high, MemInit(start, high), dir, table, data, false);
            var s := ForkFirst(Sys(m, seq(NR_TASKS, _ => 0), seq(NR_TASKS, _ => 0), image), 1).0;
            Shares(LoadRuns.LSys(s, KernelHolds(m.count, PAGING_PAGES), map[]), x)
  {
    BootFork(start, high, dir, table, data, image);
    var m := Mem(high, MemInit(start, high), dir, table, data, false);
    var s := ForkFirst(Sys(m, seq(NR_TASKS, _ => 0), seq(NR_TASKS, _ => 0), image), 1).0;
    assert (0, 0) in LowSpace(m);
    hide SysInv, Abs, LowSpace, ForkFirst, FreeRun, Shares;
    FirstShares(s, KernelHolds(m.count, PAGING_PAGES), LowSpace(m), x, start, high - 2);
  }

  function ShareSteps(x: nat): seq<LoadRuns.LStep> {
    [LoadRuns.Whole(Exec(1, x, [])), LoadRuns.Whole(Fork(1, 2)), LoadRuns.Begin(1, 0, 0, 1), LoadRuns.End(1)]
  }

  /** Those steps are possible, and then task 2 finds its first page with task 1. */
  ghost predicate Shares(l: LoadRuns.LSys, x: nat) {
    && LoadRuns.LegalRun(l, ShareSteps(x))
    && var l4 := LoadRuns.RunAll(l, ShareSteps(x), map[]).0;
       Paged(l4, x)
  }

  /** What the eager system makes of the steps does not matter to the kernel. */
  lemma {:induction false} SameRun(l: LoadRuns.LSys, steps: seq<LoadRuns.LStep>, e: Eager, e': Eager)
    requires LoadRuns.LegalRun(l, steps)
    ensures LoadRuns.RunAll(l, steps, e).0 == LoadRuns.RunAll(l, steps, e').0
    decreases |steps|
  {
    if steps != [] {
      var (l1, done) := LoadRuns.Next(l, steps[0]);
      SameRun(l1, steps[1..], LoadRuns.Meaning(e, l.sys.image, done), LoadRuns.Meaning(e', l.sys.image, done));
    }
  }

  lemma RunFirst(l: LoadRuns.LSys, step: LoadRuns.LStep, rest: seq<LoadRuns.LStep>, e: Eager)
    requires LoadRuns.LShape(l) && LoadRuns.Enabled(l, step)
    requires LoadRuns.LegalRun(LoadRuns.Next(l, step).0, rest)
    ensures LoadRuns.LegalRun(l, [step] + rest)
    ensures LoadRuns.RunAll(l, [step] + rest, e).0 == LoadRuns.RunAll(LoadRuns.Next(l, step).0, rest, e).0
  {
    hide LoadRuns.LShape, LoadRuns.Enabled, LoadRuns.Next, LoadRuns.Meaning;
    assert ([step] + rest)[1..] == rest;
    var (l1, done) := LoadRuns.Next(l, step);
    SameRun(l1, rest, e, LoadRuns.Meaning(e, l.sys.image, done));
  }

  lemma FirstShares(s: Sys, kernel: multiset<PageNo>, space: Space, x: nat, lo: nat, hi: nat)
    requires SysInv(s, kernel) && Live(s.task, 1) && Abs(s) == map[1 := Private(space, 0)] && space != map[]
    requires ExecOk(s.image, x, []) && s.image[x] != [] && FreeRun(s.mem, lo, hi) && lo + 5 < hi
    ensures Shares(Still(s, kernel), x)
  {
    hide SysInv, Abs, FreeRun, LoadRuns.LInv, LoadRuns.LShape, LoadRuns.HalfFault, LoadRuns.Next, LoadRuns.Enabled;
    hide Alone, Two, ExecTask, ForkTask, Legal, Still, Fetching, LoadRuns.LegalRun, LoadRuns.RunAll, Shape, Paged;
    WholeExec(s, kernel, space, x, lo, hi);
    var s1 := ExecTask(s, 1, x, []).0;
    WholeFork(s1, kernel, x, lo, hi - 1);
    var s2 := ForkTask(s1, 1, 2).0;
    TwoShape(s2, kernel, x, lo, hi - 2);
    BeginFirst(s2, kernel, x, lo, hi - 2);
    EndFirst(s2, kernel, x, lo, hi - 2);
    RunFour(Still(s, kernel), ShareSteps(x)[0], ShareSteps(x)[1], ShareSteps(x)[2], ShareSteps(x)[3]);
  }

  lemma WholeExec(s: Sys, kernel: multiset<PageNo>, space: Space, x: nat, lo: nat, hi: nat)
    requires SysInv(s, kernel) && Live(s.task, 1) && Abs(s) == map[1 := Private(space, 0)] && space != map[]
    requires ExecOk(s.image, x, []) && s.image[x] != [] && FreeRun(s.mem, lo, hi) && lo + 1 < hi
    ensures Shape(s.mem) && |s.task| == |s.exec| == NR_TASKS
    ensures Alone(ExecTask(s, 1, x, []).0, kernel, x, lo, hi - 1)
    ensures LoadRuns.LShape(Still(s, kernel)) && LoadRuns.Enabled(Still(s, kernel), LoadRuns.Whole(Exec(1, x, [])))
    ensures LoadRuns.Next(Still(s, kernel), LoadRuns.Whole(Exec(1, x, []))).0 == Still(ExecTask(s, 1, x, []).0, kernel)
  {
    hide SysInv, Abs, FreeRun, ExecTask, LoadRuns.LInv, Alone, SpaceOf;
    KernelMem(s, kernel);
    ExecAlone(s, kernel, space, x, lo, hi);
    LoadRuns.NoLoads(s, kernel);
    LoadRuns.LInvShape(Still(s, kernel));
  }

  lemma WholeFork(s: Sys, kernel: multiset<PageNo>, x: nat, lo: nat, hi: nat)
    requires Alone(s, kernel, x, lo, hi) && lo < hi
    ensures Shape(s.mem) && |s.task| == |s.exec| == NR_TASKS
    ensures Two(ForkTask(s, 1, 2).0, kernel, x, lo, hi - 1)
    ensures LoadRuns.LShape(Still(s, kernel)) && LoadRuns.Enabled(Still(s, kernel), LoadRuns.Whole(Fork(1, 2)))
    ensures LoadRuns.Next(Still(s, kernel), LoadRuns.Whole(Fork(1, 2))).0 == Still(ForkTask(s, 1, 2).0, kernel)
  {
    hide SysInv, FreeRun, ForkTask, LoadRuns.LInv, Two;
    ForkAlone(s, kernel, x, lo, hi);
    LoadRuns.NoLoads(s, kernel);
    LoadRuns.LInvShape(Still(s, kernel));
  }

  lemma TwoShape(s: Sys, kernel: multiset<PageNo>, x: nat, lo: nat, hi: nat)
    requires Two(s, kernel, x, lo, hi)
    ensures Shape(s.mem)
  {
  }

  lemma RunFour(l: LoadRuns.LSys, a: LoadRuns.LStep, b: LoadRuns.LStep, c: LoadRuns.LStep, d: LoadRuns.LStep)
    requires LoadRuns.LShape(l) && LoadRuns.Enabled(l, a)
    requires var l1 := LoadRuns.Next(l, a).0; LoadRuns.LShape(l1) && LoadRuns.Enabled(l1, b)
    requires var l2 := LoadRuns.Next(LoadRuns.Next(l, a).0, b).0; LoadRuns.LShape(l2) && LoadRuns.Enabled(l2, c)
    requires var l3 := LoadRuns.Next(LoadRuns.Next(LoadRuns.Next(l, a).0, b).0, c).0;
             LoadRuns.LShape(l3) && LoadRuns.Enabled(l3, d)
    ensures LoadRuns.LegalRun(l, [a, b, c, d])
    ensures LoadRuns.RunAll(l, [a, b, c, d], map[]).0
              == LoadRuns.Next(LoadRuns.Next(LoadRuns.Next(LoadRuns.Next(l, a).0, b).0, c).0, d).0
  {
    hide LoadRuns.LShape, LoadRuns.Enabled, LoadRuns.Next, LoadRuns.Meaning;
    var l1 := LoadRuns.Next(l, a).0;
    var l2 := LoadRuns.Next(l1, b).0;
    var l3 := LoadRuns.Next(l2, c).0;
    var l4 := LoadRuns.Next(l3, d).0;
    assert [d] + [] == [d] && [c] + [d] == [c, d] && [b] + [c, d] == [b, c, d] && [a] + [b, c, d] == [a, b, c, d];
    LastRun(l4);
    RunFirst(l3, d, [], map[]);
    RunFirst(l2, c, [d], map[]);
    RunFirst(l1, b, [c, d], map[]);
    RunFirst(l, a, [b, c, d], map[]);
  }

  lemma LastRun(l: LoadRuns.LSys)
    ensures LoadRuns.LegalRun(l, []) && forall e: Eager :: LoadRuns.RunAll(l, [], e).0 == l
  {
  }
}

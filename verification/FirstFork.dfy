/**
 The first task: task 0 forks while it runs in the kernel's own low memory. Its 160 pages are not
 counted, so parent and child share them, and only the child's entries lose their write permission.
*/
module FirstFork {
  import opened PageTables
  import opened CowPaging
  import opened EagerCopy
  import opened EagerRuns
  import opened PageDemand
  import LoadRuns

  const FIRST_PAGES: nat := 0xA0

  /** head.s: the first page table lies in low memory and maps the low pages to themselves. */
  predicate LowMapped(m: Mem)
    requires Shape(m)
  {
    && 0 < m.dir[0] < LOW_PAGES
    && forall i {:trigger m.table[m.dir[0]][i]} :: 0 <= i < FIRST_PAGES ==>
        m.table[m.dir[0]][i].Present? && m.table[m.dir[0]][i].page == i
  }

  /** fork from task 0: base 0, limit 640 kB, so one directory entry. */
  function ForkFirst(s: Sys, c: nat): (res: (Sys, bool))
    requires Shape(s.mem) && c < NR_TASKS == |s.task| == |s.exec|
    ensures Shape(res.0.mem) && |res.0.task| == |res.0.exec| == NR_TASKS
  {
    var (m1, pn) := GetFreePage(s.mem);
    if pn == 0 then (s, false)
    else
      var (m2, ok) := CopyMem(m1, 0, FirstDir(c), 1);
      if ok then (s.(mem := m2, task := s.task[c := pn], exec := s.exec[c := s.exec[0]]), true)
      else (s.(mem := FreePage(m2, pn)), false)
  }

  /** The entries i..n of the child's table `td` are read-only copies of the low entries; nothing else has changed. */
  ghost predicate LowCopied(m: Mem, held: multiset<PageNo>, td: nat, i: nat, n: nat, r: Mem) {
    true == (
      && Shape(m) && Shape(r) && Inv(r, held) && SLOT_DIRS <= td < DIRS && r.dir == m.dir && r.data == m.data
      && r.high == m.high && r.count == m.count
      && (forall p: PageNo :: p != m.dir[td] ==> r.table[p] == m.table[p])
      && (forall d: nat, j: nat {:trigger At(r, d, j)} :: User(d, j) ==>
            At(r, d, j) == if d == td && i <= j < n then ReadOnly(m.table[m.dir[0]][j]) else At(m, d, j)))
  }

  lemma LowEntry(m: Mem, held: multiset<PageNo>, td: nat, i: nat)
    requires Inv(m, held) && LowMapped(m) && User(td, i) && i < FIRST_PAGES && m.dir[td] != 0 && At(m, td, i) == Absent
    ensures LowCopied(m, held, td, i, i + 1, CopyEntry(m, m.dir[0], m.dir[td], i))
  {
    var e := ReadOnly(m.table[m.dir[0]][i]);
    var r := CopyEntry(m, m.dir[0], m.dir[td], i);
    StoreAt(m, td, i, e);
    Replace(m, held, r, held, td, i);
    assert IsTable(m, m.dir[td]);
  }

  lemma LowStep(m: Mem, held: multiset<PageNo>, td: nat, i: nat, n: nat, q: Mem, r: Mem)
    requires i < n && LowCopied(m, held, td, i, i + 1, q) && LowCopied(q, held, td, i + 1, n, r)
        && m.dir[0] != m.dir[td]
    ensures LowCopied(m, held, td, i, n, r)
  {
    hide Inv, At;
    forall d: nat, j: nat | User(d, j)
      ensures At(r, d, j) == if d == td && i <= j < n then ReadOnly(m.table[m.dir[0]][j]) else At(m, d, j)
    {
      var x, y := At(r, d, j), At(q, d, j);
    }
  }

  lemma {:induction false} LowEntries(m: Mem, held: multiset<PageNo>, td: nat, i: nat)
    requires Inv(m, held) && LowMapped(m) && SLOT_DIRS <= td < DIRS && i <= FIRST_PAGES && m.dir[td] != 0
    requires forall j: nat :: i <= j < ENTRIES ==> At(m, td, j) == Absent
    ensures LowCopied(m, held, td, i, FIRST_PAGES, CopyEntries(m, m.dir[0], m.dir[td], i, FIRST_PAGES))
    decreases FIRST_PAGES - i
  {
    if i < FIRST_PAGES {
      LowEntry(m, held, td, i);
      var q := CopyEntry(m, m.dir[0], m.dir[td], i);
      assert m.dir[td] >= LOW_PAGES;
      hide Inv, CopyEntry;
      LowRest(m, held, td, i, q);
      LowEntries(q, held, td, i + 1);
      LowStep(m, held, td, i, FIRST_PAGES, q, CopyEntries(q, m.dir[0], m.dir[td], i + 1, FIRST_PAGES));
    }
  }

  lemma LowRest(m: Mem, held: multiset<PageNo>, td: nat, i: nat, q: Mem)
    requires Shape(m) && SLOT_DIRS <= td < DIRS && LowMapped(m) && m.dir[td] >= LOW_PAGES
        && LowCopied(m, held, td, i, i + 1, q)
    requires forall j: nat :: i <= j < ENTRIES ==> At(m, td, j) == Absent
    ensures Shape(q) && LowMapped(q) && q.dir == m.dir && Inv(q, held) && forall j: nat :: i + 1 <= j < ENTRIES ==>
        At(q, td, j) == Absent
  {
    assert q.table[q.dir[0]] == m.table[m.dir[0]];
  }

  /** What the first fork does to memory: a table for the child, and the low pages in it. */
  ghost predicate FirstCopied(m: Mem, held: multiset<PageNo>, td: nat, r: Mem) {
    true == (
      && Shape(m) && Shape(r) && Inv(r, held) && SLOT_DIRS <= td < DIRS && r.high == m.high
      && (forall d: nat :: SLOT_DIRS <= d < DIRS && d != td ==> r.dir[d] == m.dir[d])
      && (forall d: nat, j: nat {:trigger At(r, d, j)} :: User(d, j) && d != td ==>
          At(r, d, j) == At(m, d, j) && Look(r, d, j) == Look(m, d, j))
      && (forall j: nat {:trigger At(r, td, j)} :: j < ENTRIES ==>
            At(r, td, j) == (if j < FIRST_PAGES then ReadOnly(m.table[m.dir[0]][j]) else Absent)
            && Look(r, td, j) == if j < FIRST_PAGES then Some(m.data[j]) else None))
  }

  lemma FirstCopy(m: Mem, held: multiset<PageNo>, td: nat)
    requires Inv(m, held) && LowMapped(m) && SLOT_DIRS <= td < DIRS && m.dir[td] == 0
    ensures var (r, ok) := CopyMem(m, 0, td, 1);
            && ok == (GetFreePage(m).1 != 0)
            && (if ok then FirstCopied(m, held, td, r) && r.count == GetFreePage(m).0.count else r == m)
  {
    GetFreePageInv(m, held);
    var (m1, t) := GetFreePage(m);
    if t == 0 {
      return;
    }
    var q := m1.(dir := m1.dir[td := t]);
    SetDirInv(m1, held, td, t);
    assert q.table[q.dir[0]] == m.table[m.dir[0]];
    forall j: nat | j < ENTRIES
      ensures At(q, td, j) == Absent
    {
    }
    LowEntries(q, held, td, 0);
    var r := CopyEntries(q, q.dir[0], t, 0, FIRST_PAGES);
    assert CopyTables(m, 0, td, 1, FIRST_PAGES) == (r, true) by {
      assert CopyDir(m, 0, td, FIRST_PAGES) == (r, true);
    }
    hide CopyEntries;
    FirstLooks(m, held, td, m1, t, q, r);
  }

  lemma FirstLooks(m: Mem, held: multiset<PageNo>, td: nat, m1: Mem, t: PageNo, q: Mem, r: Mem)
    requires Shape(m) && LowMapped(m) && SLOT_DIRS <= td < DIRS && m.dir[td] == 0 && t >= LOW_PAGES
    requires Shape(m1) && m1.dir == m.dir && m1.high == m.high && q == m1.(dir := m1.dir[td := t])
        && LowCopied(q, held, td, 0, FIRST_PAGES, r)
    requires forall p: PageNo :: p != t ==> m1.table[p] == m.table[p] && m1.data[p] == m.data[p]
    requires m1.table[t] == NoEntries()
    requires forall d: nat, i: nat :: User(d, i) ==> At(m1, d, i) == At(m, d, i) && Look(m1, d, i) == Look(m, d, i)
    ensures FirstCopied(m, held, td, r)
  {
    hide Inv;
    forall d: nat, j: nat | User(d, j) && d != td
      ensures At(r, d, j) == At(m, d, j) && Look(r, d, j) == Look(m, d, j)
    {
      assert At(q, d, j) == At(m1, d, j) == At(m, d, j) && Look(m1, d, j) == Look(m, d, j);
    }
    forall j: nat | j < ENTRIES
      ensures At(r, td, j) == (if j < FIRST_PAGES then ReadOnly(m.table[m.dir[0]][j]) else Absent)
      ensures Look(r, td, j) == if j < FIRST_PAGES then Some(m.data[j]) else None
    {
      assert q.table[q.dir[0]] == m.table[m.dir[0]] && At(q, td, j) == Absent;
      if j < FIRST_PAGES {
        assert m.table[m.dir[0]][j].page == j;
      }
    }
  }

  // ------------------------------------------------------------- the system

  /** What the first task starts with: the 160 low pages. */
  ghost function LowSpace(m: Mem): Space
    requires Shape(m)
  {
    map r: nat, i: nat | r < 1 && i < FIRST_PAGES :: (r, i) := m.data[i]
  }

  lemma FirstChild(m: Mem, held: multiset<PageNo>, c: nat, r: Mem)
    requires 1 <= c < NR_TASKS && FirstCopied(m, held, FirstDir(c), r)
        && forall k: nat {:trigger DirAt(c, k)} :: k < SLOT_DIRS ==> m.dir[DirAt(c, k)] == 0
    ensures Shape(r) && SpaceOf(r, c) == LowSpace(m)
  {
    hide Inv, SpaceOf;
    forall k: nat, i: nat | Offset(k, i)
      ensures Look(r, DirAt(c, k), i) == if (k, i) in LowSpace(m) then Some(LowSpace(m)[(k, i)]) else None
    {
      var x := At(r, DirAt(c, k), i);
      if k == 0 {
        assert DirAt(c, 0) == FirstDir(c);
      } else {
        assert m.dir[DirAt(c, k)] == 0;
      }
    }
    SpaceIs(r, c, LowSpace(m));
  }

  lemma FirstOther(m: Mem, held: multiset<PageNo>, c: nat, r: Mem, t: nat)
    requires 1 <= c < NR_TASKS && 1 <= t < NR_TASKS && t != c && FirstCopied(m, held, FirstDir(c), r)
    ensures Shape(r) && Shape(m) && SpaceOf(r, t) == SpaceOf(m, t)
  {
    hide Inv, SpaceOf;
    forall k: nat, i: nat | Offset(k, i)
      ensures Look(r, DirAt(t, k), i) == Look(m, DirAt(t, k), i)
    {
      var x := At(r, DirAt(t, k), i);
    }
    SameSpace(m, r, t);
  }

  lemma FirstTidy(s: Sys, kernel: multiset<PageNo>, held: multiset<PageNo>, c: nat, pn: PageNo, r: Mem)
    requires SysInv(s, kernel) && 1 <= c < NR_TASKS && s.task[c] == 0 && s.exec[0] == 0 && pn != 0
    requires FirstCopied(s.mem, held, FirstDir(c), r)
    ensures Tidy(r, s.task[c := pn]) && Clean(r, s.exec[c := 0], s.image)
  {
    hide Inv;
    var exec' := s.exec[c := 0];
    forall d: nat | SLOT_DIRS <= d < DIRS && s.task[c := pn][SlotOf(d)] == 0
      ensures r.dir[d] == 0
    {
      assert s.mem.dir[d] == 0;
    }
    forall d: nat, i: nat | User(d, i)
      ensures !At(r, d, i).Swapped? && CleanPage(r, exec', s.image, d, i)
    {
      if d != FirstDir(c) {
        assert At(r, d, i) == At(s.mem, d, i) && CleanPage(s.mem, s.exec, s.image, d, i);
        assert !At(s.mem, d, i).Swapped?;
      } else {
        assert SlotOf(d) == c && exec'[c] == 0;
        assert At(r, d, i) == Absent || Look(r, d, i).Some?;
      }
    }
  }

  /** Memory from before the page of the task structure was taken. */
  lemma FirstBase(m: Mem, m1: Mem, held: multiset<PageNo>, td: nat, pn: PageNo, r: Mem)
    requires Shape(m) && LowMapped(m) && FirstCopied(m1, held, td, r) && LOW_PAGES <= pn && m1.dir == m.dir
        && m1.high == m.high
    requires forall p: PageNo :: p != pn ==> m1.table[p] == m.table[p] && m1.data[p] == m.data[p]
    requires forall d: nat, i: nat :: User(d, i) ==> At(m1, d, i) == At(m, d, i) && Look(m1, d, i) == Look(m, d, i)
    ensures FirstCopied(m, held, td, r)
  {
    hide Inv;
    forall d: nat, j: nat | User(d, j) && d != td
      ensures At(r, d, j) == At(m, d, j) && Look(r, d, j) == Look(m, d, j)
    {
      assert At(m1, d, j) == At(m, d, j);
    }
    assert m1.table[m1.dir[0]] == m.table[m.dir[0]];
    forall j: nat | j < ENTRIES
      ensures At(r, td, j) == (if j < FIRST_PAGES then ReadOnly(m.table[m.dir[0]][j]) else Absent)
      ensures Look(r, td, j) == if j < FIRST_PAGES then Some(m.data[j]) else None
    {
      var p: PageNo := j;
      assert p != pn ==> m1.data[p] == m.data[p];
      assert At(r, td, j) == if j < FIRST_PAGES then ReadOnly(m1.table[m1.dir[0]][j]) else Absent;
    }
  }

  lemma FirstSys(s: Sys, kernel: multiset<PageNo>, c: nat, pn: PageNo, r: Mem)
    requires SysInv(s, kernel) && 1 <= c < NR_TASKS && s.task[c] == 0 && s.exec[0] == 0 && LOW_PAGES <= pn < s.mem.high
    requires FirstCopied(s.mem, Held(kernel, s.task) + multiset{pn}, FirstDir(c), r)
    ensures SysInv(s.(mem := r, task := s.task[c := pn], exec := s.exec[c := 0]), kernel)
  {
    var task' := s.task[c := pn];
    SameHolds(r, Held(kernel, s.task) + multiset{pn}, Held(kernel, task'));
    FirstTidy(s, kernel, Held(kernel, s.task) + multiset{pn}, c, pn, r);
    hide Inv, Clean, Tidy, Held;
  }

  lemma FirstTask(s: Sys, kernel: multiset<PageNo>, c: nat, pn: PageNo, r: Mem)
    requires SysInv(s, kernel) && 1 <= c < NR_TASKS && s.task[c] == 0 && s.exec[0] == 0 && LOW_PAGES <= pn < s.mem.high
    requires FirstCopied(s.mem, Held(kernel, s.task) + multiset{pn}, FirstDir(c), r)
    ensures var s' := s.(mem := r, task := s.task[c := pn], exec := s.exec[c := 0]);
            SysInv(s', kernel) && Abs(s') == Abs(s)[c := Private(LowSpace(s.mem), 0)]
  {
    FirstSys(s, kernel, c, pn, r);
    var s' := s.(mem := r, task := s.task[c := pn], exec := s.exec[c := 0]);
    hide Inv, Clean, SpaceOf, LowSpace, FirstCopied;
    forall k: nat | k < SLOT_DIRS
      ensures s.mem.dir[DirAt(c, k)] == 0
    {
      assert SlotOf(DirAt(c, k)) == c;
    }
    FirstChild(s.mem, Held(kernel, s.task) + multiset{pn}, c, r);
    var a, b := Abs(s'), Abs(s)[c := Private(LowSpace(s.mem), 0)];
    assert a.Keys == b.Keys;
    forall u | u in a.Keys
      ensures a[u] == b[u]
    {
      if u != c {
        FirstOther(s.mem, Held(kernel, s.task) + multiset{pn}, c, r, u);
      }
    }
    assert a == b;
  }

  /** Without a page for the child's table the page of the task structure goes back. */
  lemma FirstFails(s: Sys, kernel: multiset<PageNo>)
    requires SysInv(s, kernel) && GetFreePage(s.mem).1 != 0
    ensures var (m1, pn) := GetFreePage(s.mem);
            var s' := s.(mem := FreePage(m1, pn));
            SysInv(s', kernel) && Abs(s') == Abs(s) && s'.mem.count == s.mem.count
  {
    var h := Held(kernel, s.task);
    GetFreePageInv(s.mem, h);
    var (m1, pn) := GetFreePage(s.mem);
    assert (h + multiset{pn})[pn] == 1;
    ReleaseInv(m1, h + multiset{pn}, h, pn);
    var r := FreePage(m1, pn);
    forall d: nat, i: nat | User(d, i)
      ensures At(r, d, i) == At(s.mem, d, i) && Look(r, d, i) == Look(s.mem, d, i)
          && CleanPage(r, s.exec, s.image, d, i)
    {
      assert At(r, d, i) == At(m1, d, i) && Look(r, d, i) == Look(m1, d, i) && CleanPage(s.mem, s.exec, s.image, d, i);
    }
    assert Tidy(r, s.task) && Clean(r, s.exec, s.image);
    forall t | 1 <= t < NR_TASKS
      ensures SpaceOf(r, t) == SpaceOf(s.mem, t)
    {
      SameSpace(s.mem, r, t);
    }
    AbsSame(s, s.(mem := r));
  }

  /** The first fork: the child has the low pages, readable only, and every other task what it had; without two free
      pages nothing happens. From here on all the theorems about runs apply. */
  lemma FirstForkInv(s: Sys, kernel: multiset<PageNo>, c: nat)
    requires SysInv(s, kernel) && LowMapped(s.mem) && 1 <= c < NR_TASKS && s.task[c] == 0 && s.exec[0] == 0
    ensures var (s', ok) := ForkFirst(s, c);
            && SysInv(s', kernel) && (ok <==> 2 <= |Free(s.mem)|)
            && Abs(s') == (if ok then Abs(s)[c := Private(LowSpace(s.mem), 0)] else Abs(s))
            && (!ok ==> s'.mem.count == s.mem.count)
  {
    var h := Held(kernel, s.task);
    TakesOne(s.mem);
    TakesOne(GetFreePage(s.mem).0);
    GetFreePageInv(s.mem, h);
    var (m1, pn) := GetFreePage(s.mem);
    if pn == 0 {
      return;
    }
    assert m1.table[m1.dir[0]] == s.mem.table[s.mem.dir[0]];
    assert s.mem.dir[FirstDir(c)] == 0 by {
      assert SlotOf(FirstDir(c)) == c;
    }
    FirstCopy(m1, h + multiset{pn}, FirstDir(c));
    var (m2, ok) := CopyMem(m1, 0, FirstDir(c), 1);
    hide CopyMem, Inv, SysInv, FirstCopied, Free;
    if ok {
      FirstBase(s.mem, m1, h + multiset{pn}, FirstDir(c), pn, m2);
      FirstTask(s, kernel, c, pn, m2);
    } else {
      FirstFails(s, kernel);
    }
  }

  /** mem_init, then the first fork, with at least two free pages: there is a first task, and everything proved
      about runs is true of what follows. */
  lemma BootFork(start: nat, high: nat, dir: seq<PageNo>, table: seq<seq<Entry>>, data: seq<Frame>,
      image: seq<seq<Frame>>)
    requires LOW_PAGES <= start && start + 2 <= high <= 0x1000 && Images(image)
    requires |dir| == DIRS && |table| == |data| == 0x1000
    requires forall p :: 0 <= p < 0x1000 ==> |table[p]| == ENTRIES && |data[p]| == PAGE_SIZE
    requires forall d :: SLOT_DIRS <= d < DIRS ==> dir[d] == 0
    requires LowMapped(Mem(high, MemInit(start, high), dir, table, data, false))
    ensures var m := Mem(high, MemInit(start, high), dir, table, data, false);
            var (s, ok) := ForkFirst(Sys(m, seq(NR_TASKS, _ => 0), seq(NR_TASKS, _ => 0), image), 1);
            && ok && SysInv(s, KernelHolds(m.count, PAGING_PAGES)) && Live(s.task, 1)
            && Abs(s) == map[1 := Private(LowSpace(m), 0)] && FreeRun(s.mem, start, high - 2)
  {
    var m := Mem(high, MemInit(start, high), dir, table, data, false);
    var s0 := Sys(m, seq(NR_TASKS, _ => 0), seq(NR_TASKS, _ => 0), image);
    BootInv(start, high, dir, table, data, image);
    hide SysInv, Abs, LowSpace;
    FirstForkInv(s0, KernelHolds(m.count, PAGING_PAGES), 1);
    assert FreeRun(m, start, high);
    TookFirst(s0, KernelHolds(m.count, PAGING_PAGES), start, high);
  }

  /** The two pages the first fork takes are the last ones. */
  lemma TookFirst(s: Sys, kernel: multiset<PageNo>, start: nat, high: nat)
    requires SysInv(s, kernel) && LowMapped(s.mem) && s.task[1] == 0
    requires start + 2 <= high && FreeRun(s.mem, start, high)
    ensures ForkFirst(s, 1).1 && ForkFirst(s, 1).0.task[1] != 0
    ensures FreeRun(ForkFirst(s, 1).0.mem, start, high - 2)
  {
    var h := Held(kernel, s.task);
    FreeRunTake(s.mem, start, high);
    GetFreePageInv(s.mem, h);
    var (m1, pn) := GetFreePage(s.mem);
    FreeRunTake(m1, start, high - 1);
    assert m1.table[m1.dir[0]] == s.mem.table[s.mem.dir[0]];
    assert s.mem.dir[FirstDir(1)] == 0;
    FirstCopy(m1, h + multiset{pn}, FirstDir(1));
  }

  /** From power-on: whatever the tasks do after the first fork, execves and faults that sleep included, each of them
      sees what it would with pages of its own, the first of them beginning with the low pages. */
  lemma BootRefinesEagerCopy(
      start: nat, high: nat, dir: seq<PageNo>, table: seq<seq<Entry>>, data: seq<Frame>, image: seq<seq<Frame>>,
      steps: seq<LoadRuns.LStep>)
    requires LOW_PAGES <= start && start + 2 <= high <= 0x1000 && Images(image)
    requires |dir| == DIRS && |table| == |data| == 0x1000
    requires forall p :: 0 <= p < 0x1000 ==> |table[p]| == ENTRIES && |data[p]| == PAGE_SIZE
    requires forall d :: SLOT_DIRS <= d < DIRS ==> dir[d] == 0
    requires LowMapped(Mem(high, MemInit(start, high), dir, table, data, false))
    requires var m := Mem(high, MemInit(start, high), dir, table, data, false);
             var s := ForkFirst(Sys(m, seq(NR_TASKS, _ => 0), seq(NR_TASKS, _ => 0), image), 1).0;
             LoadRuns.LegalRun(LoadRuns.LSys(s, KernelHolds(m.count, PAGING_PAGES), map[]), steps)
    ensures var m := Mem(high, MemInit(start, high), dir, table, data, false);
            var s := ForkFirst(Sys(m, seq(NR_TASKS, _ => 0), seq(NR_TASKS, _ => 0), image), 1).0;
            var l := LoadRuns.LSys(s, KernelHolds(m.count, PAGING_PAGES), map[]);
            var (l', e') := LoadRuns.RunAll(l, steps, map[1 := Private(LowSpace(m), 0)]);
            LoadRuns.LInv(l') && Abs(l'.sys) == e'
  {
    BootFork(start, high, dir, table, data, image);
    var m := Mem(high, MemInit(start, high), dir, table, data, false);
    var s := ForkFirst(Sys(m, seq(NR_TASKS, _ => 0), seq(NR_TASKS, _ => 0), image), 1).0;
    hide SysInv, Abs, LowSpace, ForkFirst, LoadRuns.LInv;
    LoadRuns.NoLoads(s, KernelHolds(m.count, PAGING_PAGES));
    LoadRuns.SleepingFaultsRefineEagerCopy(LoadRuns.LSys(s, KernelHolds(m.count, PAGING_PAGES), map[]), steps);
  }
}

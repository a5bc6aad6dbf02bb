/**
 A page the kernel holds for itself keeps its bytes, whatever the tasks do.
*/
module KernelBytes {
  import opened PageTables
  import opened CowPaging
  import opened ExecPages
  import opened EagerCopy
  import opened LoadRuns

  predicate Used(m: Mem, pn: PageNo)
    requires Shape(m)
  {
    LOW_PAGES <= pn && m.count[pn - LOW_PAGES] != 0
  }

  /** The page is still in use, and has the same bytes. */
  predicate Keeps(m: Mem, r: Mem, pn: PageNo)
    requires Shape(m) && Shape(r)
  {
    Used(r, pn) && r.data[pn] == m.data[pn]
  }

  lemma GetKeeps(m: Mem, pn: PageNo)
    requires Shape(m) && Used(m, pn)
    ensures Keeps(m, GetFreePage(m).0, pn) && GetFreePage(m).1 != pn
  {
  }

  lemma PutKeeps(m: Mem, p: PageNo, d: nat, i: nat, pn: PageNo)
    requires Shape(m) && Used(m, pn) && d < DIRS && i < ENTRIES
    ensures Keeps(m, PutPage(m, p, d, i).0, pn)
  {
    hide GetFreePage;
    GetKeeps(m, pn);
  }

  lemma LoadKeeps(m: Mem, d: nat, i: nat, bytes: Frame, pn: PageNo)
    requires Shape(m) && Used(m, pn) && d < DIRS && i < ENTRIES && |bytes| == PAGE_SIZE
    ensures LoadPage(m, d, i, bytes).0.data[pn] == m.data[pn]
  {
    hide GetFreePage, PutPage;
    GetKeeps(m, pn);
    var (m1, p) := GetFreePage(m);
    PutKeeps(m1.(data := m1.data[p := bytes]), p, d, i, pn);
  }

  // ----------------------------------------------------- giving pages back

  lemma {:induction false} FreeEntriesData(m: Mem, t: PageNo, i: nat)
    requires Shape(m) && i <= ENTRIES
    ensures FreeEntries(m, t, i).data == m.data
    decreases ENTRIES - i
  {
    if i < ENTRIES {
      var e := m.table[t][i];
      var m1 := if e.Present? then FreePage(m, e.page) else m;
      FreeEntriesData(Store(m1, t, i, Absent), t, i + 1);
    }
  }

  /** Giving an address space back changes no bytes. */
  lemma {:induction false} FreeTablesData(m: Mem, d: nat, n: nat)
    requires Shape(m) && d + n <= DIRS
    ensures FreeTables(m, d, n).data == m.data
    decreases n
  {
    hide FreeEntries;
    if n > 0 {
      FreeEntriesData(m, m.dir[d], 0);
      FreeTablesData(FreeDir(m, d), d + 1, n - 1);
    }
  }

  lemma ExitData(s: Sys, t: nat)
    requires Shape(s.mem) && t < NR_TASKS == |s.task| == |s.exec|
    ensures ExitTask(s, t).mem.data == s.mem.data
  {
    hide FreeTables;
    FreeTablesData(s.mem, FirstDir(t), SLOT_DIRS);
  }

  lemma {:induction false} FreeArgsData(m: Mem, pns: seq<PageNo>)
    requires Shape(m)
    ensures FreeArgs(m, pns).data == m.data
    decreases |pns|
  {
    if pns != [] {
      FreeArgsData(FreePage(m, pns[0]), pns[1..]);
    }
  }

  // ------------------------------------------------------------------ fork

  lemma {:induction false} CopyEntriesData(m: Mem, ft: PageNo, tt: PageNo, i: nat, n: nat)
    requires Shape(m) && i <= n <= ENTRIES
    ensures CopyEntries(m, ft, tt, i, n).data == m.data
    decreases n - i
  {
    if i < n {
      CopyEntriesData(if m.table[ft][i].Present? then CopyEntry(m, ft, tt, i) else m, ft, tt, i + 1, n);
    }
  }

  lemma CopyDirData(m: Mem, fd: nat, td: nat, pn: PageNo)
    requires Shape(m) && Used(m, pn) && fd < DIRS && td < DIRS
    ensures CopyDir(m, fd, td, ENTRIES).0.data[pn] == m.data[pn]
  {
    hide GetFreePage, CopyEntries;
    GetKeeps(m, pn);
    var (m1, t) := GetFreePage(m);
    CopyEntriesData(m1.(dir := m1.dir[td := t]), m.dir[fd], t, 0, ENTRIES);
  }

  lemma {:induction false} CopyTablesData(m: Mem, held: multiset<PageNo>, fd: nat, td: nat, n: nat, pn: PageNo)
    requires Inv(m, held) && SLOT_DIRS <= fd && SLOT_DIRS <= td && fd + n <= DIRS && td + n <= DIRS
    requires (fd + n <= td || td + n <= fd) && InSlot(fd) == InSlot(td)
    requires forall d: nat :: td <= d < td + n ==> m.dir[d] == 0
    requires LOW_PAGES <= pn && held[pn] > 0
    ensures CopyTables(m, fd, td, n, ENTRIES).0.data[pn] == m.data[pn]
    decreases n
  {
    HeldCounted(m, held, pn);
    hide Inv, CopyDir;
    if n > 0 {
      CopyDirData(m, fd, td, pn);
      CopyDirInv(m, held, fd, td);
      InSlotNext(fd, td);
      var (m1, ok) := CopyDir(m, fd, td, ENTRIES);
      if ok {
        CopyTablesData(m1, held, fd + 1, td + 1, n - 1, pn);
      }
    }
  }

  lemma ForkBytes(s: Sys, kernel: multiset<PageNo>, p: nat, c: nat, pn: PageNo)
    requires SysInv(s, kernel) && Live(s.task, p) && 1 <= c < NR_TASKS && s.task[c] == 0
    requires LOW_PAGES <= pn && kernel[pn] > 0
    ensures ForkTask(s, p, c).0.mem.data[pn] == s.mem.data[pn]
  {
    hide Inv, Clean, GetFreePage, CopyTables, FreeTables, Users;
    var h := Held(kernel, s.task);
    KernelMem(s, kernel);
    HeldCounted(s.mem, h, pn);
    GetKeeps(s.mem, pn);
    GetFreePageInv(s.mem, h);
    var (m1, q) := GetFreePage(s.mem);
    if q != 0 {
      forall d: nat | FirstDir(c) <= d < FirstDir(c) + SLOT_DIRS
        ensures m1.dir[d] == 0
      {
        assert SlotOf(d) == c;
      }
      CopyTablesData(m1, h + multiset{q}, FirstDir(p), FirstDir(c), SLOT_DIRS, pn);
      FreeTablesData(CopyTables(m1, FirstDir(p), FirstDir(c), SLOT_DIRS, ENTRIES).0, FirstDir(c), SLOT_DIRS);
    }
  }

  // ---------------------------------------------------------------- faults

  lemma TryData(m: Mem, r: nat, i: nat, p: nat, t: nat, pn: PageNo)
    requires Shape(m) && Used(m, pn) && Offset(r, i) && p < NR_TASKS && t < NR_TASKS
    ensures var (m', shared) := TryShare(m, r, i, p, t);
            m'.data[pn] == m.data[pn] && (shared == NotShared ==> Used(m', pn))
  {
    hide GetFreePage;
    GetKeeps(m, pn);
  }

  lemma {:induction false} ShareData(m: Mem, task: seq<PageNo>, exec: seq<nat>, t: nat, r: nat, i: nat, p: nat,
      pn: PageNo)
    requires Shape(m) && Used(m, pn) && Offset(r, i) && t < NR_TASKS && p <= NR_TASKS == |task| == |exec|
    ensures var (m', shared) := SharePage(m, task, exec, t, r, i, p);
            m'.data[pn] == m.data[pn] && (shared == NotShared ==> Used(m', pn))
    decreases p
  {
    hide TryShare, Used;
    if p > 1 {
      TryData(m, r, i, p - 1, t, pn);
      var (m1, s) := TryShare(m, r, i, p - 1, t);
      if task[p - 1] == 0 || p - 1 == t || exec[p - 1] != exec[t] {
        ShareData(m, task, exec, t, r, i, p - 1, pn);
      } else if s == NotShared {
        ShareData(m1, task, exec, t, r, i, p - 1, pn);
      }
    }
  }

  lemma NoPageData(s: Sys, t: nat, r: nat, i: nat, n: nat, pn: PageNo)
    requires Shape(s.mem) && Used(s.mem, pn) && Offset(r, i) && t < NR_TASKS == |s.task| == |s.exec|
    requires Images(s.image)
    ensures NoPage(s, t, r, i, n).0.data[pn] == s.mem.data[pn]
  {
    hide LoadPage, SharePage, Used;
    var d := DirAt(t, r);
    ShareData(s.mem, s.task, s.exec, t, r, i, NR_TASKS, pn);
    LoadKeeps(s.mem, d, i, Zeros(), pn);
    if Loads(s.exec, s.image, t, r, i) {
      var (m1, shared) := if n < 2 then (s.mem, NotShared) else SharePage(s.mem, s.task, s.exec, t, r, i, NR_TASKS);
      if shared == NotShared {
        LoadKeeps(m1, d, i, s.image[s.exec[t]][PageIndex(r, i)], pn);
      }
    }
  }

  lemma TouchData(s: Sys, t: nat, r: nat, i: nat, n: nat, pn: PageNo)
    requires Shape(s.mem) && Used(s.mem, pn) && Offset(r, i) && t < NR_TASKS == |s.task| == |s.exec|
    requires Images(s.image)
    ensures TouchPage(s, t, r, i, n).0.mem.data[pn] == s.mem.data[pn]
  {
    hide NoPage, ExitTask;
    NoPageData(s, t, r, i, n, pn);
    ExitData(s.(mem := NoPage(s, t, r, i, n).0), t);
  }

  /** A store goes into the page of a user entry, or a copy of it. */
  lemma StoreData(m: Mem, held: multiset<PageNo>, d: nat, i: nat, k: nat, v: Byte, pn: PageNo)
    requires Inv(m, held) && User(d, i) && k < PAGE_SIZE && At(m, d, i).Present?
    requires LOW_PAGES <= pn && held[pn] > 0
    ensures UserWrite(m, m.dir[d], i, k, v).0.data[pn] == m.data[pn]
  {
    HeldCounted(m, held, pn);
    assert At(m, d, i).page != pn;
    GetKeeps(m, pn);
    hide Inv, GetFreePage;
  }

  lemma WriteData(s: Sys, kernel: multiset<PageNo>, t: nat, r: nat, i: nat, k: nat, v: Byte, n: nat, pn: PageNo)
    requires SysInv(s, kernel) && Live(s.task, t) && Offset(r, i) && k < PAGE_SIZE
    requires LOW_PAGES <= pn && kernel[pn] > 0
    ensures WriteByte(s, t, r, i, k, v, n).0.mem.data[pn] == s.mem.data[pn]
  {
    KernelMem(s, kernel);
    HeldCounted(s.mem, Held(kernel, s.task), pn);
    TouchInv(s, kernel, t, r, i, n);
    TouchData(s, t, r, i, n, pn);
    hide SysInv, Inv, UserWrite, TouchPage, ExitTask, Abs;
    var (s1, ok) := TouchPage(s, t, r, i, n);
    KernelMem(s1, kernel);
    DirOf(t, r, i);
    if ok && At(s1.mem, DirAt(t, r), i).Present? {
      StoreData(s1.mem, Held(kernel, s1.task), DirAt(t, r), i, k, v, pn);
      ExitData(s1, t);
    }
  }

  // ---------------------------------------------------------------- execve

  lemma {:induction false} PutArgsKeeps(m: Mem, pns: seq<PageNo>, d: nat, i: nat, pn: PageNo)
    requires Shape(m) && Used(m, pn) && d < DIRS && i < ENTRIES && |pns| <= i + 1
    ensures Keeps(m, PutArgs(m, pns, d, i), pn)
    decreases |pns|
  {
    hide PutPage;
    if pns != [] {
      var last := |pns| - 1;
      PutKeeps(m, pns[last], d, i, pn);
      if last > 0 {
        PutArgsKeeps(PutPage(m, pns[last], d, i).0, pns[..last], d, i - 1, pn);
      }
    }
  }

  /** The second half of execve. */
  lemma ReplaceData(m: Mem, held: multiset<PageNo>, t: nat, pns: seq<PageNo>, pn: PageNo)
    requires Inv(m, held) && Shape(m) && 1 <= t < NR_TASKS && |pns| <= ENTRIES && LOW_PAGES <= pn && held[pn] > 0
    ensures PutArgs(FreeTables(m, FirstDir(t), SLOT_DIRS), pns, DirAt(t, ARG_DIR), ENTRIES - 1).data[pn] == m.data[pn]
  {
    hide Inv, FreeTables, PutArgs;
    FreeTablesInv(m, held, FirstDir(t), SLOT_DIRS);
    var m2 := FreeTables(m, FirstDir(t), SLOT_DIRS);
    HeldCounted(m2, held, pn);
    PutArgsKeeps(m2, pns, DirAt(t, ARG_DIR), ENTRIES - 1, pn);
  }

  lemma ArgsInv(m: Mem, held: multiset<PageNo>, pns: seq<PageNo>, pages: seq<Frame>)
    requires HoldsArgs(m, held, pns, pages)
    ensures Inv(m, held + multiset(pns)) && |pns| == |pages|
  {
    hide Inv;
  }

  lemma TakeArgsData(m: Mem, held: multiset<PageNo>, pages: seq<Frame>, pn: PageNo)
    requires Shape(m) && Inv(m, held) && forall j :: 0 <= j < |pages| ==> |pages[j]| == PAGE_SIZE
    requires LOW_PAGES <= pn && held[pn] > 0
    ensures var (r, pns) := TakeArgs(m, pages);
            r.data[pn] == m.data[pn] && Inv(r, held + multiset(pns)) && FreeArgs(r, pns).data == r.data
  {
    hide Inv, TakeArgs, FreeArgs, HoldsArgs, SameUse;
    HeldCounted(m, held, pn);
    TakeArgsInv(m, held, pages);
    var (r, pns) := TakeArgs(m, pages);
    ArgsInv(r, held, pns, pages[|pages| - |pns|..]);
    FreeArgsData(r, pns);
  }

  lemma ExecBytes(s: Sys, kernel: multiset<PageNo>, t: nat, x: nat, pages: seq<Frame>, pn: PageNo)
    requires SysInv(s, kernel) && Live(s.task, t) && ExecOk(s.image, x, pages)
    requires LOW_PAGES <= pn && kernel[pn] > 0
    ensures ExecTask(s, t, x, pages).0.mem.data[pn] == s.mem.data[pn]
  {
    var h := Held(kernel, s.task);
    hide Inv, SysInv, TakeArgs, FreeArgs, FreeTables, PutArgs;
    KernelMem(s, kernel);
    TakeArgsData(s.mem, h, pages, pn);
    var (m, pns) := TakeArgs(s.mem, pages);
    if |pns| == |pages| {
      ReplaceData(m, h + multiset(pns), t, pns, pn);
    }
  }

  // ------------------------------------------------------------------ steps

  /** No request of any task changes the bytes of a page the kernel holds. */
  lemma RequestKeepsBytes(s: Sys, kernel: multiset<PageNo>, op: Op, pn: PageNo)
    requires SysInv(s, kernel) && Shape(s.mem) && Legal(s, op) && LOW_PAGES <= pn && kernel[pn] > 0
    ensures Step(s, op).0.mem.data[pn] == s.mem.data[pn]
  {
    KernelMem(s, kernel);
    HeldCounted(s.mem, Held(kernel, s.task), pn);
    hide SysInv, Inv, ForkTask, TouchPage, WriteByte, ExitTask, ExecTask, SpaceOf;
    match op {
      case Fork(p, c) => ForkBytes(s, kernel, p, c, pn);
      case Touch(t, r, i, n) => TouchData(s, t, r, i, n, pn);
      case Write(t, r, i, k, v, n) => WriteData(s, kernel, t, r, i, k, v, n, pn);
      case Exit(t) => ExitData(s, t);
      case Exec(t, x, pages) => ExecBytes(s, kernel, t, x, pages, pn);
    }
  }

  lemma HalfData(s: Sys, t: nat, r: nat, i: nat, n: nat, pn: PageNo)
    requires Shape(s.mem) && Used(s.mem, pn) && Offset(r, i) && t < NR_TASKS == |s.task| == |s.exec|
    ensures HalfFault(s, t, r, i, n).0.data[pn] == s.mem.data[pn]
  {
    hide SharePage, GetFreePage, Used;
    ShareData(s.mem, s.task, s.exec, t, r, i, NR_TASKS, pn);
    var (m1, shared) := if n < 2 then (s.mem, NotShared) else SharePage(s.mem, s.task, s.exec, t, r, i, NR_TASKS);
    if shared == NotShared {
      GetKeeps(m1, pn);
    }
  }

  lemma SecondData(s: Sys, t: nat, l: Load, bytes: Frame, pn: PageNo)
    requires Shape(s.mem) && Used(s.mem, pn) && pn != l.pn
    requires Offset(l.r, l.i) && t < NR_TASKS && |bytes| == PAGE_SIZE
    ensures SecondHalf(s, t, l, bytes).0.data[pn] == s.mem.data[pn]
  {
    hide PutPage;
    PutKeeps(s.mem.(data := s.mem.data[l.pn := bytes]), l.pn, DirAt(t, l.r), l.i, pn);
  }

  lemma BeginData(l: LSys, t: nat, r: nat, i: nat, n: nat, pn: PageNo)
    requires LShape(l) && Enabled(l, Begin(t, r, i, n)) && Used(l.sys.mem, pn)
    ensures Next(l, Begin(t, r, i, n)).0.sys.mem.data[pn] == l.sys.mem.data[pn]
  {
    hide HalfFault, ExitTask, Used;
    HalfData(l.sys, t, r, i, n, pn);
    ExitData(l.sys.(mem := HalfFault(l.sys, t, r, i, n).0), t);
  }

  lemma EndData(l: LSys, t: nat, pn: PageNo)
    requires LShape(l) && Enabled(l, End(t)) && Used(l.sys.mem, pn) && l.loads[t].pn != pn
    ensures Next(l, End(t)).0.sys.mem.data[pn] == l.sys.mem.data[pn]
  {
    hide SecondHalf, ExitTask, Used;
    var f := l.sys.image[l.sys.exec[t]][PageIndex(l.loads[t].r, l.loads[t].i)];
    SecondData(l.sys, t, l.loads[t], f, pn);
    ExitData(l.sys.(mem := SecondHalf(l.sys, t, l.loads[t], f).0), t);
  }

  lemma KernelUsed(l: LSys, pn: PageNo)
    requires LInv(l) && LShape(l) && LOW_PAGES <= pn && l.kernel[pn] > 0
    ensures Used(l.sys.mem, pn) && SysInv(l.sys, l.kernel)
  {
    KernelMem(l.sys, l.kernel);
    HeldCounted(l.sys.mem, Held(l.kernel, l.sys.task), pn);
    hide SysInv, LoadOk, Inv;
  }

  /** Nor does a fault that sleeps, but for the page it is reading. */
  lemma StepKeepsBytes(l: LSys, step: LStep, pn: PageNo)
    requires LInv(l) && LShape(l) && Enabled(l, step) && LOW_PAGES <= pn && l.kernel[pn] > 0
    requires forall u :: u in l.loads ==> l.loads[u].pn != pn
    ensures Next(l, step).0.sys.mem.data[pn] == l.sys.mem.data[pn]
  {
    hide LInv, SysInv, Step, HalfFault, SecondHalf, ExitTask, Used, SpaceOf;
    KernelUsed(l, pn);
    match step {
      case Whole(op) => RequestKeepsBytes(l.sys, l.kernel, op, pn);
      case Begin(t, r, i, n) => BeginData(l, t, r, i, n, pn);
      case End(t) => EndData(l, t, pn);
    }
  }
}

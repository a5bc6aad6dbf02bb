/**
 How many free pages each paging operation needs: an operation finds its memory if and only if that many
 pages are free, and takes no more than that.
*/
module PageDemand {
  import opened PageTables
  import opened CowPaging
  import opened ExecPages

  /** The free pages, by their place in mem_map. */
  ghost function Free(m: Mem): set<nat>
    requires Shape(m)
  {
    set k: nat | k < PAGING_PAGES && m.count[k] == 0
  }

  /** 1 if a page table must be found for directory entry `d`. */
  function Lacks(m: Mem, d: nat): nat
    requires Shape(m) && d < DIRS
  {
    if m.dir[d] == 0 then 1 else 0
  }

  /** The page tables of the directory entries d..d+n. */
  ghost function Tables(m: Mem, d: nat, n: nat): set<nat>
    requires Shape(m) && d + n <= DIRS
  {
    set k: nat | d <= k < d + n && m.dir[k] != 0
  }

  /** get_free_page finds a page exactly if there is one, and then one page fewer is free. */
  lemma TakesOne(m: Mem)
    requires Shape(m)
    ensures var (r, pn) := GetFreePage(m);
            if Free(m) == {} then pn == 0 && r == m
            else LOW_PAGES <= pn && Free(r) == Free(m) - {pn - LOW_PAGES} && |Free(r)| == |Free(m)| - 1
  {
    var (r, pn) := GetFreePage(m);
    if pn != 0 {
      assert pn - LOW_PAGES in Free(m);
    } else {
      assert Free(m) == {};
    }
  }

  lemma EnsureTakes(m: Mem, d: nat)
    requires Shape(m) && d < DIRS
    ensures var (r, ok) := EnsureTable(m, d);
            (ok <==> Lacks(m, d) <= |Free(m)|) && (ok ==> |Free(r)| == |Free(m)| - Lacks(m, d))
  {
    TakesOne(m);
    var (m1, t) := GetFreePage(m);
    if m.dir[d] == 0 && t != 0 {
      assert Free(m1.(dir := m1.dir[d := t])) == Free(m1);
    }
  }

  // ------------------------------------------------------- copy_page_tables

  lemma ShapeOf(m: Mem, held: multiset<PageNo>)
    requires Inv(m, held)
    ensures Shape(m)
  {
  }

  /** A page is free exactly if it has no use. */
  lemma FreeIff(m: Mem, held: multiset<PageNo>, pn: PageNo)
    requires Inv(m, held) && LOW_PAGES <= pn
    ensures m.count[pn - LOW_PAGES] == 0 <==> Users(m, pn) == {} && !IsTable(m, pn) && held[pn] == 0
  {
    assert |Users(m, pn)| == 0 <==> Users(m, pn) == {};
  }

  lemma SameTables(m: Mem, r: Mem)
    requires Shape(m) && Shape(r) && r.dir == m.dir
    ensures forall pn: PageNo :: IsTable(r, pn) == IsTable(m, pn)
  {
  }

  /** Copied entries name no page that was not named before. */
  lemma SameFree(m: Mem, r: Mem, held: multiset<PageNo>, fd: nat, td: nat)
    requires Inv(m, held) && Inv(r, held) && r.dir == m.dir && SLOT_DIRS <= fd < DIRS && SLOT_DIRS <= td < DIRS
    requires forall i: nat :: i < ENTRIES ==> At(m, td, i) == Absent
    requires forall d: nat, i: nat :: User(d, i) ==>
      At(r, d, i) == if (d == fd || d == td) && At(m, fd, i).Present? then ReadOnly(At(m, fd, i)) else At(m, d, i)
    ensures Free(r) == Free(m)
  {
    hide Inv, IsTable, At;
    ShapeOf(m, held);
    ShapeOf(r, held);
    SameTables(m, r);
    forall k: nat | k < PAGING_PAGES
      ensures k in Free(r) <==> k in Free(m)
    {
      var pn: PageNo := LOW_PAGES + k;
      FreeIff(m, held, pn);
      FreeIff(r, held, pn);
      if Users(m, pn) != {} {
        var u :| u in Users(m, pn);
        assert u in Users(r, pn);
      }
      if Users(r, pn) != {} {
        var u :| u in Users(r, pn);
        assert u in Users(m, pn) || (fd, u.1) in Users(m, pn);
      }
    }
  }

  lemma CopyDirTakes(m: Mem, held: multiset<PageNo>, fd: nat, td: nat)
    requires Inv(m, held) && SLOT_DIRS <= fd < DIRS && SLOT_DIRS <= td < DIRS
    requires fd != td && InSlot(fd) == InSlot(td) && m.dir[td] == 0
    ensures var (r, ok) := CopyDir(m, fd, td, ENTRIES);
            var n := |Tables(m, fd, 1)|;
            (ok <==> n <= |Free(m)|) && (ok ==> |Free(r)| == |Free(m)| - n)
  {
    assert Tables(m, fd, 1) == if m.dir[fd] == 0 then {} else {fd};
    if m.dir[fd] == 0 {
      return;
    }
    TakesOne(m);
    GetFreePageInv(m, held);
    var (m1, t) := GetFreePage(m);
    if t == 0 {
      return;
    }
    SetDirInv(m1, held, td, t);
    var m2 := m1.(dir := m1.dir[td := t]);
    assert Free(m2) == Free(m1);
    CopyEntriesInv(m2, held, fd, td, 0, ENTRIES);
    SameFree(m2, CopyEntries(m2, m2.dir[fd], m2.dir[td], 0, ENTRIES), held, fd, td);
  }

  /** An address space is copied if and only if a page is free for each of its page tables. */
  lemma {:induction false} CopyTablesTakes(m: Mem, held: multiset<PageNo>, fd: nat, td: nat, n: nat)
    requires Inv(m, held) && SLOT_DIRS <= fd && SLOT_DIRS <= td && fd + n <= DIRS && td + n <= DIRS
    requires (fd + n <= td || td + n <= fd) && InSlot(fd) == InSlot(td)
    requires forall d: nat :: td <= d < td + n ==> m.dir[d] == 0
    ensures CopyTables(m, fd, td, n, ENTRIES).1 <==> |Tables(m, fd, n)| <= |Free(m)|
    decreases n
  {
    hide Inv, CopyDir, Free, CopyOf, CopyEntries;
    ShapeOf(m, held);
    if n == 0 {
      assert Tables(m, fd, n) == {};
      return;
    }
    CopyDirTakes(m, held, fd, td);
    CopyDirInv(m, held, fd, td);
    TablesSplit(m, fd, n);
    var (m1, ok1) := CopyDir(m, fd, td, ENTRIES);
    if !ok1 {
      return;
    }
    InSlotNext(fd, td);
    assert Tables(m1, fd + 1, n - 1) == Tables(m, fd + 1, n - 1);
    CopyTablesTakes(m1, held, fd + 1, td + 1, n - 1);
  }

  lemma TablesSplit(m: Mem, d: nat, n: nat)
    requires Shape(m) && d + n <= DIRS && n > 0
    ensures |Tables(m, d, n)| == |Tables(m, d, 1)| + |Tables(m, d + 1, n - 1)|
  {
    assert Tables(m, d, n) == Tables(m, d, 1) + Tables(m, d + 1, n - 1);
  }

  // ------------------------------------------------------ write fault and execve

  /** What a write fault needs: nothing if the page is the task's own, else a page for the copy. */
  function WriteNeed(m: Mem, e: Entry): nat
    requires Shape(m) && e.Present?
  {
    if e.rw || (LOW_PAGES <= e.page && m.count[e.page - LOW_PAGES] == 1) then 0 else 1
  }

  lemma UserWriteTakes(m: Mem, d: nat, i: nat, k: nat, v: Byte)
    requires Shape(m) && User(d, i) && k < PAGE_SIZE && At(m, d, i).Present?
    ensures UserWrite(m, m.dir[d], i, k, v).1 <==> WriteNeed(m, At(m, d, i)) <= |Free(m)|
  {
    TakesOne(m);
  }

  /** copy_strings gets its pages if and only if as many are free. */
  lemma {:induction false} TakeArgsTakes(m: Mem, pages: seq<Frame>)
    requires Shape(m) && forall j :: 0 <= j < |pages| ==> |pages[j]| == PAGE_SIZE
    ensures |TakeArgs(m, pages).1| == |pages| <==> |pages| <= |Free(m)|
    decreases |pages|
  {
    if pages == [] {
      return;
    }
    TakesOne(m);
    var last := |pages| - 1;
    var (m1, pn) := GetFreePage(m);
    if pn != 0 {
      var q := m1.(data := m1.data[pn := pages[last]]);
      assert Free(q) == Free(m1);
      TakeArgsTakes(q, pages[..last]);
    }
  }

  // ------------------------------------------------------------ try_to_share

  /** Counting one more user of a used page leaves the same pages free. */
  lemma ShareFree(m: Mem, pn: PageNo)
    requires Shape(m) && LOW_PAGES <= pn && 1 <= m.count[pn - LOW_PAGES] < NR_TASKS
    ensures Free(Share(m, pn)) == Free(m) && Share(m, pn).count[pn - LOW_PAGES] >= 2
  {
  }

  lemma UsedCount(m: Mem, held: multiset<PageNo>, d: nat, i: nat)
    requires Inv(m, held) && User(d, i) && At(m, d, i).Present? && LOW_PAGES <= At(m, d, i).page
    ensures 1 <= m.count[At(m, d, i).page - LOW_PAGES] < NR_TASKS
  {
    var pn := At(m, d, i).page;
    assert (d, i) in Users(m, pn);
    assert |Users(m, pn)| >= 1;
    CountBounded(m, held, pn);
  }

  /** Sharing needs a page only for a missing table; what is shared is write-protected and has two users. */
  lemma TryShareTakes(m: Mem, held: multiset<PageNo>, off: nat, i: nat, ps: nat, cs: nat)
    requires Inv(m, held) && off < SLOT_DIRS && i < ENTRIES && 1 <= ps < NR_TASKS && 1 <= cs < NR_TASKS && ps != cs
    requires At(m, DirAt(cs, off), i) == Absent
    requires var e := At(m, DirAt(ps, off), i); e.Present? && !e.dirty && LOW_PAGES <= e.page
    ensures var (r, res) := TryShare(m, off, i, ps, cs);
            var td := DirAt(cs, off);
            && res != NotShared && (res == Shared <==> Lacks(m, td) <= |Free(m)|)
            && (res == Shared ==>
                  && |Free(r)| == |Free(m)| - Lacks(m, td)
                  && At(r, td, i).Present? && WriteNeed(r, At(r, td, i)) == 1)
  {
    var fd, td := DirAt(ps, off), DirAt(cs, off);
    var e := At(m, fd, i);
    SlotOffsets(ps, cs, off, i);
    TryShareInv(m, held, off, i, ps, cs);
    EnsureTableInv(m, held, td);
    EnsureTakes(m, td);
    var (m1, ok) := EnsureTable(m, td);
    if ok {
      assert At(m1, fd, i) == e;
      UsedCount(m1, held, fd, i);
      ShareFree(m1, e.page);
      assert Free(TryShare(m, off, i, ps, cs).0) == Free(Share(m1, e.page));
    }
  }
}

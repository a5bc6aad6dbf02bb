/**
 How many free pages a fork needs while entries are swapped out: with a page for each page table and one for each
 entry to read back it never fails, and swaps nothing out.
*/
module SwapDemand {
  import opened PageTables
  import opened Swap
  import C = CowPaging
  import P = PageDemand

  /** The swapped-out entries of the directory entries d..d+n, of the first one those from `i` on. */
  ghost function Slotted(m: Mem, d: nat, i: nat, n: nat): set<(nat, nat)>
    requires Shape(m) && d + n <= DIRS
  {
    set k: nat, j: nat | d <= k < d + n && j < ENTRIES && (k == d ==> i <= j) && At(m, k, j).Swapped? :: (k, j)
  }

  /** One page for each page table and each swapped-out entry. */
  ghost function ForkNeed(m: Mem, d: nat, n: nat): nat
    requires Shape(m) && d + n <= DIRS
  {
    |P.Tables(m, d, n)| + |Slotted(m, d, 0, n)|
  }

  /** `k` free pages fewer, and only entries of the tables fd and td have changed, those of fd below `i`. */
  ghost predicate Spent(s: Paging, r: Paging, fd: nat, td: nat, i: nat, k: nat) {
    true == (
      && WellFormed(s) && WellFormed(r) && |P.Free(r.mem)| + k == |P.Free(s.mem)|
      && (forall d: nat, j: nat {:trigger At(r.mem, d, j)} :: User(d, j) && d != td && (d == fd ==> i <= j) ==>
          At(r.mem, d, j) == At(s.mem, d, j)))
  }

  lemma ParentEntry(s: Paging, held: multiset<PageNo>, usable: set<nat>, d: nat, i: nat)
    requires Swap.Inv(s, held, usable) && User(d, i) && At(s.mem, d, i).Present? && LOW_PAGES <= At(s.mem, d, i).page
    ensures 1 <= s.mem.count[At(s.mem, d, i).page - LOW_PAGES] < NR_TASKS
  {
    P.UsedCount(s.mem, held, d, i);
  }

  lemma TablesDiffer(s: Paging, held: multiset<PageNo>, usable: set<nat>, d: nat, d': nat)
    requires Swap.Inv(s, held, usable) && SLOT_DIRS <= d < DIRS && SLOT_DIRS <= d' < DIRS
    requires d != d' && s.mem.dir[d] != 0
    ensures s.mem.dir[d] != s.mem.dir[d']
  {
    assert Apart(s.mem, d, d');
  }

  /** Stores in the tables of fd and td leave the entries of the other tables. */
  lemma OtherTables(s: Paging, held: multiset<PageNo>, usable: set<nat>, fd: nat, td: nat, i: nat, r: Paging)
    requires Swap.Inv(s, held, usable) && User(fd, i) && User(td, i) && s.mem.dir[fd] != 0 && s.mem.dir[td] != 0
    requires WellFormed(r) && r.mem.dir == s.mem.dir && fd != td
    requires forall p: PageNo, j: nat ::
      (LOW_PAGES <= p && s.mem.count[p - LOW_PAGES] != 0 && j < ENTRIES
        && p != s.mem.dir[td] && !(p == s.mem.dir[fd] && j == i)) ==>
        r.mem.table[p][j] == s.mem.table[p][j]
    ensures forall d: nat, j: nat {:trigger At(r.mem, d, j)} :: User(d, j) && d != td && (d == fd ==> i < j) ==>
        At(r.mem, d, j) == At(s.mem, d, j)
  {
    forall d: nat, j: nat | User(d, j) && d != td && (d == fd ==> i < j)
      ensures At(r.mem, d, j) == At(s.mem, d, j)
    {
      if s.mem.dir[d] != 0 {
        TablesDiffer(s, held, usable, d, td);
        TableUsed(s, held, usable, d);
        if d != fd {
          TablesDiffer(s, held, usable, d, fd);
        }
      }
    }
  }

  lemma TableUsed(s: Paging, held: multiset<PageNo>, usable: set<nat>, d: nat)
    requires Swap.Inv(s, held, usable) && SLOT_DIRS <= d < DIRS && s.mem.dir[d] != 0
    ensures LOW_PAGES <= s.mem.dir[d] && s.mem.count[s.mem.dir[d] - LOW_PAGES] != 0
  {
    assert IsTable(s.mem, s.mem.dir[d]);
    assert |Users(s.mem, s.mem.dir[d])| >= 0;
  }

  /** A present entry is copied without a page. */
  lemma PresentSpends(s: Paging, held: multiset<PageNo>, usable: set<nat>, fd: nat, td: nat, i: nat)
    requires Swap.Inv(s, held, usable) && User(fd, i) && User(td, i) && fd != td
    requires s.mem.dir[fd] != 0 && s.mem.dir[td] != 0 && At(s.mem, fd, i).Present?
    ensures Spent(s, s.(mem := C.CopyEntry(s.mem, s.mem.dir[fd], s.mem.dir[td], i)), fd, td, i + 1, 0)
  {
    var r := s.(mem := C.CopyEntry(s.mem, s.mem.dir[fd], s.mem.dir[td], i));
    if LOW_PAGES <= At(s.mem, fd, i).page {
      ParentEntry(s, held, usable, fd, i);
    }
    assert P.Free(r.mem) == P.Free(s.mem);
    OtherTables(s, held, usable, fd, td, i, r);
  }

  /** A swapped-out entry is copied with one page. */
  lemma SwappedSpends(s: Paging, held: multiset<PageNo>, usable: set<nat>, fd: nat, td: nat, i: nat)
    requires Swap.Inv(s, held, usable) && User(fd, i) && User(td, i) && fd != td
    requires s.mem.dir[fd] != 0 && s.mem.dir[td] != 0 && At(s.mem, fd, i).Swapped? && At(s.mem, fd, i).slot < SWAP_BITS
    requires P.Free(s.mem) != {}
    ensures var (r, ok) := CopySwapped(s, s.mem.dir[fd], s.mem.dir[td], i);
            ok && Spent(s, r, fd, td, i + 1, 1)
  {
    P.TakesOne(s.mem);
    var r := CopySwapped(s, s.mem.dir[fd], s.mem.dir[td], i).0;
    assert P.Free(r.mem) == P.Free(GetFreePage(s.mem).0);
    OtherTables(s, held, usable, fd, td, i, r);
  }

  /** The entries of one table: a page for each swapped-out one is enough, and as many are taken. */
  lemma {:induction false} CopyEntriesSpends(s: Paging, held: multiset<PageNo>, usable: set<nat>, fd: nat, td: nat,
      i: nat)
    requires Swap.Inv(s, held, usable) && SLOT_DIRS <= fd < DIRS && SLOT_DIRS <= td < DIRS && i <= ENTRIES
    requires fd != td && InSlot(fd) == InSlot(td) && s.mem.dir[fd] != 0 && s.mem.dir[td] != 0
    requires forall j: nat :: i <= j < ENTRIES ==> At(s.mem, td, j) == Absent
    requires |Slotted(s.mem, fd, i, 1)| <= |P.Free(s.mem)|
    ensures var (r, ok) := CopyEntries(s, s.mem.dir[fd], s.mem.dir[td], i, ENTRIES);
            ok && Spent(s, r, fd, td, ENTRIES, |Slotted(s.mem, fd, i, 1)|)
    decreases ENTRIES - i
  {
    var ft, tt := s.mem.dir[fd], s.mem.dir[td];
    hide Slots, PageTables.Inv, CopySwapped, C.CopyEntry;
    if i == ENTRIES {
      assert Slotted(s.mem, fd, i, 1) == {};
      return;
    }
    var e := At(s.mem, fd, i);
    NextEntry(s.mem, fd, i);
    if e == Absent {
      CopyEntriesSpends(s, held, usable, fd, td, i + 1);
      return;
    }
    if e.Swapped? {
      SlotNamed(s, held, usable, fd, i);
      CopySwappedInv(s, held, usable, fd, td, i);
      SwappedSpends(s, held, usable, fd, td, i);
    } else {
      CopyPresentInv(s, held, usable, fd, td, i);
      PresentSpends(s, held, usable, fd, td, i);
    }
    var q := if e.Present? then s.(mem := C.CopyEntry(s.mem, ft, tt, i)) else CopySwapped(s, ft, tt, i).0;
    StillEmpty(s, held, usable, fd, td, i, q);
    SameSlotted(s, q, fd, td, i + 1, if e.Present? then 0 else 1);
    CopyEntriesSpends(q, held, usable, fd, td, i + 1);
    SpentTwice(s, q, CopyEntries(q, ft, tt, i + 1, ENTRIES).0, fd, td, i + 1, ENTRIES, if e.Present? then 0 else 1,
        |Slotted(q.mem, fd, i + 1, 1)|);
  }

  lemma NextEntry(m: Mem, d: nat, i: nat)
    requires Shape(m) && User(d, i)
    ensures |Slotted(m, d, i, 1)| == |Slotted(m, d, i + 1, 1)| + (if At(m, d, i).Swapped? then 1 else 0)
  {
    assert Slotted(m, d, i, 1) == Slotted(m, d, i + 1, 1) + if At(m, d, i).Swapped? then {(d, i)} else {};
  }

  lemma SameSlotted(s: Paging, q: Paging, fd: nat, td: nat, i: nat, k: nat)
    requires Spent(s, q, fd, td, i, k) && fd != td && SLOT_DIRS <= fd < DIRS
    ensures Slotted(q.mem, fd, i, 1) == Slotted(s.mem, fd, i, 1) && |P.Free(q.mem)| + k == |P.Free(s.mem)|
  {
    hide At;
  }

  lemma SpentTwice(s: Paging, q: Paging, r: Paging, fd: nat, td: nat, i: nat, i': nat, k: nat, k': nat)
    requires Spent(s, q, fd, td, i, k) && Spent(q, r, fd, td, i', k') && i <= i'
    ensures Spent(s, r, fd, td, i', k + k')
  {
    hide At;
    forall d: nat, j: nat | User(d, j) && d != td && (d == fd ==> i' <= j)
      ensures At(r.mem, d, j) == At(s.mem, d, j)
    {
      assert At(q.mem, d, j) == At(s.mem, d, j);
    }
  }

  /** One directory entry. */
  lemma CopyDirSpends(s: Paging, held: multiset<PageNo>, usable: set<nat>, fd: nat, td: nat)
    requires Swap.Inv(s, held, usable) && SLOT_DIRS <= fd < DIRS && SLOT_DIRS <= td < DIRS
    requires fd != td && InSlot(fd) == InSlot(td) && s.mem.dir[td] == 0
    requires ForkNeed(s.mem, fd, 1) <= |P.Free(s.mem)|
    ensures var (r, ok) := CopyDir(s, fd, td, ENTRIES);
            ok && Spent(s, r, fd, td, ENTRIES, ForkNeed(s.mem, fd, 1))
  {
    assert P.Tables(s.mem, fd, 1) == if s.mem.dir[fd] == 0 then {} else {fd};
    if s.mem.dir[fd] == 0 {
      assert Slotted(s.mem, fd, 0, 1) == {};
      return;
    }
    P.TakesOne(s.mem);
    GetPageInv(s, held, usable);
    var (s1, t) := GetPage(s);
    NewTable(s, held, usable, td, s1, t);
    var q := s1.(mem := s1.mem.(dir := s1.mem.dir[td := t]));
    assert P.Free(q.mem) == P.Free(s1.mem);
    NewSpends(s, held, usable, td, q, t);
    hide Slots, PageTables.Inv, At, CopyEntries, Got;
    assert Spent(s, q, fd, td, 0, 1);
    SameSlotted(s, q, fd, td, 0, 1);
    CopyEntriesSpends(q, held, usable, fd, td, 0);
    SpentTwice(s, q, CopyEntries(q, s.mem.dir[fd], t, 0, ENTRIES).0, fd, td, 0, ENTRIES, 1,
        |Slotted(q.mem, fd, 0, 1)|);
  }

  /** A free page is nobody's table, so clearing it changes no entry. */
  lemma NewSpends(s: Paging, held: multiset<PageNo>, usable: set<nat>, td: nat, q: Paging, t: PageNo)
    requires Swap.Inv(s, held, usable) && SLOT_DIRS <= td < DIRS && t != 0 && P.Free(s.mem) != {}
    requires GetFreePage(s.mem).1 == t && WellFormed(q)
    requires q.mem == GetFreePage(s.mem).0.(dir := s.mem.dir[td := t])
    ensures forall d: nat, j: nat {:trigger At(q.mem, d, j)} :: User(d, j) && d != td ==>
        At(q.mem, d, j) == At(s.mem, d, j)
  {
    GetFreePageInv(s.mem, held);
    forall d: nat, j: nat | User(d, j) && d != td
      ensures At(q.mem, d, j) == At(s.mem, d, j)
    {
      if s.mem.dir[d] != 0 {
        TableUsed(s, held, usable, d);
      }
    }
  }

  lemma {:induction false} CopyTablesSpends(s: Paging, held: multiset<PageNo>, usable: set<nat>, fd: nat, td: nat,
      n: nat)
    requires Swap.Inv(s, held, usable) && SLOT_DIRS <= fd && SLOT_DIRS <= td && fd + n <= DIRS && td + n <= DIRS
    requires (fd + n <= td || td + n <= fd) && InSlot(fd) == InSlot(td)
    requires forall d: nat :: td <= d < td + n ==> s.mem.dir[d] == 0
    requires ForkNeed(s.mem, fd, n) <= |P.Free(s.mem)|
    ensures CopyTables(s, fd, td, n, ENTRIES).1
    decreases n
  {
    hide Slots, PageTables.Inv, At, CopyDir, TablesCopied;
    if n == 0 {
      return;
    }
    NeedSplits(s.mem, fd, n);
    CopyDirSpends(s, held, usable, fd, td);
    CopyDirInv(s, held, usable, fd, td);
    var (q, ok) := CopyDir(s, fd, td, ENTRIES);
    TablesCopiedRest(s, held, usable, fd, td, n, q);
    NeedLater(s, held, usable, q, fd, td, n);
    C.InSlotNext(fd, td);
    CopyTablesSpends(q, held, usable, fd + 1, td + 1, n - 1);
  }

  lemma NeedSplits(m: Mem, d: nat, n: nat)
    requires Shape(m) && d + n <= DIRS && n > 0
    ensures ForkNeed(m, d, n) == ForkNeed(m, d, 1) + ForkNeed(m, d + 1, n - 1)
  {
    hide At;
    P.TablesSplit(m, d, n);
    assert Slotted(m, d, 0, n) == Slotted(m, d, 0, 1) + Slotted(m, d + 1, 0, n - 1);
  }

  /** The later tables need what they needed before. */
  lemma NeedLater(s: Paging, held: multiset<PageNo>, usable: set<nat>, q: Paging, fd: nat, td: nat, n: nat)
    requires WellFormed(s) && n > 0 && SLOT_DIRS <= fd && fd + n <= DIRS && (fd + n <= td || td + n <= fd)
    requires Spent(s, q, fd, td, ENTRIES, ForkNeed(s.mem, fd, 1)) && TablesCopied(s, held, usable, fd, td, 1, q, true)
    ensures ForkNeed(q.mem, fd + 1, n - 1) == ForkNeed(s.mem, fd + 1, n - 1)
    ensures |P.Free(q.mem)| + ForkNeed(s.mem, fd, 1) == |P.Free(s.mem)|
  {
    hide At, Slots, PageTables.Inv, LastsAt;
    assert P.Tables(q.mem, fd + 1, n - 1) == P.Tables(s.mem, fd + 1, n - 1);
    assert Slotted(q.mem, fd + 1, 0, n - 1) == Slotted(s.mem, fd + 1, 0, n - 1);
  }

  /** A fork succeeds when there is a free page for each page table of the parent and for each of its swapped-out
      entries. */
  lemma ForkSucceeds(s: Paging, held: multiset<PageNo>, usable: set<nat>, fd: nat, td: nat, n: nat)
    requires Swap.Inv(s, held, usable) && SLOT_DIRS <= fd && SLOT_DIRS <= td && fd + n <= DIRS && td + n <= DIRS
    requires (fd + n <= td || td + n <= fd) && InSlot(fd) == InSlot(td)
    requires forall d: nat :: td <= d < td + n ==> s.mem.dir[d] == 0
    requires ForkNeed(s.mem, fd, n) <= |P.Free(s.mem)|
    ensures CopyMem(s, fd, td, n).1
  {
    CopyTablesSpends(s, held, usable, fd, td, n);
  }
}

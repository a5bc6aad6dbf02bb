/**
 The copy-on-write operations of 0.11: freeing and sharing page tables, splitting
 a shared page on a write fault, installing a page, sharing a clean one.

 Each operation is a function on the memory value, entry by entry and in the
 order of the loops; the lemma beside it says what it keeps and what it changes.
*/
module CowPaging {
  import opened PageTables

  /** An entry with its write permission taken away. */
  function ReadOnly(e: Entry): Entry {
    if e.Present? then e.(rw := false) else e
  }

  // --------------------------------------------------------- free_page_tables

  function FreeEntries(m: Mem, t: PageNo, i: nat): (r: Mem)
    requires Shape(m) && i <= ENTRIES
    ensures Shape(r)
    decreases |m.table[t]| - i
  {
    if i == ENTRIES then m
    else
      var e := m.table[t][i];
      var m1 := if e.Present? then FreePage(m, e.page) else m;
      FreeEntries(Store(m1, t, i, Absent), t, i + 1)
  }

  /** One directory entry: its table, if any, is emptied, given back and unhooked. */
  function FreeDir(m: Mem, d: nat): (r: Mem)
    requires Shape(m) && d < DIRS
    ensures Shape(r)
  {
    if m.dir[d] == 0 then m else ClearDir(FreeEntries(m, m.dir[d], 0), d)
  }

  function FreeTables(m: Mem, d: nat, n: nat): (r: Mem)
    requires Shape(m) && d + n <= DIRS
    ensures Shape(r)
    decreases n
  {
    if n == 0 then m else FreeTables(FreeDir(m, d), d + 1, n - 1)
  }

  lemma FreeEntryInv(m: Mem, held: multiset<PageNo>, d: nat, i: nat)
    requires Inv(m, held) && User(d, i) && m.dir[d] != 0
    ensures var e := At(m, d, i);
            var m1 := if e.Present? then FreePage(m, e.page) else m;
            var r := Store(m1, m.dir[d], i, Absent);
            && Inv(r, held) && r.dir == m.dir && r.data == m.data && r.high == m.high
            && (forall d': nat, i': nat :: User(d', i') ==>
                  At(r, d', i') == if d' == d && i' == i then Absent else At(m, d', i'))
  {
    var e := At(m, d, i);
    var m1 := if e.Present? then FreePage(m, e.page) else m;
    if e.Present? && LOW_PAGES <= e.page {
      assert (d, i) in Users(m, e.page);
    }
    SameDirApart(m, m1);
    StoreAt(m1, d, i, Absent);
    Replace(m, held, Store(m1, m.dir[d], i, Absent), held, d, i);
  }

  lemma {:induction false} FreeEntriesInv(m: Mem, held: multiset<PageNo>, d: nat, i: nat)
    requires Inv(m, held) && SLOT_DIRS <= d < DIRS && i <= ENTRIES && m.dir[d] != 0
    ensures var r := FreeEntries(m, m.dir[d], i);
            && Inv(r, held) && r.dir == m.dir && r.data == m.data && r.high == m.high
            && (forall d': nat, i': nat :: User(d', i') ==>
                  At(r, d', i') == if d' == d && i <= i' then Absent else At(m, d', i'))
    decreases ENTRIES - i
  {
    if i < ENTRIES {
      FreeEntryInv(m, held, d, i);
      var e := At(m, d, i);
      var m1 := if e.Present? then FreePage(m, e.page) else m;
      FreeEntriesInv(Store(m1, m.dir[d], i, Absent), held, d, i + 1);
    }
  }

  /** The directory entries d..d+n are empty in `r`; nothing else has moved, and every count is right. */
  ghost predicate Emptied(m: Mem, held: multiset<PageNo>, d: nat, n: nat, r: Mem) {
    true == (
      && Shape(m) && Inv(r, held) && r.data == m.data && r.high == m.high
      && (forall d': nat :: SLOT_DIRS <= d' < DIRS ==> r.dir[d'] == if d <= d' < d + n then 0 else m.dir[d'])
      && (forall d': nat, i': nat :: User(d', i') ==>
            At(r, d', i') == if d <= d' < d + n then Absent else At(m, d', i')))
  }

  lemma EmptiedStep(m: Mem, held: multiset<PageNo>, d: nat, n: nat, m1: Mem, r: Mem)
    requires n > 0 && Emptied(m, held, d, 1, m1) && Emptied(m1, held, d + 1, n - 1, r)
    ensures Emptied(m, held, d, n, r)
  {
  }

  lemma EmptiedDir(m: Mem, held: multiset<PageNo>, d: nat, m1: Mem, r: Mem)
    requires Shape(m) && Shape(m1) && SLOT_DIRS <= d < DIRS && Inv(r, held)
    requires m1.dir == m.dir && m1.data == m.data && r.data == m1.data && r.dir == m1.dir[d := 0]
        && r.high == m1.high == m.high
    requires forall d': nat, i': nat :: User(d', i') ==> At(m1, d', i') == if d' == d then Absent else At(m, d', i')
    requires forall d': nat, i': nat :: User(d', i') ==> At(r, d', i') == At(m1, d', i')
    ensures Emptied(m, held, d, 1, r)
  {
  }

  lemma FreeDirInv(m: Mem, held: multiset<PageNo>, d: nat)
    requires Inv(m, held) && SLOT_DIRS <= d < DIRS
    ensures Emptied(m, held, d, 1, FreeDir(m, d))
  {
    if m.dir[d] == 0 {
      return;
    }
    FreeEntriesInv(m, held, d, 0);
    var m1 := FreeEntries(m, m.dir[d], 0);
    ClearDirInv(m1, held, d);
    EmptiedDir(m, held, d, m1, ClearDir(m1, d));
  }

  /** Freeing a run of directory entries empties exactly them and balances every count. */
  lemma {:induction false} FreeTablesInv(m: Mem, held: multiset<PageNo>, d: nat, n: nat)
    requires Inv(m, held) && SLOT_DIRS <= d && d + n <= DIRS
    ensures Emptied(m, held, d, n, FreeTables(m, d, n))
    decreases n
  {
    if n == 0 {
      return;
    }
    FreeDirInv(m, held, d);
    var m1 := FreeDir(m, d);
    FreeTablesInv(m1, held, d + 1, n - 1);
    EmptiedStep(m, held, d, n, m1, FreeTables(m1, d + 1, n - 1));
  }

  // --------------------------------------------------------- copy_page_tables

  /** One present entry of the table `ft` is copied to `tt`; main memory loses write permission on both sides. */
  function CopyEntry(m: Mem, ft: PageNo, tt: PageNo, i: nat): (r: Mem)
    requires Shape(m) && i < ENTRIES && m.table[ft][i].Present?
    ensures Shape(r)
  {
    var e := ReadOnly(m.table[ft][i]);
    var m1 := Store(m, tt, i, e);
    if LOW_PAGES <= e.page then Share(Store(m1, ft, i, e), e.page) else m1
  }

  function CopyEntries(m: Mem, ft: PageNo, tt: PageNo, i: nat, n: nat): (r: Mem)
    requires Shape(m) && i <= n <= ENTRIES
    ensures Shape(r)
    decreases n - i
  {
    if i == n then m
    else if m.table[ft][i].Present? then CopyEntries(CopyEntry(m, ft, tt, i), ft, tt, i + 1, n)
    else CopyEntries(m, ft, tt, i + 1, n)
  }

  /** One directory entry; `span` is 0xA0 when the whole copy starts at address 0, and 1024 otherwise. */
  function CopyDir(m: Mem, fd: nat, td: nat, span: nat): (r: (Mem, bool))
    requires Shape(m) && fd < DIRS && td < DIRS && span <= ENTRIES
    ensures Shape(r.0)
  {
    if m.dir[td] != 0 then (m.(panic := true), false)
    else if m.dir[fd] == 0 then (m, true)
    else
      var (m1, t) := GetFreePage(m);
      if t == 0 then (m, false)
      else (CopyEntries(m1.(dir := m1.dir[td := t]), m.dir[fd], t, 0, span), true)
  }

  function CopyTables(m: Mem, fd: nat, td: nat, n: nat, span: nat): (r: (Mem, bool))
    requires Shape(m) && fd + n <= DIRS && td + n <= DIRS && span <= ENTRIES
    ensures Shape(r.0)
    decreases n
  {
    if n == 0 then (m, true)
    else
      var (m1, ok) := CopyDir(m, fd, td, span);
      if ok then CopyTables(m1, fd + 1, td + 1, n - 1, span) else (m1, false)
  }

  /** Taking write permission away keeps everything. */
  lemma ProtectInv(m: Mem, held: multiset<PageNo>, d: nat, i: nat)
    requires Inv(m, held) && User(d, i) && m.dir[d] != 0 && At(m, d, i).Present?
    ensures var r := Store(m, m.dir[d], i, ReadOnly(At(m, d, i)));
            && Inv(r, held)
            && (forall d': nat, i': nat :: User(d', i') ==>
                  At(r, d', i') == if d' == d && i' == i then ReadOnly(At(m, d, i)) else At(m, d', i'))
  {
    StoreAt(m, d, i, ReadOnly(At(m, d, i)));
    UsersAligned(m, held, d, i);
    Replace(m, held, Store(m, m.dir[d], i, ReadOnly(At(m, d, i))), held, d, i);
  }

  /** A second, read-only entry at the same offset: the count of a main-memory page goes up by one. */
  lemma ShareInv(m: Mem, held: multiset<PageNo>, fd: nat, td: nat, i: nat)
    requires Inv(m, held) && User(fd, i) && User(td, i) && fd != td && InSlot(fd) == InSlot(td)
    requires At(m, fd, i).Present? && !At(m, fd, i).rw && m.dir[td] != 0 && At(m, td, i) == Absent
    ensures var e := At(m, fd, i);
            var p := Store(m, m.dir[td], i, e);
            var r := if LOW_PAGES <= e.page then Share(p, e.page) else p;
            && Inv(r, held)
            && (forall d': nat, i': nat :: User(d', i') ==>
                  At(r, d', i') == if d' == td && i' == i then e else At(m, d', i'))
  {
    var e := At(m, fd, i);
    var p := Store(m, m.dir[td], i, e);
    var r := if LOW_PAGES <= e.page then Share(p, e.page) else p;
    StoreAt(m, td, i, e);
    UsersAligned(m, held, fd, i);
    if LOW_PAGES <= e.page {
      CountBounded(m, held, e.page);
    }
    Replace(m, held, r, held, td, i);
  }

  lemma CopyEntryInv(m: Mem, held: multiset<PageNo>, fd: nat, td: nat, i: nat)
    requires Inv(m, held) && User(fd, i) && User(td, i) && fd != td && InSlot(fd) == InSlot(td)
    requires m.dir[fd] != 0 && m.dir[td] != 0 && At(m, fd, i).Present? && At(m, td, i) == Absent
    ensures var r := CopyEntry(m, m.dir[fd], m.dir[td], i);
            && Inv(r, held) && r.dir == m.dir && r.data == m.data && r.high == m.high
            && (forall d': nat, i': nat :: User(d', i') ==>
                  At(r, d', i') == if (d' == fd || d' == td) && i' == i then ReadOnly(At(m, fd, i)) else At(m, d', i'))
  {
    var e := ReadOnly(At(m, fd, i));
    var ft, tt := m.dir[fd], m.dir[td];
    var p := Store(m, ft, i, e);
    ProtectInv(m, held, fd, i);
    ShareInv(p, held, fd, td, i);
    assert ft != tt;
    if LOW_PAGES <= e.page {
      assert Store(Store(m, tt, i, e), ft, i, e).table == Store(p, tt, i, e).table;
    } else {
      assert p.table[ft] == m.table[ft];
      assert p.table == m.table;
    }
  }

  lemma {:induction false} CopyEntriesInv(m: Mem, held: multiset<PageNo>, fd: nat, td: nat, i: nat, n: nat)
    requires Inv(m, held) && SLOT_DIRS <= fd < DIRS && SLOT_DIRS <= td < DIRS && i <= n <= ENTRIES
    requires fd != td && InSlot(fd) == InSlot(td) && m.dir[fd] != 0 && m.dir[td] != 0
    requires forall j: nat :: i <= j < n ==> At(m, td, j) == Absent
    ensures var r := CopyEntries(m, m.dir[fd], m.dir[td], i, n);
            && Inv(r, held) && r.dir == m.dir && r.data == m.data && r.high == m.high
            && (forall d': nat, i': nat :: User(d', i') ==>
                  At(r, d', i') == if (d' == fd || d' == td) && i <= i' < n && At(m, fd, i').Present?
                                   then ReadOnly(At(m, fd, i')) else At(m, d', i'))
    decreases n - i
  {
    if i == n {
    } else if At(m, fd, i).Present? {
      CopyEntryInv(m, held, fd, td, i);
      CopyEntriesInv(CopyEntry(m, m.dir[fd], m.dir[td], i), held, fd, td, i + 1, n);
    } else {
      CopyEntriesInv(m, held, fd, td, i + 1, n);
    }
  }

  predicate Weaker(e: Entry, was: Entry) {
    e == was || e == ReadOnly(was)
  }

  /** Outside the directory entries lo..hi nothing has moved: at most write permissions are gone. */
  ghost predicate Undisturbed(m: Mem, r: Mem, lo: nat, hi: nat)
    requires Shape(m) && Shape(r)
  {
    && r.high == m.high
    && (forall d: nat :: SLOT_DIRS <= d < DIRS && !(lo <= d < hi) ==> r.dir[d] == m.dir[d])
    && (forall d: nat, i: nat :: User(d, i) && !(lo <= d < hi) ==>
          Weaker(At(r, d, i), At(m, d, i)) && Look(r, d, i) == Look(m, d, i))
  }

  /** The directory entries td..td+n of `r` are a read-only copy of what fd..fd+n were in `m`. */
  ghost predicate CopyOf(m: Mem, fd: nat, r: Mem, td: nat, n: nat)
    requires Shape(m) && Shape(r) && fd + n <= DIRS && td + n <= DIRS
  {
    forall d: nat, i: nat :: td <= d < td + n && i < ENTRIES ==>
      && At(r, d, i) == (if At(m, fd + (d - td), i).Present? then ReadOnly(At(m, fd + (d - td), i)) else Absent)
      && Look(r, d, i) == Look(m, fd + (d - td), i)
  }

  /** What a run of copied directory entries guarantees: the copy reads as the original did and
      all else reads as before; a run that stops early found no free page. */
  ghost predicate Copied(m: Mem, held: multiset<PageNo>, fd: nat, td: nat, n: nat, r: Mem, ok: bool) {
    true == (
      && Shape(m) && Inv(r, held) && fd + n <= DIRS && td + n <= DIRS
      && Undisturbed(m, r, td, td + n)
      && (if ok then CopyOf(m, fd, r, td, n) else forall k :: 0 <= k < PAGING_PAGES ==> r.count[k] != 0))
  }

  lemma CopyDirInv(m: Mem, held: multiset<PageNo>, fd: nat, td: nat)
    requires Inv(m, held) && SLOT_DIRS <= fd < DIRS && SLOT_DIRS <= td < DIRS
    requires fd != td && InSlot(fd) == InSlot(td) && m.dir[td] == 0
    ensures var (r, ok) := CopyDir(m, fd, td, ENTRIES);
            Copied(m, held, fd, td, 1, r, ok)
  {
    if m.dir[fd] == 0 {
      return;
    }
    GetFreePageInv(m, held);
    var (m1, t) := GetFreePage(m);
    if t == 0 {
      return;
    }
    SetDirInv(m1, held, td, t);
    var m2 := m1.(dir := m1.dir[td := t]);
    forall d: nat, i: nat | User(d, i)
      ensures At(m2, d, i) == At(m, d, i) && Look(m2, d, i) == Look(m, d, i)
    {
      assert At(m1, d, i) == At(m, d, i);
    }
    CopyEntriesInv(m2, held, fd, td, 0, ENTRIES);
    CopiedDir(m, held, fd, td, m2, CopyEntries(m2, m2.dir[fd], m2.dir[td], 0, ENTRIES));
  }

  lemma CopiedDir(m: Mem, held: multiset<PageNo>, fd: nat, td: nat, m2: Mem, r: Mem)
    requires Shape(m) && Shape(m2) && Inv(r, held) && SLOT_DIRS <= fd < DIRS && SLOT_DIRS <= td < DIRS && fd != td
    requires r.dir == m2.dir && r.data == m2.data && r.high == m2.high == m.high && m.dir[td] == 0
    requires forall d: nat :: d < DIRS && d != td ==> m2.dir[d] == m.dir[d]
    requires forall d: nat, i: nat :: User(d, i) ==> At(m2, d, i) == At(m, d, i) && Look(m2, d, i) == Look(m, d, i)
    requires forall d: nat, i: nat :: User(d, i) ==>
      At(r, d, i) == if (d == fd || d == td) && At(m2, fd, i).Present? then ReadOnly(At(m2, fd, i)) else At(m2, d, i)
    ensures Copied(m, held, fd, td, 1, r, true)
  {
    forall d: nat, i: nat | User(d, i)
      ensures d != td ==> Weaker(At(r, d, i), At(m, d, i)) && Look(r, d, i) == Look(m, d, i)
      ensures d == td ==> At(r, d, i) == (if At(m, fd, i).Present? then ReadOnly(At(m, fd, i)) else Absent)
      ensures d == td ==> Look(r, d, i) == Look(m, fd, i)
    {
      assert At(m2, d, i) == At(m, d, i) && At(m2, fd, i) == At(m, fd, i);
      assert Look(m2, d, i) == Look(m, d, i) && Look(m2, fd, i) == Look(m, fd, i);
    }
  }

  lemma UndisturbedStep(m: Mem, m1: Mem, r: Mem, td: nat, n: nat)
    requires Shape(m) && Shape(m1) && Shape(r) && n > 0
    requires Undisturbed(m, m1, td, td + 1) && Undisturbed(m1, r, td + 1, td + n)
    ensures Undisturbed(m, r, td, td + n)
  {
    forall d: nat, i: nat | User(d, i) && !(td <= d < td + n)
      ensures Weaker(At(r, d, i), At(m, d, i)) && Look(r, d, i) == Look(m, d, i)
    {
      assert Weaker(At(m1, d, i), At(m, d, i));
    }
  }

  lemma CopyOfStep(m: Mem, m1: Mem, r: Mem, fd: nat, td: nat, n: nat)
    requires Shape(m) && Shape(m1) && Shape(r) && n > 0 && SLOT_DIRS <= fd && SLOT_DIRS <= td
    requires fd + n <= DIRS && td + n <= DIRS && (fd + n <= td || td + n <= fd)
    requires Undisturbed(m, m1, td, td + 1) && Undisturbed(m1, r, td + 1, td + n)
    requires CopyOf(m, fd, m1, td, 1) && CopyOf(m1, fd + 1, r, td + 1, n - 1)
    ensures CopyOf(m, fd, r, td, n)
  {
    forall d: nat, i: nat | td <= d < td + n && i < ENTRIES
      ensures At(r, d, i) == (if At(m, fd + (d - td), i).Present? then ReadOnly(At(m, fd + (d - td), i)) else Absent)
      ensures Look(r, d, i) == Look(m, fd + (d - td), i)
    {
      assert User(fd + (d - td), i) && User(d, i);
      if d == td {
        assert Weaker(At(r, d, i), At(m1, d, i));
      } else {
        assert fd + 1 + (d - (td + 1)) == fd + (d - td);
        assert Weaker(At(m1, fd + (d - td), i), At(m, fd + (d - td), i));
      }
    }
  }

  lemma CopiedStep(m: Mem, held: multiset<PageNo>, fd: nat, td: nat, n: nat, m1: Mem, r: Mem, ok: bool)
    requires n > 0 && SLOT_DIRS <= fd && SLOT_DIRS <= td && (fd + n <= td || td + n <= fd)
    requires Copied(m, held, fd, td, 1, m1, true) && Copied(m1, held, fd + 1, td + 1, n - 1, r, ok)
    ensures Copied(m, held, fd, td, n, r, ok)
  {
    UndisturbedStep(m, m1, r, td, n);
    if ok {
      CopyOfStep(m, m1, r, fd, td, n);
    }
  }

  lemma InSlotNext(a: nat, b: nat)
    requires InSlot(a) == InSlot(b)
    ensures InSlot(a + 1) == InSlot(b + 1)
  {
  }

  lemma {:induction false} CopyTablesInv(m: Mem, held: multiset<PageNo>, fd: nat, td: nat, n: nat)
    requires Inv(m, held) && SLOT_DIRS <= fd && SLOT_DIRS <= td && fd + n <= DIRS && td + n <= DIRS
    requires (fd + n <= td || td + n <= fd) && InSlot(fd) == InSlot(td)
    requires forall d: nat :: td <= d < td + n ==> m.dir[d] == 0
    ensures var (r, ok) := CopyTables(m, fd, td, n, ENTRIES);
            Copied(m, held, fd, td, n, r, ok)
    decreases n
  {
    if n == 0 {
      return;
    }
    CopyDirInv(m, held, fd, td);
    var (m1, ok1) := CopyDir(m, fd, td, ENTRIES);
    if !ok1 {
      return;
    }
    InSlotNext(fd, td);
    CopyTablesInv(m1, held, fd + 1, td + 1, n - 1);
    var (r, ok) := CopyTables(m1, fd + 1, td + 1, n - 1, ENTRIES);
    CopiedStep(m, held, fd, td, n, m1, r, ok);
  }

  // ---------------------------------------------------------- copy_mem (fork)

  /** Forks an address space of `n` directory entries; when memory runs out the partial copy is freed. */
  function CopyMem(m: Mem, fd: nat, td: nat, n: nat): (r: (Mem, bool))
    requires Shape(m) && fd + n <= DIRS && td + n <= DIRS
    ensures Shape(r.0)
  {
    var (m1, ok) := CopyTables(m, fd, td, n, if fd == 0 then 0xA0 else ENTRIES);
    if ok then (m1, true) else (FreeTables(m1, td, n), false)
  }

  /** Two memories whose user entries name the same pages have the same counts. */
  lemma SamePagesSameCounts(m: Mem, r: Mem, held: multiset<PageNo>)
    requires Inv(m, held) && Inv(r, held)
    requires forall d: nat :: SLOT_DIRS <= d < DIRS ==> r.dir[d] == m.dir[d]
    requires forall d: nat, i: nat :: User(d, i) ==> Weaker(At(r, d, i), At(m, d, i))
    ensures r.count == m.count
  {
    forall k: nat | k < PAGING_PAGES
      ensures r.count[k] == m.count[k]
    {
      var pn: PageNo := LOW_PAGES + k;
      assert Users(r, pn) == Users(m, pn);
      assert IsTable(r, pn) == IsTable(m, pn);
    }
  }

  /** A fork that fails restores every count and every directory entry exactly; one that
      succeeds gives the child what the parent reads. Nobody else notices either. */
  lemma CopyMemInv(m: Mem, held: multiset<PageNo>, fd: nat, td: nat, n: nat)
    requires Inv(m, held) && SLOT_DIRS <= fd && SLOT_DIRS <= td && fd + n <= DIRS && td + n <= DIRS
    requires (fd + n <= td || td + n <= fd) && InSlot(fd) == InSlot(td)
    requires forall d: nat :: td <= d < td + n ==> m.dir[d] == 0
    ensures var (r, ok) := CopyMem(m, fd, td, n);
            && Inv(r, held) && Undisturbed(m, r, td, td + n)
            && (ok ==> CopyOf(m, fd, r, td, n))
            && (!ok ==> r.count == m.count && forall d: nat :: td <= d < td + n ==> r.dir[d] == 0)
  {
    CopyTablesInv(m, held, fd, td, n);
    var (m1, ok) := CopyTables(m, fd, td, n, ENTRIES);
    if ok {
      return;
    }
    FreeTablesInv(m1, held, td, n);
    var r := FreeTables(m1, td, n);
    forall d: nat, i: nat | User(d, i)
      ensures Weaker(At(r, d, i), At(m, d, i))
      ensures !(td <= d < td + n) ==> Look(r, d, i) == Look(m, d, i)
    {
      assert !(td <= d < td + n) ==> Weaker(At(m1, d, i), At(m, d, i));
    }
    forall d: nat | SLOT_DIRS <= d < DIRS
      ensures r.dir[d] == m.dir[d]
    {
      assert !(td <= d < td + n) ==> m1.dir[d] == m.dir[d];
    }
    SamePagesSameCounts(m, r, held);
  }

  // --------------------------------------------------- write faults and writes

  /** un_wp_page on entry `i` of the table in page `t`: a private page becomes writable again,
      a shared one is replaced by a copy. */
  function UnWp(m: Mem, t: PageNo, i: nat): (r: (Mem, bool))
    requires Shape(m) && i < ENTRIES && m.table[t][i].Present?
    ensures Shape(r.0)
  {
    var orig := m.table[t][i].page;
    if LOW_PAGES <= orig && m.count[orig - LOW_PAGES] == 1 then
      (Store(m, t, i, m.table[t][i].(rw := true)), true)
    else
      var (m1, copy) := GetFreePage(m);
      if copy == 0 then (m, false)
      else
        var m2 := if LOW_PAGES <= orig
                  then m1.(count := m1.count[orig - LOW_PAGES := (m1.count[orig - LOW_PAGES] + 255) % 256]) else m1;
        var m3 := Store(m2, t, i, Present(copy, true, false));
        (m3.(data := m3.data[copy := m3.data[orig]]), true)
  }

  /** Everything but the entry at (d, i) is untouched, and everybody reads what they read before. */
  ghost predicate OnlyEntry(m: Mem, r: Mem, d: nat, i: nat)
    requires Shape(m) && Shape(r)
  {
    && r.dir == m.dir && r.high == m.high
    && (forall d': nat, i': nat :: User(d', i') && !(d' == d && i' == i) ==>
          At(r, d', i') == At(m, d', i') && Look(r, d', i') == Look(m, d', i'))
  }

  lemma UnWpPrivate(m: Mem, held: multiset<PageNo>, d: nat, i: nat)
    requires Inv(m, held) && User(d, i) && At(m, d, i).Present?
    requires LOW_PAGES <= At(m, d, i).page && m.count[At(m, d, i).page - LOW_PAGES] == 1
    ensures var r := Store(m, m.dir[d], i, At(m, d, i).(rw := true));
            Inv(r, held) && OnlyEntry(m, r, d, i) && At(r, d, i) == At(m, d, i).(rw := true)
  {
    var e := At(m, d, i).(rw := true);
    StoreAt(m, d, i, e);
    UsersAligned(m, held, d, i);
    WritableUnique(m, held, d, i);
    assert forall d': nat, i': nat :: User(d', i') && At(m, d', i').Names(e.page) ==> (d', i') in Users(m, e.page);
    Replace(m, held, Store(m, m.dir[d], i, e), held, d, i);
  }

  lemma UnWpShared(m: Mem, held: multiset<PageNo>, d: nat, i: nat)
    requires Inv(m, held) && User(d, i) && At(m, d, i).Present?
    requires LOW_PAGES <= At(m, d, i).page ==> m.count[At(m, d, i).page - LOW_PAGES] != 1
    requires GetFreePage(m).1 != 0
    ensures var (r, ok) := UnWp(m, m.dir[d], i);
            ok && Inv(r, held) && OnlyEntry(m, r, d, i) && Look(r, d, i) == Look(m, d, i)
            && At(r, d, i) == Present(GetFreePage(m).1, true, false)
  {
    var orig, t := At(m, d, i).page, m.dir[d];
    GetFreePageInv(m, held);
    var (m1, copy) := GetFreePage(m);
    assert At(m1, d, i) == At(m, d, i);
    assert (d, i) in Users(m1, orig);
    assert copy != orig by {
      assert (d, i) !in Users(m, copy);
    }
    var h := held + multiset{copy};
    assert h[copy] == 1 && forall p: PageNo :: p != copy ==> h[p] == held[p];
    if LOW_PAGES <= orig {
      CountBounded(m1, h, orig);
    }
    var (r, ok) := UnWp(m, t, i);
    SameDirApart(m, m1);
    StoreAt(m1, d, i, Present(copy, true, false));
    assert r.table == Store(m1, t, i, Present(copy, true, false)).table;
    forall d': nat, i': nat | User(d', i')
      ensures !At(m1, d', i').Names(copy)
    {
      assert (d', i') !in Users(m, copy);
    }
    assert Users(m1, copy) == {};
    assert OneEntry(m1, r, d, i);
    Replace(m1, h, r, held, d, i);
  }

  /** A write fault never changes what anyone reads; it fails only when it must copy and no page is free. */
  lemma UnWpInv(m: Mem, held: multiset<PageNo>, d: nat, i: nat)
    requires Inv(m, held) && User(d, i) && At(m, d, i).Present?
    ensures var (r, ok) := UnWp(m, m.dir[d], i);
            if ok then
              && Inv(r, held) && OnlyEntry(m, r, d, i) && Look(r, d, i) == Look(m, d, i)
              && At(r, d, i).Present? && At(r, d, i).rw
            else
              && r == m && forall k :: 0 <= k < PAGING_PAGES ==> m.count[k] != 0
  {
    var pn := At(m, d, i).page;
    if LOW_PAGES <= pn && m.count[pn - LOW_PAGES] == 1 {
      UnWpPrivate(m, held, d, i);
      return;
    }
    GetFreePageInv(m, held);
    if GetFreePage(m).1 != 0 {
      UnWpShared(m, held, d, i);
    }
  }

  /** The processor's part of a write through a writable entry: the byte, and the dirty bit. */
  function Poke(m: Mem, t: PageNo, i: nat, k: nat, v: Byte): (r: Mem)
    requires Shape(m) && i < ENTRIES && k < PAGE_SIZE && m.table[t][i].Present?
    ensures Shape(r)
  {
    var pn := m.table[t][i].page;
    Store(m.(data := m.data[pn := m.data[pn][k := v]]), t, i, m.table[t][i].(dirty := true))
  }

  /** A user write to a present page: the fault if write permission is missing, then the store. */
  function UserWrite(m: Mem, t: PageNo, i: nat, k: nat, v: Byte): (r: (Mem, bool))
    requires Shape(m) && i < ENTRIES && k < PAGE_SIZE && m.table[t][i].Present?
    ensures Shape(r.0)
  {
    if m.table[t][i].rw then (Poke(m, t, i, k, v), true)
    else
      var (m1, ok) := UnWp(m, t, i);
      if ok then (Poke(m1, t, i, k, v), true) else (m, false)
  }

  lemma PokeInv(m: Mem, held: multiset<PageNo>, d: nat, i: nat, k: nat, v: Byte)
    requires Inv(m, held) && User(d, i) && k < PAGE_SIZE && At(m, d, i).Present? && At(m, d, i).rw
    ensures var r := Poke(m, m.dir[d], i, k, v);
            && Inv(r, held) && OnlyEntry(m, r, d, i)
            && Look(r, d, i) == Some(Look(m, d, i).value[k := v])
            && At(r, d, i) == At(m, d, i).(dirty := true)
  {
    var e := At(m, d, i).(dirty := true);
    var m1 := m.(data := m.data[e.page := m.data[e.page][k := v]]);
    var r := Poke(m, m.dir[d], i, k, v);
    StoreAt(m, d, i, e);
    UsersAligned(m, held, d, i);
    WritableUnique(m, held, d, i);
    assert r.table == Store(m, m.dir[d], i, e).table;
    Replace(m, held, r, held, d, i);
  }

  /** A write changes the byte written, in the view of the task that wrote it, and nothing else anywhere. */
  lemma UserWriteInv(m: Mem, held: multiset<PageNo>, d: nat, i: nat, k: nat, v: Byte)
    requires Inv(m, held) && User(d, i) && k < PAGE_SIZE && At(m, d, i).Present?
    ensures var (r, ok) := UserWrite(m, m.dir[d], i, k, v);
            if ok then
              && Inv(r, held) && OnlyEntry(m, r, d, i)
              && Look(r, d, i) == Some(Look(m, d, i).value[k := v])
              && At(r, d, i).Present? && At(r, d, i).dirty
            else r == m
  {
    if At(m, d, i).rw {
      PokeInv(m, held, d, i, k, v);
      return;
    }
    UnWpInv(m, held, d, i);
    var (m1, ok) := UnWp(m, m.dir[d], i);
    if ok {
      PokeInv(m1, held, d, i, k, v);
    }
  }

  // ------------------------------------------------------ pages into addresses

  /** The page table for a directory entry, taken from free memory if it is missing. */
  function EnsureTable(m: Mem, d: nat): (r: (Mem, bool))
    requires Shape(m) && d < DIRS
    ensures Shape(r.0)
  {
    if m.dir[d] != 0 then (m, true)
    else
      var (m1, t) := GetFreePage(m);
      if t == 0 then (m, false) else (m1.(dir := m1.dir[d := t]), true)
  }

  /** Nobody's entries or bytes change, and pages in use keep their bytes. */
  ghost predicate SameViews(m: Mem, r: Mem)
    requires Shape(m) && Shape(r)
  {
    && (forall d: nat, i: nat :: User(d, i) ==> At(r, d, i) == At(m, d, i) && Look(r, d, i) == Look(m, d, i))
    && (forall p: PageNo :: LOW_PAGES <= p && m.count[p - LOW_PAGES] != 0 ==> r.data[p] == m.data[p])
  }

  lemma EnsureTableInv(m: Mem, held: multiset<PageNo>, d: nat)
    requires Inv(m, held) && SLOT_DIRS <= d < DIRS
    ensures var (r, ok) := EnsureTable(m, d);
            if ok then
              && Inv(r, held) && SameViews(m, r) && r.dir[d] != 0 && r.high == m.high
              && forall d': nat :: d' < DIRS && d' != d ==> r.dir[d'] == m.dir[d']
            else r == m
  {
    if m.dir[d] != 0 {
      return;
    }
    GetFreePageInv(m, held);
    var (m1, t) := GetFreePage(m);
    if t == 0 {
      return;
    }
    SetDirInv(m1, held, d, t);
    var r := m1.(dir := m1.dir[d := t]);
    forall d': nat, i': nat | User(d', i')
      ensures At(r, d', i') == At(m, d', i') && Look(r, d', i') == Look(m, d', i')
    {
      assert At(m1, d', i') == At(m, d', i') && Look(m1, d', i') == Look(m, d', i');
    }
  }

  /** put_page: the page `pn` becomes readable and writable at (d, i). */
  function PutPage(m: Mem, pn: PageNo, d: nat, i: nat): (r: (Mem, bool))
    requires Shape(m) && d < DIRS && i < ENTRIES
    ensures Shape(r.0)
  {
    var (m1, ok) := EnsureTable(m, d);
    if ok then (Store(m1, m1.dir[d], i, Present(pn, true, false)), true) else (m, false)
  }

  lemma PutPageInv(m: Mem, held: multiset<PageNo>, pn: PageNo, d: nat, i: nat)
    requires Inv(m, held + multiset{pn}) && held[pn] == 0 && LOW_PAGES <= pn < m.high
    requires User(d, i) && At(m, d, i) == Absent
    ensures var (r, ok) := PutPage(m, pn, d, i);
            if ok then
              && Inv(r, held) && At(r, d, i) == Present(pn, true, false) && r.data[pn] == m.data[pn]
              && (forall d': nat :: d' < DIRS && d' != d ==> r.dir[d'] == m.dir[d'])
              && (forall d': nat, i': nat :: User(d', i') && !(d' == d && i' == i) ==>
                    At(r, d', i') == At(m, d', i') && Look(r, d', i') == Look(m, d', i'))
            else r == m
  {
    var h := held + multiset{pn};
    assert h[pn] == 1 && forall p: PageNo :: p != pn ==> h[p] == held[p];
    EnsureTableInv(m, h, d);
    var (m1, ok) := EnsureTable(m, d);
    if !ok {
      return;
    }
    var e := Present(pn, true, false);
    var r := Store(m1, m1.dir[d], i, e);
    assert At(m1, d, i) == Absent;
    StoreAt(m1, d, i, e);
    forall d': nat, i': nat | User(d', i')
      ensures !At(m1, d', i').Names(pn)
    {
    }
    assert Users(m1, pn) == {} && !IsTable(m1, pn);
    assert |Users(m, pn)| >= 0;
    assert OneEntry(m1, r, d, i);
    assert Settled(m1, h, r, held, d, i) by {
      assert forall p: PageNo :: m.high <= p && LOW_PAGES <= p ==> h[p] > 0;
    }
    Replace(m1, h, r, held, d, i);
  }

  datatype Sharing = Shared | NotShared | OutOfMemory

  /** try_to_share: the page at offset (off, i) of slot `ps`, if present and clean, also goes to slot `cs`. */
  function TryShare(m: Mem, off: nat, i: nat, ps: nat, cs: nat): (r: (Mem, Sharing))
    requires Shape(m) && off < SLOT_DIRS && i < ENTRIES && ps < NR_TASKS && cs < NR_TASKS
    ensures Shape(r.0)
  {
    var fd, td := DirAt(ps, off), DirAt(cs, off);
    if m.dir[fd] == 0 then (m, NotShared)
    else
      var e := m.table[m.dir[fd]][i];
      if !(e.Present? && !e.dirty) then (m, NotShared)
      else if e.page >= m.high || e.page < LOW_PAGES then (m, NotShared)
      else
        var (m1, ok) := EnsureTable(m, td);
        if !ok then (m, OutOfMemory)
        else if m1.table[m1.dir[td]][i].Present? then (m1.(panic := true), NotShared)
        else
          var m2 := Store(m1, m1.dir[fd], i, ReadOnly(m1.table[m1.dir[fd]][i]));
          (Share(Store(m2, m2.dir[td], i, m2.table[m2.dir[fd]][i]), e.page), Shared)
  }

  /** The sharing itself, once the table is there. */
  lemma ShareCleanInv(m: Mem, held: multiset<PageNo>, fd: nat, td: nat, i: nat)
    requires Inv(m, held) && User(fd, i) && User(td, i) && fd != td && InSlot(fd) == InSlot(td)
    requires At(m, fd, i).Present? && LOW_PAGES <= At(m, fd, i).page && m.dir[td] != 0 && At(m, td, i) == Absent
    ensures var m2 := Store(m, m.dir[fd], i, ReadOnly(At(m, fd, i)));
            var r := Share(Store(m2, m2.dir[td], i, m2.table[m2.dir[fd]][i]), At(m, fd, i).page);
            && Inv(r, held) && r.dir == m.dir && r.data == m.data && r.high == m.high
            && (forall d: nat, j: nat :: User(d, j) ==>
                  At(r, d, j) == if (d == fd || d == td) && j == i then ReadOnly(At(m, fd, i)) else At(m, d, j))
  {
    ProtectInv(m, held, fd, i);
    ShareInv(Store(m, m.dir[fd], i, ReadOnly(At(m, fd, i))), held, fd, td, i);
  }

  lemma SlotOffsets(ps: nat, cs: nat, off: nat, i: nat)
    requires off < SLOT_DIRS && i < ENTRIES && 1 <= ps < NR_TASKS && 1 <= cs < NR_TASKS && ps != cs
    ensures User(DirAt(ps, off), i) && User(DirAt(cs, off), i)
    ensures DirAt(ps, off) != DirAt(cs, off) && InSlot(DirAt(ps, off)) == InSlot(DirAt(cs, off))
  {
  }

  /** Sharing succeeds exactly when the other task has a clean main-memory page there and a table can be had;
      the page then reads the same at both addresses and nobody else notices. */
  lemma TryShareInv(m: Mem, held: multiset<PageNo>, off: nat, i: nat, ps: nat, cs: nat)
    requires Inv(m, held) && off < SLOT_DIRS && i < ENTRIES && 1 <= ps < NR_TASKS && 1 <= cs < NR_TASKS && ps != cs
    requires At(m, DirAt(cs, off), i) == Absent
    ensures var (r, res) := TryShare(m, off, i, ps, cs);
            var fd, td := DirAt(ps, off), DirAt(cs, off);
            var e := At(m, fd, i);
            && Inv(r, held)
            && (res == NotShared <==> !(e.Present? && !e.dirty && LOW_PAGES <= e.page))
            && (res != Shared ==> r == m)
            && (res == Shared ==>
                  && At(r, td, i) == ReadOnly(e) && Look(r, td, i) == Look(m, fd, i)
                  && (forall d: nat :: d < DIRS && d != td ==> r.dir[d] == m.dir[d])
                  && (forall d: nat, j: nat :: User(d, j) && !(d == td && j == i) ==>
                        Weaker(At(r, d, j), At(m, d, j)) && Look(r, d, j) == Look(m, d, j)))
  {
    var fd, td := DirAt(ps, off), DirAt(cs, off);
    var e := At(m, fd, i);
    SlotOffsets(ps, cs, off, i);
    if !(e.Present? && !e.dirty && LOW_PAGES <= e.page) {
      return;
    }
    assert (fd, i) in Users(m, e.page);
    assert e.page < m.high;
    EnsureTableInv(m, held, td);
    var (m1, ok) := EnsureTable(m, td);
    if !ok {
      return;
    }
    assert At(m1, fd, i) == e && At(m1, td, i) == Absent;
    ShareCleanInv(m1, held, fd, td, i);
    var r := TryShare(m, off, i, ps, cs).0;
    forall d: nat, j: nat | User(d, j) && !(d == td && j == i)
      ensures Weaker(At(r, d, j), At(m, d, j)) && Look(r, d, j) == Look(m, d, j)
    {
      assert At(m1, d, j) == At(m, d, j) && Look(m1, d, j) == Look(m, d, j);
    }
  }
}

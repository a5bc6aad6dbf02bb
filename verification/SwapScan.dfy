/**
 What swap_out finds: it fails if and only if there is nothing to swap out but in the part of the scan it passes
 over, the beginning of the first table it comes to after skipping absent ones.
*/
module SwapScan {
  import opened PageTables
  import opened Swap

  /** The entry can be swapped out: a clean main-memory page, or a dirty one that is not shared while a slot is free. */
  ghost predicate Swappable(s: Paging, d: nat, i: nat)
    requires WellFormed(s) && User(d, i)
  {
    var e := At(s.mem, d, i);
    && e.Present? && LOW_PAGES <= e.page
    && (e.dirty ==> s.mem.count[e.page - LOW_PAGES] == 1 && s.on && exists n :: 1 <= n < SWAP_BITS && s.bits[n])
  }

  lemma TryExact(s: Paging, d: nat, i: nat)
    requires WellFormed(s) && User(d, i) && s.mem.dir[d] != 0
    ensures TryToSwapOut(s, s.mem.dir[d], i).1 <==> Swappable(s, d, i)
  {
  }

  // ----------------------------------------------------- the order of the scan

  const DIRS_USED: nat := 1008     // directory entries that are scanned

  /** The place of an entry in the order of the scan. */
  function Place(d: nat, p: int): int {
    1024 * (d - FIRST_DIR) + p
  }

  /** The entry at a place, the order being cyclic. */
  function DirOf(x: nat): (d: nat)
    ensures FIRST_DIR <= d < DIRS
  {
    FIRST_DIR + (x / 1024) % DIRS_USED
  }

  function IndexOf(x: nat): (i: nat)
    ensures i < ENTRIES
  {
    x % 1024
  }

  /** Table number q begins at place 1024 * q. */
  lemma Split(x: nat, q: nat, i: nat)
    requires i < 1024 && x == 1024 * q + i
    ensures x / 1024 == q && x % 1024 == i
  {
  }

  lemma PlaceOf(d: nat, i: nat)
    requires FIRST_DIR <= d < DIRS && i < ENTRIES
    ensures 0 <= Place(d, i) < VM_PAGES && DirOf(Place(d, i)) == d && IndexOf(Place(d, i)) == i
  {
    Split(Place(d, i), d - FIRST_DIR, i);
  }

  lemma PlaceMod(x: nat)
    ensures Place(DirOf(x), IndexOf(x)) == x % VM_PAGES
  {
    var q := x / 1024;
    assert q % DIRS_USED == q - DIRS_USED * (q / DIRS_USED);
    assert x == 1024 * q + x % 1024;
    assert x == VM_PAGES * (q / DIRS_USED) + (1024 * (q % DIRS_USED) + x % 1024);
  }

  lemma NextTurn(q: nat)
    ensures (q + 1) % DIRS_USED == if q % DIRS_USED + 1 == DIRS_USED then 0 else q % DIRS_USED + 1
  {
    var k, r := q / DIRS_USED, q % DIRS_USED;
    assert q + 1 == DIRS_USED * k + (r + 1);
    assert r + 1 == DIRS_USED ==> q + 1 == DIRS_USED * (k + 1);
  }

  /** The table after the one a place begins. */
  lemma NextPlace(x: nat)
    requires IndexOf(x) == 0
    ensures DirOf(x + 1024) == NextDir(DirOf(x)) && IndexOf(x + 1024) == 0
    ensures forall z :: x <= z < x + 1024 ==> DirOf(z) == DirOf(x)
  {
    var q := x / 1024;
    Split(x + 1024, q + 1, 0);
    NextTurn(q);
    forall z | x <= z < x + 1024
      ensures DirOf(z) == DirOf(x)
    {
      Split(z, q, z - x);
    }
  }

  /** The scan would take the entry at a place. */
  ghost predicate Takes(s: Paging, x: nat)
    requires WellFormed(s)
  {
    Swappable(s, DirOf(x), IndexOf(x))
  }

  /** A place that begins a table after an absent one. */
  ghost predicate Late(s: Paging, x: nat)
    requires WellFormed(s)
  {
    x > 0 && IndexOf(x) == 0 && s.mem.dir[DirOf(x - 1)] == 0
  }

  /** Something to take from place y up to z; the last place is passed over if it begins a table after an absent
      one. */
  ghost predicate Reach(s: Paging, y: nat, z: int)
    requires WellFormed(s)
  {
    exists x: nat :: y <= x < z && Takes(s, x) && !(x == z - 1 && Late(s, x))
  }

  /** y is the place after the cursors. */
  predicate AtPlace(s: Paging, y: nat)
    requires FIRST_DIR <= s.dirEntry < DIRS
  {
    if s.pageEntry + 1 < ENTRIES then DirOf(y) == s.dirEntry && IndexOf(y) == s.pageEntry + 1
    else IndexOf(y) == 0 && DirOf(y) == NextDir(s.dirEntry)
  }

  /** The inner loop: k tables are absent. */
  lemma {:induction false} NextTableSkips(m: Mem, d: nat, counter: int, y: nat) returns (k: nat)
    requires Shape(m) && FIRST_DIR <= d < DIRS && IndexOf(y) == 0 && DirOf(y) == NextDir(d)
    ensures var (d', c', found) := NextTable(m, d, counter);
            && c' == counter - 1024 * k && IndexOf(y + 1024 * k) == 0
            && (forall x :: y <= x < y + 1024 * k ==> m.dir[DirOf(x)] == 0)
            && (if found then DirOf(y + 1024 * k) == d' && (k > 0 ==> c' > 0) else k > 0 && c' <= 0)
    decreases counter
  {
    NextPlace(y);
    if m.dir[NextDir(d)] != 0 {
      k := 0;
    } else if counter - 1024 > 0 {
      k := NextTableSkips(m, NextDir(d), counter - 1024, y + 1024);
      k := k + 1;
    } else {
      k := 1;
    }
  }

  lemma {:induction false} SkipAbsentSkips(m: Mem, d: nat, counter: int, y: nat) returns (k: nat)
    requires Shape(m) && FIRST_DIR <= d < DIRS && IndexOf(y) == 0 && DirOf(y) == d
    ensures var (d', c') := SkipAbsent(m, d, counter);
            && c' == counter - 1024 * k && IndexOf(y + 1024 * k) == 0 && DirOf(y + 1024 * k) == d'
            && (forall x :: y <= x < y + 1024 * k ==> m.dir[DirOf(x)] == 0)
            && (k == 0 <==> counter <= 0 || m.dir[d] != 0)
    decreases counter
  {
    NextPlace(y);
    if counter <= 0 || m.dir[d] != 0 {
      k := 0;
    } else {
      k := SkipAbsentSkips(m, NextDir(d), counter - 1024, y + 1024);
      k := k + 1;
    }
  }

  /** The second loop takes something if and only if there is something to take in the places it has the counter
      for. */
  lemma {:induction false} ScanOutExact(s: Paging, counter: int, tries: seq<(nat, nat)>, y: nat)
    requires WellFormed(s) && AtPlace(s, y) && (counter > 0 ==> s.mem.dir[s.dirEntry] != 0)
    requires s.pageEntry == -1 ==> counter > 1
    ensures ScanOut(s, counter, tries).1 <==> Reach(s, y, y + counter)
    decreases counter, 1
  {
    hide TryNext, Takes, Late, NextTable;
    if counter <= 0 {
    } else if s.pageEntry + 1 < ENTRIES {
      if s.pageEntry >= 0 {
        NotLate(s, y);
      }
      TryAt(s, s.(pageEntry := s.pageEntry + 1), counter - 1, tries, y, y + counter);
    } else {
      OtherTable(s, counter, tries, y);
    }
  }

  /** Within a table nothing is passed over. */
  lemma NotLate(s: Paging, y: nat)
    requires WellFormed(s) && AtPlace(s, y) && 0 <= s.pageEntry && s.pageEntry + 1 < ENTRIES
    ensures !Late(s, y)
  {
  }

  /** At the end of a table. */
  lemma OtherTable(s: Paging, counter: int, tries: seq<(nat, nat)>, y: nat)
    requires WellFormed(s) && AtPlace(s, y) && counter > 0 && s.mem.dir[s.dirEntry] != 0
    requires s.pageEntry + 1 == ENTRIES
    ensures ScanOut(s, counter, tries).1 <==> Reach(s, y, y + counter)
    decreases counter, 0
  {
    hide TryNext, Takes, Late, NextTable, Reach;
    var k := NextTableSkips(s.mem, s.dirEntry, counter - 1, y);
    var (d, c, found) := NextTable(s.mem, s.dirEntry, counter - 1);
    SkipPlaces(s, y, y + 1024 * k, y + counter);
    if found {
      FirstLate(s, y, k);
      TryAt(s, s.(dirEntry := d, pageEntry := 0), c, tries, y + 1024 * k, y + counter);
    }
  }

  /** The table right after a present one is not passed over. */
  lemma FirstLate(s: Paging, y: nat, k: nat)
    requires WellFormed(s) && AtPlace(s, y) && s.mem.dir[s.dirEntry] != 0 && s.pageEntry + 1 == ENTRIES
    ensures k == 0 ==> !Late(s, y + 1024 * k)
  {
    if y > 0 {
      Before(y);
    }
  }

  /** The table before the one a place begins. */
  lemma Before(y: nat)
    requires IndexOf(y) == 0 && y > 0
    ensures NextDir(DirOf(y - 1)) == DirOf(y)
  {
    var q := y / 1024;
    Split(y - 1, q - 1, 1023);
    NextTurn(q - 1);
  }

  /** Absent tables have nothing to take. */
  lemma SkipPlaces(s: Paging, y: nat, y': nat, z: int)
    requires WellFormed(s) && y <= y' && IndexOf(y') == 0
    requires forall x :: y <= x < y' ==> s.mem.dir[DirOf(x)] == 0
    ensures Reach(s, y, z) <==> Reach(s, y', z)
    ensures y < y' && z <= y' + 1 ==> !Reach(s, y, z)
  {
    assert forall x :: y <= x < y' ==> !Takes(s, x);
  }

  /** One try, at place y, and the scan after it. */
  lemma TryAt(s: Paging, s1: Paging, counter: int, tries: seq<(nat, nat)>, y: nat, z: int)
    requires WellFormed(s) && WellFormed(s1) && s1 == s.(dirEntry := s1.dirEntry, pageEntry := s1.pageEntry)
    requires s1.pageEntry >= 0 && DirOf(y) == s1.dirEntry && IndexOf(y) == s1.pageEntry
    requires counter >= 0 && z == y + 1 + counter
    requires s.mem.dir[s1.dirEntry] != 0 && !(y == z - 1 && Late(s, y))
    ensures TryNext(s1, counter, tries).1 <==> Reach(s, y, z)
    decreases counter, 2
  {
    hide TryToSwapOut, Swappable;
    TryExact(s1, s1.dirEntry, s1.pageEntry);
    SameTakes(s, s1);
    if Takes(s, y) {
      return;
    }
    NextAt(s1, y);
    ScanOutExact(s1, counter, tries + [(s1.dirEntry, s1.pageEntry as nat)], y + 1);
  }

  lemma SameTakes(s: Paging, s1: Paging)
    requires WellFormed(s) && WellFormed(s1) && s1 == s.(dirEntry := s1.dirEntry, pageEntry := s1.pageEntry)
    ensures forall x: nat :: Takes(s1, x) == Takes(s, x) && Late(s1, x) == Late(s, x)
  {
  }

  lemma NextAt(s: Paging, y: nat)
    requires FIRST_DIR <= s.dirEntry < DIRS && 0 <= s.pageEntry < ENTRIES
    requires DirOf(y) == s.dirEntry && IndexOf(y) == s.pageEntry
    ensures AtPlace(s, y + 1)
  {
    var q := y / 1024;
    if s.pageEntry + 1 < ENTRIES {
      Split(y + 1, q, s.pageEntry + 1);
    } else {
      Split(y + 1, q + 1, 0);
      NextTurn(q);
    }
  }

  // ---------------------------------------------------------- the whole scan

  function PrevDir(d: nat): nat
    requires FIRST_DIR <= d < DIRS
  {
    if d == FIRST_DIR then DIRS - 1 else d - 1
  }

  /** The part of the user entries swap_out passes over: when it begins at an absent table, the first entries of the
      first present one; when the last entry looked at was the first of a table, that entry if the table before is
      absent. */
  predicate Missed(s: Paging, d: nat, i: nat)
    requires WellFormed(s)
  {
    && d == SkipAbsent(s.mem, s.dirEntry, VM_PAGES).0
    && (if s.mem.dir[s.dirEntry] == 0 then i <= s.pageEntry
        else i == 0 && s.pageEntry == 0 && s.mem.dir[PrevDir(d)] == 0)
  }

  /** swap_out succeeds if and only if some user entry can be swapped out that its scan does not pass over. */
  lemma SwapOutExact(s: Paging)
    requires WellFormed(s)
    ensures SwapOut(s).1 <==> exists d: nat, i: nat :: User(d, i) && Swappable(s, d, i) && !Missed(s, d, i)
  {
    hide Swappable, Late, Takes, Reach, Missed, SkipAbsent, ScanOut, AtPlace, Place, DirOf, IndexOf;
    var a0 := Place(s.dirEntry, 0);
    PlaceOf(s.dirEntry, 0);
    var k := SkipAbsentSkips(s.mem, s.dirEntry, VM_PAGES, a0);
    var (d1, counter) := SkipAbsent(s.mem, s.dirEntry, VM_PAGES);
    if counter <= 0 {
      forall d: nat, i: nat | User(d, i) ensures !Swappable(s, d, i) {
        var x := InWindow(d, i, a0);
        AbsentKept(s, d, i);
      }
      ScanOutEnds(s.(dirEntry := d1), counter);
    } else {
      SwapOutScans(s, k);
      if SwapOut(s).1 {
        var d, i := ReachedFound(s, k);
      }
      forall d: nat, i: nat | User(d, i) && Swappable(s, d, i) && !Missed(s, d, i) ensures SwapOut(s).1 {
        FoundReached(s, k, d, i);
      }
    }
  }

  lemma ScanOutEnds(s: Paging, counter: int)
    requires WellFormed(s) && counter <= 0
    ensures !ScanOut(s, counter, []).1
  {
  }

  /** k absent tables are skipped at the start. */
  ghost predicate Skips(s: Paging, k: nat)
    requires WellFormed(s)
  {
    var (d1, counter) := SkipAbsent(s.mem, s.dirEntry, VM_PAGES);
    var a0 := Place(s.dirEntry, 0);
    && counter == VM_PAGES - 1024 * k && counter > 0
    && IndexOf(a0 + 1024 * k) == 0 && DirOf(a0 + 1024 * k) == d1
    && (forall x :: a0 <= x < a0 + 1024 * k ==> s.mem.dir[DirOf(x)] == 0)
    && (k == 0 <==> s.mem.dir[s.dirEntry] != 0)
  }

  function Begin(s: Paging, k: nat): nat
    requires WellFormed(s)
  {
    Place(s.dirEntry, 0) + 1024 * k + s.pageEntry + 1
  }

  function End(s: Paging): int
    requires WellFormed(s)
  {
    Place(s.dirEntry, 0) + VM_PAGES + s.pageEntry + 1
  }

  lemma SwapOutScans(s: Paging, k: nat)
    requires WellFormed(s) && Skips(s, k)
    ensures SwapOut(s).1 <==> Reach(s, Begin(s, k), End(s))
  {
    hide Swappable, Late, Takes, SkipAbsent, ScanOut;
    var (d1, counter) := SkipAbsent(s.mem, s.dirEntry, VM_PAGES);
    var s1 := s.(dirEntry := d1);
    SameTakes(s, s1);
    AfterCursors(s1, Place(s.dirEntry, 0) + 1024 * k);
    ScanOutExact(s1, counter, [], Begin(s, k));
  }

  lemma AfterCursors(s: Paging, a: nat)
    requires WellFormed(s) && IndexOf(a) == 0 && DirOf(a) == s.dirEntry
    ensures AtPlace(s, a + s.pageEntry + 1)
  {
    NextPlace(a);
    if s.pageEntry + 1 < ENTRIES {
      InTable(a, a + s.pageEntry + 1);
    }
  }

  /** What is reached is an entry that is not passed over. */
  lemma ReachedFound(s: Paging, k: nat) returns (d: nat, i: nat)
    requires WellFormed(s) && Skips(s, k) && Reach(s, Begin(s, k), End(s))
    ensures User(d, i) && Swappable(s, d, i) && !Missed(s, d, i)
  {
    hide Swappable, Late;
    var x: nat :| Begin(s, k) <= x < End(s) && Takes(s, x) && !(x == End(s) - 1 && Late(s, x));
    d, i := DirOf(x), IndexOf(x);
    if Missed(s, d, i) {
      MissedPlace(s, k, x);
    }
  }

  /** A place that is in the window and stands for a missed entry is its last one. */
  lemma MissedPlace(s: Paging, k: nat, x: nat)
    requires WellFormed(s) && Skips(s, k) && Begin(s, k) <= x < End(s) && Missed(s, DirOf(x), IndexOf(x))
    ensures x == End(s) - 1 && Late(s, x)
  {
    hide DirOf, IndexOf;
    var a: nat := Place(s.dirEntry, 0) + 1024 * k;
    PlaceOf(s.dirEntry, 0);
    assert DirOf(a) == DirOf(x) && IndexOf(a) == 0;
    SameDir(a, x);
    Apart(a + IndexOf(x), x);
    assert k == 0 && IndexOf(x) == 0 && x == a + VM_PAGES;
    Before(x);
  }

  lemma SameDir(a: nat, x: nat)
    requires IndexOf(a) == 0 && DirOf(a) == DirOf(x)
    ensures (a + IndexOf(x)) % VM_PAGES == x % VM_PAGES
  {
    hide DirOf, IndexOf;
    InTable(a, a + IndexOf(x));
    PlaceMod(x);
    PlaceMod(a + IndexOf(x));
  }

  lemma Apart(u: nat, x: nat)
    requires u % VM_PAGES == x % VM_PAGES && u < x
    ensures x >= u + VM_PAGES
  {
    assert x - u == VM_PAGES * (x / VM_PAGES - u / VM_PAGES);
  }

  lemma InTable(a: nat, x: nat)
    requires IndexOf(a) == 0 && a <= x < a + 1024
    ensures DirOf(x) == DirOf(a) && IndexOf(x) == x - a
  {
    NextPlace(a);
    Split(x, a / 1024, x - a);
  }

  lemma LastPlace(s: Paging, x: nat)
    requires WellFormed(s) && x == End(s) - 1 && IndexOf(x) == 0
    ensures s.pageEntry == 0 && DirOf(x) == s.dirEntry
  {
    PlaceOf(s.dirEntry, 0);
    Later(Place(s.dirEntry, 0));
    if 0 <= s.pageEntry {
      InTable(Place(s.dirEntry, 0) + VM_PAGES, x);
    } else {
      Split(x, s.dirEntry - FIRST_DIR + DIRS_USED - 1, 1023);
    }
  }

  lemma FoundReached(s: Paging, k: nat, d: nat, i: nat)
    requires WellFormed(s) && Skips(s, k) && User(d, i) && Swappable(s, d, i) && !Missed(s, d, i)
    ensures Reach(s, Begin(s, k), End(s))
  {
    hide Swappable, DirOf, IndexOf, SkipAbsent;
    PlaceOf(s.dirEntry, 0);
    var a: nat := Place(s.dirEntry, 0) + 1024 * k;
    var x := InWindow(d, i, Place(s.dirEntry, 0) + s.pageEntry + 1);
    if s.mem.dir[d] == 0 {
      AbsentKept(s, d, i);
    }
    if a <= x < Begin(s, k) {
      InTable(a, x);
    }
    if x == End(s) - 1 && Late(s, x) {
      LastPlace(s, x);
      Before(x);
    }
    assert Takes(s, x);
  }

  /** One turn later in the cyclic order. */
  lemma Later(x: nat)
    ensures DirOf(x + VM_PAGES) == DirOf(x) && IndexOf(x + VM_PAGES) == IndexOf(x)
  {
    var q := x / 1024;
    Split(x + VM_PAGES, q + DIRS_USED, x % 1024);
    assert (q + DIRS_USED) % DIRS_USED == q % DIRS_USED;
  }

  /** The place in a window of VM_PAGES places that stands for an entry. */
  lemma InWindow(d: nat, i: nat, from: nat) returns (x: nat)
    requires FIRST_DIR <= d < DIRS && i < ENTRIES && from <= VM_PAGES
    ensures from <= x < from + VM_PAGES && DirOf(x) == d && IndexOf(x) == i
  {
    x := Place(d, i);
    PlaceOf(d, i);
    if x < from {
      Later(x);
      x := x + VM_PAGES;
    }
  }

  lemma AbsentKept(s: Paging, d: nat, i: nat)
    requires WellFormed(s) && User(d, i) && s.mem.dir[d] == 0
    ensures !Swappable(s, d, i)
  {
  }

  /** With the cursors of t, nothing in the memory of s that the scan does not pass over can be swapped out. */
  ghost predicate Stuck(s: Paging, t: Paging)
    requires WellFormed(s)
  {
    && WellFormed(t) && t == s.(dirEntry := t.dirEntry, pageEntry := t.pageEntry)
    && (forall d: nat, i: nat :: User(d, i) && Swappable(t, d, i) ==> Missed(t, d, i))
  }

  /** get_free_page swaps nothing out while a page is free, and returns no page only with none free and nothing more
      that swap_out would find. */
  lemma {:induction false} GetPageExact(s: Paging)
    requires WellFormed(s)
    ensures var (r, pn) := GetPage(s);
            && (!NoneFree(s.mem) ==> pn != 0 && r == s.(mem := GetFreePage(s.mem).0))
            && (pn == 0 ==> NoneFree(r.mem) && exists t: Paging :: Stuck(r, t))
    decreases Resident(s.mem)
  {
    hide SwapOut, Swappable, Missed;
    if GetFreePage(s.mem).1 != 0 {
      return;
    }
    FreePageIff(s.mem);
    SwapOutBounded(s);
    SwapOutExact(s);
    var (s1, ok, _) := SwapOut(s);
    if ok {
      GetPageExact(s1);
    } else {
      assert Stuck(s1, s);
    }
  }

  lemma FreePageIff(m: Mem)
    requires Shape(m)
    ensures GetFreePage(m).1 == 0 <==> NoneFree(m)
  {
  }
}

/**
 Swapping in 0.12: the slot bitmap, swap_out's scan with its cursors, the page allocator
 that retries after a swap-out, and the swap branches of fault, fork and exit.
 Read and write of a swap page are plain copies to and from an array of slots.
*/
module Swap {
  import opened PageTables
  import C = CowPaging

  const SWAP_BITS: nat := 32768
  const FIRST_DIR: nat := 16           // FIRST_VM_PAGE >> 10
  const VM_PAGES: nat := 1032192       // LAST_VM_PAGE - FIRST_VM_PAGE

  /** bits[n] is set while slot n is free; `bad` records the complaints of swap_free. */
  datatype Paging = Paging(
    mem: Mem,
    on: bool,               // swap_bitmap is there
    bits: seq<bool>,
    disk: seq<Frame>,
    dirEntry: nat,          // the cursors of swap_out
    pageEntry: int,
    bad: bool)

  ghost predicate WellFormed(s: Paging) {
    && Shape(s.mem) && |s.bits| == |s.disk| == SWAP_BITS
    && (forall n :: 0 <= n < SWAP_BITS ==> |s.disk[n]| == PAGE_SIZE)
    && FIRST_DIR <= s.dirEntry < DIRS && -1 <= s.pageEntry < ENTRIES
  }

  // --------------------------------------------------------------- the bitmap

  /** The first set bit from `nr` on. */
  function FirstSet(bits: seq<bool>, nr: nat): (k: nat)
    requires nr <= |bits|
    ensures nr <= k <= |bits| && (k < |bits| ==> bits[k]) && forall j :: nr <= j < k ==> !bits[j]
    decreases |bits| - nr
  {
    if nr == |bits| || bits[nr] then nr else FirstSet(bits, nr + 1)
  }

  /** get_swap_page: takes the first free slot after slot 0; 0 if there is none. */
  function GetSwapPage(s: Paging): (r: (Paging, nat))
    requires WellFormed(s)
    ensures WellFormed(r.0) && r.1 < SWAP_BITS
  {
    if !s.on then (s, 0)
    else
      var nr := FirstSet(s.bits, 1);
      if nr == SWAP_BITS then (s, 0) else (s.(bits := s.bits[nr := false]), nr)
  }

  function SwapFree(s: Paging, nr: nat): (r: Paging)
    requires WellFormed(s)
    ensures WellFormed(r) && r.mem == s.mem
  {
    if nr == 0 then s
    else if s.on && nr < SWAP_BITS then s.(bits := s.bits[nr := true], bad := s.bad || s.bits[nr])
    else s.(bad := true)
  }

  // ----------------------------------------------------------------- swap_out

  /** try_to_swap_out on entry `i` of the table in page `t`. */
  function TryToSwapOut(s: Paging, t: PageNo, i: nat): (r: (Paging, bool))
    requires WellFormed(s) && i < ENTRIES
    ensures WellFormed(r.0) && (!r.1 ==> r.0 == s)
  {
    var e := s.mem.table[t][i];
    if !e.Present? || e.page < LOW_PAGES then (s, false)
    else if e.dirty then
      if s.mem.count[e.page - LOW_PAGES] != 1 then (s, false)
      else
        var (s1, nr) := GetSwapPage(s);
        if nr == 0 then (s, false)
        else (s1.(mem := FreePage(Store(s.mem, t, i, Swapped(nr)), e.page), disk := s.disk[nr := s.mem.data[e.page]]),
            true)
    else (s.(mem := FreePage(Store(s.mem, t, i, Absent), e.page)), true)
  }

  function NextDir(d: nat): nat {
    if d + 1 >= DIRS then FIRST_DIR else d + 1
  }

  /** The first loop of swap_out: skips absent tables. */
  function SkipAbsent(m: Mem, d: nat, counter: int): (r: (nat, int))
    requires Shape(m) && FIRST_DIR <= d < DIRS
    ensures FIRST_DIR <= r.0 < DIRS && r.1 <= counter && (r.1 > 0 ==> m.dir[r.0] != 0)
    decreases counter
  {
    if counter <= 0 || m.dir[d] != 0 then (d, counter) else SkipAbsent(m, NextDir(d), counter - 1024)
  }

  /** The inner `repeat` of swap_out: the next table, or none before the counter runs out. */
  function NextTable(m: Mem, d: nat, counter: int): (r: (nat, int, bool))
    requires Shape(m) && FIRST_DIR <= d < DIRS
    ensures FIRST_DIR <= r.0 < DIRS && r.1 <= counter && (r.2 ==> m.dir[r.0] != 0)
    decreases counter
  {
    var d1 := NextDir(d);
    if m.dir[d1] != 0 then (d1, counter, true)
    else if counter - 1024 > 0 then NextTable(m, d1, counter - 1024)
    else (d1, counter - 1024, false)
  }

  /** The second loop of swap_out; `tries` collects the entries tried. */
  function ScanOut(s: Paging, counter: int, tries: seq<(nat, nat)>): (r: (Paging, bool, seq<(nat, nat)>))
    requires WellFormed(s)
    ensures WellFormed(r.0)
    decreases counter, 0
  {
    if counter <= 0 then (s, false, tries)
    else if s.pageEntry + 1 < ENTRIES then TryNext(s.(pageEntry := s.pageEntry + 1), counter - 1, tries)
    else
      var (d, c, found) := NextTable(s.mem, s.dirEntry, counter - 1);
      var s1 := s.(dirEntry := d, pageEntry := 0);
      if found then TryNext(s1, c, tries) else (s1, false, tries)
  }

  function TryNext(s: Paging, counter: int, tries: seq<(nat, nat)>): (r: (Paging, bool, seq<(nat, nat)>))
    requires WellFormed(s) && s.pageEntry >= 0
    ensures WellFormed(r.0)
    decreases counter, 1
  {
    var (s1, ok) := TryToSwapOut(s, s.mem.dir[s.dirEntry], s.pageEntry);
    var tries1 := tries + [(s.dirEntry, s.pageEntry as nat)];
    if ok then (s1, true, tries1) else ScanOut(s, counter, tries1)
  }

  function SwapOut(s: Paging): (r: (Paging, bool, seq<(nat, nat)>))
    requires WellFormed(s)
    ensures WellFormed(r.0)
  {
    var (d, counter) := SkipAbsent(s.mem, s.dirEntry, VM_PAGES);
    ScanOut(s.(dirEntry := d), counter, [])
  }

  // -------------------------------------------------------------- termination

  /** The present entries of user tables. */
  ghost function Resident(m: Mem): set<(nat, nat)>
    requires Shape(m)
  {
    set d: nat, i: nat | SLOT_DIRS <= d < DIRS && i < ENTRIES && At(m, d, i).Present? :: (d, i)
  }

  lemma TryToSwapOutShrinks(s: Paging, d: nat, i: nat)
    requires WellFormed(s) && User(d, i) && s.mem.dir[d] != 0
    ensures var (r, ok) := TryToSwapOut(s, s.mem.dir[d], i);
            r.mem.dir == s.mem.dir && (ok ==> Resident(r.mem) < Resident(s.mem))
  {
    var (r, ok) := TryToSwapOut(s, s.mem.dir[d], i);
    if ok {
      assert (d, i) in Resident(s.mem) && (d, i) !in Resident(r.mem);
      assert forall d1: nat, i1: nat :: User(d1, i1) && At(r.mem, d1, i1).Present? ==> At(s.mem, d1, i1).Present?;
    }
  }

  /** What the scan promises: a bounded number of tries, each on a present table, and a strictly smaller resident set on
      success. */
  ghost predicate Scanned(s: Paging, counter: int, tries: seq<(nat, nat)>, r: Paging, ok: bool, tries': seq<(nat, nat)>)
    requires WellFormed(s) && WellFormed(r)
  {
    && |tries'| - |tries| <= (if counter > 0 then counter else 0) && tries <= tries'
    && (forall k {:trigger tries'[k]} :: |tries| <= k < |tries'| ==>
        User(tries'[k].0, tries'[k].1) && s.mem.dir[tries'[k].0] != 0)
    && r.mem.dir == s.mem.dir
    && (if ok then Resident(r.mem) < Resident(s.mem) else r == s.(dirEntry := r.dirEntry, pageEntry := r.pageEntry))
  }

  lemma {:induction false} ScanOutTries(s: Paging, counter: int, tries: seq<(nat, nat)>)
    requires WellFormed(s) && (counter > 0 && s.pageEntry + 1 < ENTRIES ==> s.mem.dir[s.dirEntry] != 0)
    ensures var (r, ok, tries') := ScanOut(s, counter, tries);
            Scanned(s, counter, tries, r, ok, tries')
    decreases counter
  {
    if counter <= 0 {
      return;
    }
    var (d, c, found) := if s.pageEntry + 1 < ENTRIES then (s.dirEntry, counter - 1, true)
        else NextTable(s.mem, s.dirEntry, counter - 1);
    var s1 := s.(dirEntry := d, pageEntry := if s.pageEntry + 1 < ENTRIES then s.pageEntry + 1 else 0);
    if !found {
      return;
    }
    TryToSwapOutShrinks(s1, d, s1.pageEntry);
    var (s2, ok) := TryToSwapOut(s1, s1.mem.dir[d], s1.pageEntry);
    var tries1 := tries + [(d, s1.pageEntry as nat)];
    if !ok {
      ScanOutTries(s1, c, tries1);
    }
  }

  /** swap_out makes at most VM_PAGES tries, each on an entry of a present table; every success strictly
      lowers the number of present user entries. */
  lemma SwapOutBounded(s: Paging)
    requires WellFormed(s)
    ensures var (r, ok, tries) := SwapOut(s);
            && |tries| <= VM_PAGES
            && (forall k {:trigger tries[k]} :: 0 <= k < |tries| ==>
                User(tries[k].0, tries[k].1) && s.mem.dir[tries[k].0] != 0)
            && r.mem.dir == s.mem.dir
            && (if ok then Resident(r.mem) < Resident(s.mem)
                else r == s.(dirEntry := r.dirEntry, pageEntry := r.pageEntry))
  {
    var (d, counter) := SkipAbsent(s.mem, s.dirEntry, VM_PAGES);
    ScanOutTries(s.(dirEntry := d), counter, []);
  }

  /** The try that ended the scan: the last entry of `tries`, on the cursors the scan leaves behind. */
  ghost predicate Took(s: Paging, tries: seq<(nat, nat)>, r: Paging) {
    && WellFormed(s) && tries != []
    && FIRST_DIR <= r.dirEntry < DIRS && -1 <= r.pageEntry < ENTRIES
    && (var (d, i) := tries[|tries| - 1];
        && User(d, i) && s.mem.dir[d] != 0
        && TryToSwapOut(s.(dirEntry := r.dirEntry, pageEntry := r.pageEntry), s.mem.dir[d], i) == (r, true))
  }

  lemma {:induction false} ScanOutTook(s: Paging, counter: int, tries: seq<(nat, nat)>)
    requires WellFormed(s) && (counter > 0 && s.pageEntry + 1 < ENTRIES ==> s.mem.dir[s.dirEntry] != 0)
    ensures var (r, ok, tries') := ScanOut(s, counter, tries);
            ok ==> Took(s, tries', r)
    decreases counter
  {
    if counter <= 0 {
      return;
    }
    var (d, c, found) := if s.pageEntry + 1 < ENTRIES then (s.dirEntry, counter - 1, true)
        else NextTable(s.mem, s.dirEntry, counter - 1);
    var s1 := s.(dirEntry := d, pageEntry := if s.pageEntry + 1 < ENTRIES then s.pageEntry + 1 else 0);
    if !found {
      return;
    }
    var (s2, ok) := TryToSwapOut(s1, s1.mem.dir[d], s1.pageEntry);
    var tries1 := tries + [(d, s1.pageEntry as nat)];
    if !ok {
      ScanOutTook(s1, c, tries1);
    }
  }

  /** A successful swap_out is one successful try, on the last entry it looked at. */
  lemma SwapOutTook(s: Paging)
    requires WellFormed(s)
    ensures var (r, ok, tries) := SwapOut(s);
            if ok then Took(s, tries, r) else r == s.(dirEntry := r.dirEntry, pageEntry := r.pageEntry)
  {
    var (d, counter) := SkipAbsent(s.mem, s.dirEntry, VM_PAGES);
    ScanOutTook(s.(dirEntry := d), counter, []);
    ScanOutTries(s.(dirEntry := d), counter, []);
  }

  /** get_free_page: looks for a free page, and as long as there is none swaps one out and looks again. */
  function GetPage(s: Paging): (r: (Paging, PageNo))
    requires WellFormed(s)
    ensures WellFormed(r.0)
    decreases Resident(s.mem)
  {
    var (m, pn) := GetFreePage(s.mem);
    if pn != 0 then (s.(mem := m), pn)
    else
      SwapOutBounded(s);
      var (s1, ok, _) := SwapOut(s);
      if ok then GetPage(s1) else (s1, 0)
  }

  // ---------------------------------------------------------------- invariant

  /** The user entries that name a swap slot. */
  ghost function SlotUsers(m: Mem, n: nat): set<(nat, nat)>
    requires Shape(m)
  {
    set d: nat, i: nat | SLOT_DIRS <= d < DIRS && i < ENTRIES && At(m, d, i) == Swapped(n) :: (d, i)
  }

  function One(b: bool): nat {
    if b then 1 else 0
  }

  /** Each slot usable at the start is either free in the bitmap or named by exactly one entry; no other slot is
      either. */
  ghost predicate Slots(m: Mem, bits: seq<bool>, usable: set<nat>)
    requires Shape(m)
  {
    && |bits| == SWAP_BITS && (forall n :: n in usable ==> 0 < n < SWAP_BITS)
    && (forall n: nat {:trigger SlotUsers(m, n)} :: n < SWAP_BITS ==>
        |SlotUsers(m, n)| + One(bits[n]) == One(n in usable))
    && (forall n: nat {:trigger SlotUsers(m, n)} :: n >= SWAP_BITS ==> SlotUsers(m, n) == {})
  }

  ghost predicate Inv(s: Paging, held: multiset<PageNo>, usable: set<nat>) {
    true == (WellFormed(s) && PageTables.Inv(s.mem, held) && Slots(s.mem, s.bits, usable) && !s.bad
        && (!s.on ==> usable == {}))
  }

  lemma SlotNamed(s: Paging, held: multiset<PageNo>, usable: set<nat>, d: nat, i: nat)
    requires Inv(s, held, usable) && User(d, i) && At(s.mem, d, i).Swapped?
    ensures var n := At(s.mem, d, i).slot;
            && s.on && n in usable && 0 < n < SWAP_BITS && !s.bits[n] && SlotUsers(s.mem, n) == {(d, i)}
  {
    var n := At(s.mem, d, i).slot;
    assert (d, i) in SlotUsers(s.mem, n);
    assert |SlotUsers(s.mem, n)| == |SlotUsers(s.mem, n) - {(d, i)}| + 1;
  }

  lemma OneEntrySlot(m: Mem, r: Mem, d: nat, i: nat, n: nat)
    requires OneEntry(m, r, d, i)
    ensures |SlotUsers(r, n)| + One(At(m, d, i) == Swapped(n)) == |SlotUsers(m, n)| + One(At(r, d, i) == Swapped(n))
  {
    var us, vs := SlotUsers(m, n), SlotUsers(r, n);
    assert ((d, i) in us <==> At(m, d, i) == Swapped(n)) && ((d, i) in vs <==> At(r, d, i) == Swapped(n));
    assert us - {(d, i)} == vs - {(d, i)} by {
      OneEntryOthers(m, r, d, i, n);
    }
    hide At, SlotUsers;
    assert |us - {(d, i)}| == |us| - One((d, i) in us) && |vs - {(d, i)}| == |vs| - One((d, i) in vs);
  }

  lemma OneEntryOthers(m: Mem, r: Mem, d: nat, i: nat, n: nat)
    requires OneEntry(m, r, d, i)
    ensures SlotUsers(m, n) - {(d, i)} == SlotUsers(r, n) - {(d, i)}
  {
    forall d1: nat, i1: nat | User(d1, i1) && !(d1 == d && i1 == i)
      ensures (d1, i1) in SlotUsers(m, n) <==> (d1, i1) in SlotUsers(r, n)
    {
    }
  }

  /** One entry changed; the bitmap moved with what it stopped and started naming. */
  lemma SlotsOneEntry(m: Mem, bits: seq<bool>, usable: set<nat>, r: Mem, bits': seq<bool>, d: nat, i: nat)
    requires OneEntry(m, r, d, i) && Slots(m, bits, usable) && |bits'| == SWAP_BITS
    requires forall n: nat {:trigger bits'[n]} :: n < SWAP_BITS ==>
      One(bits'[n]) + One(At(r, d, i) == Swapped(n)) == One(bits[n]) + One(At(m, d, i) == Swapped(n))
    requires At(r, d, i).Swapped? ==> At(r, d, i).slot < SWAP_BITS
    ensures Slots(r, bits', usable)
  {
    hide SlotUsers;
    forall n: nat | n < SWAP_BITS
      ensures |SlotUsers(r, n)| + One(bits'[n]) == One(n in usable)
    {
      OneEntrySlot(m, r, d, i, n);
      assert |SlotUsers(m, n)| + One(bits[n]) == One(n in usable);
    }
    forall n: nat | n >= SWAP_BITS
      ensures SlotUsers(r, n) == {}
    {
      OneEntrySlot(m, r, d, i, n);
      assert SlotUsers(m, n) == {};
      assert |SlotUsers(r, n)| == 0;
    }
  }

  /** No entry changed. */
  lemma SlotsSame(m: Mem, bits: seq<bool>, usable: set<nat>, r: Mem)
    requires Shape(m) && Shape(r) && Slots(m, bits, usable)
    requires forall d: nat, i: nat :: User(d, i) ==> At(r, d, i) == At(m, d, i)
    ensures Slots(r, bits, usable)
  {
    forall n: nat
      ensures SlotUsers(r, n) == SlotUsers(m, n)
    {
    }
  }

  // ---------------------------------------------------------- what is never lost

  /** An entry whose page has no copy elsewhere: it is dirty, or in a swap slot. */
  predicate Solid(e: Entry) {
    e.Swapped? || (e.Present? && e.dirty)
  }

  /** What a user entry stands for: the page, or the slot's copy of it. */
  function Held(s: Paging, d: nat, i: nat): Option<Frame>
    requires WellFormed(s) && d < DIRS && i < ENTRIES
  {
    var e := At(s.mem, d, i);
    if e.Present? then Some(s.mem.data[e.page])
    else if e.Swapped? && e.slot < SWAP_BITS then Some(s.disk[e.slot])
    else None
  }

  /** Dirty and swapped contents survive; a clean page may be dropped, to be read again; nothing appears. */
  predicate Lasts(e: Entry, x: Option<Frame>, e': Entry, x': Option<Frame>) {
    && (Solid(e) ==> Solid(e') && x' == x)
    && (e.Present? && !e.dirty ==> e' == Absent || (e'.Present? && !e'.dirty && x' == x))
    && (e == Absent ==> e' == Absent)
  }

  ghost predicate LastsAt(s: Paging, d: nat, i: nat, r: Paging, d': nat, i': nat)
    requires WellFormed(s) && WellFormed(r) && User(d, i) && User(d', i')
  {
    Lasts(At(s.mem, d, i), Held(s, d, i), At(r.mem, d', i'), Held(r, d', i'))
  }

  /** Every user entry lasts. */
  ghost predicate AllLast(s: Paging, r: Paging) {
    true == (
      && WellFormed(s) && WellFormed(r)
      && (forall d: nat, i: nat {:trigger LastsAt(s, d, i, r, d, i)} {:trigger At(r.mem, d, i)} :: User(d, i) ==>
          LastsAt(s, d, i, r, d, i)))
  }

  lemma AllLastTwice(s: Paging, q: Paging, r: Paging)
    requires AllLast(s, q) && AllLast(q, r)
    ensures AllLast(s, r)
  {
    forall d: nat, i: nat | User(d, i)
      ensures LastsAt(s, d, i, r, d, i)
    {
      assert LastsAt(s, d, i, q, d, i) && LastsAt(q, d, i, r, d, i);
    }
  }

  // ------------------------------------------------------------ swapping out

  lemma SwapOutPage(s: Paging, held: multiset<PageNo>, usable: set<nat>, d: nat, i: nat, e: Entry)
    requires Inv(s, held, usable) && User(d, i) && s.mem.dir[d] != 0 && At(s.mem, d, i).Present?
        && LOW_PAGES <= At(s.mem, d, i).page && !e.Present?
    ensures var pn := At(s.mem, d, i).page;
            var r := FreePage(Store(s.mem, s.mem.dir[d], i, e), pn);
            && PageTables.Inv(r, held) && OneEntry(s.mem, r, d, i) && At(r, d, i) == e && r.data == s.mem.data
  {
    var pn := At(s.mem, d, i).page;
    var p := Store(s.mem, s.mem.dir[d], i, e);
    var r := FreePage(p, pn);
    StoreAt(s.mem, d, i, e);
    assert (d, i) in Users(s.mem, pn);
    assert s.mem.count[pn - LOW_PAGES] >= 1 && pn < s.mem.high;
    assert forall d': nat, i': nat :: User(d', i') ==> At(r, d', i') == At(p, d', i');
    Replace(s.mem, held, r, held, d, i);
  }

  lemma TryToSwapOutInv(s: Paging, held: multiset<PageNo>, usable: set<nat>, d: nat, i: nat)
    requires Inv(s, held, usable) && User(d, i) && s.mem.dir[d] != 0
    ensures var (r, ok) := TryToSwapOut(s, s.mem.dir[d], i);
            Inv(r, held, usable) && AllLast(s, r)
  {
    var e := At(s.mem, d, i);
    var (r, ok) := TryToSwapOut(s, s.mem.dir[d], i);
    if !ok {
      return;
    }
    if !e.dirty {
      SwapOutPage(s, held, usable, d, i, Absent);
      SlotsOneEntry(s.mem, s.bits, usable, r.mem, r.bits, d, i);
      return;
    }
    var nr := GetSwapPage(s).1;
    SwapOutPage(s, held, usable, d, i, Swapped(nr));
    SlotsOneEntry(s.mem, s.bits, usable, r.mem, r.bits, d, i);
    SwapOutLasts(s, held, usable, d, i, nr, r);
  }

  /** The slot taken was named by nobody, so no other swapped page is overwritten. */
  lemma SwapOutLasts(s: Paging, held: multiset<PageNo>, usable: set<nat>, d: nat, i: nat, nr: nat, r: Paging)
    requires Inv(s, held, usable) && User(d, i) && s.mem.dir[d] != 0 && WellFormed(r)
    requires At(s.mem, d, i).Present? && At(s.mem, d, i).dirty && nr < SWAP_BITS && s.bits[nr]
    requires OneEntry(s.mem, r.mem, d, i) && At(r.mem, d, i) == Swapped(nr) && r.mem.data == s.mem.data
    requires r.disk == s.disk[nr := s.mem.data[At(s.mem, d, i).page]]
    ensures AllLast(s, r)
  {
    forall d1: nat, i1: nat | User(d1, i1)
      ensures LastsAt(s, d1, i1, r, d1, i1)
    {
      if At(s.mem, d1, i1).Swapped? {
        SlotNamed(s, held, usable, d1, i1);
      }
    }
  }

  /** What swapping out keeps: the invariant, every dirty or swapped content, the tables, and every entry that is not
      present. */
  ghost predicate Kept(s: Paging, held: multiset<PageNo>, usable: set<nat>, r: Paging) {
    true == (
      && Inv(r, held, usable) && AllLast(s, r) && r.mem.dir == s.mem.dir && r.mem.high == s.mem.high && r.on == s.on
      && (forall d: nat, i: nat {:trigger At(r.mem, d, i)} :: User(d, i) && !At(s.mem, d, i).Present? ==>
          At(r.mem, d, i) == At(s.mem, d, i)))
  }

  lemma KeptTwice(s: Paging, held: multiset<PageNo>, usable: set<nat>, q: Paging, r: Paging)
    requires Kept(s, held, usable, q) && Kept(q, held, usable, r)
    ensures Kept(s, held, usable, r)
  {
    AllLastTwice(s, q, r);
    hide AllLast, Slots, PageTables.Inv;
    forall d: nat, i: nat | User(d, i) && !At(s.mem, d, i).Present?
      ensures At(r.mem, d, i) == At(s.mem, d, i)
    {
      assert At(q.mem, d, i) == At(s.mem, d, i);
    }
  }

  /** Moving the cursors is seen by nobody. */
  lemma CursorKept(s: Paging, held: multiset<PageNo>, usable: set<nat>, d: nat, p: int)
    requires Inv(s, held, usable) && FIRST_DIR <= d < DIRS && -1 <= p < ENTRIES
    ensures Kept(s, held, usable, s.(dirEntry := d, pageEntry := p))
  {
    var r := s.(dirEntry := d, pageEntry := p);
    forall d: nat, i: nat | User(d, i)
      ensures LastsAt(s, d, i, r, d, i)
    {
    }
  }

  lemma TryKept(s: Paging, held: multiset<PageNo>, usable: set<nat>, d: nat, i: nat)
    requires Inv(s, held, usable) && User(d, i) && s.mem.dir[d] != 0
    ensures Kept(s, held, usable, TryToSwapOut(s, s.mem.dir[d], i).0)
  {
    TryToSwapOutInv(s, held, usable, d, i);
    var (r, ok) := TryToSwapOut(s, s.mem.dir[d], i);
    if ok {
      var e := if At(s.mem, d, i).dirty then Swapped(GetSwapPage(s).1) else Absent;
      SwapOutPage(s, held, usable, d, i, e);
    }
  }

  lemma {:induction false} ScanOutKept(s: Paging, held: multiset<PageNo>, usable: set<nat>, counter: int,
      tries: seq<(nat, nat)>)
    requires Inv(s, held, usable) && (counter > 0 && s.pageEntry + 1 < ENTRIES ==> s.mem.dir[s.dirEntry] != 0)
    ensures Kept(s, held, usable, ScanOut(s, counter, tries).0)
    decreases counter, 0
  {
    CursorKept(s, held, usable, s.dirEntry, s.pageEntry);
    if counter <= 0 {
      return;
    }
    var (d, c, found) := if s.pageEntry + 1 < ENTRIES then (s.dirEntry, counter - 1, true)
        else NextTable(s.mem, s.dirEntry, counter - 1);
    var p := if s.pageEntry + 1 < ENTRIES then s.pageEntry + 1 else 0;
    CursorKept(s, held, usable, d, p);
    if !found {
      return;
    }
    hide Kept, Slots, PageTables.Inv, AllLast;
    ScanOutNext(s, held, usable, d, c, p, tries);
  }

  lemma ScanOutNext(s: Paging, held: multiset<PageNo>, usable: set<nat>, d: nat, c: int, p: nat, tries: seq<(nat, nat)>)
    requires Inv(s, held, usable) && FIRST_DIR <= d < DIRS && p < ENTRIES && s.mem.dir[d] != 0
    ensures Kept(s, held, usable, TryNext(s.(dirEntry := d, pageEntry := p), c, tries).0)
    decreases c, 1
  {
    var s1 := s.(dirEntry := d, pageEntry := p);
    CursorKept(s, held, usable, d, p);
    TryKept(s1, held, usable, d, p);
    var (s2, ok) := TryToSwapOut(s1, s1.mem.dir[d], p);
    hide Slots, PageTables.Inv, AllLast, TryToSwapOut;
    KeptTwice(s, held, usable, s1, s2);
    if !ok {
      ScanOutKept(s1, held, usable, c, tries + [(d, p)]);
      KeptTwice(s, held, usable, s1, ScanOut(s1, c, tries + [(d, p)]).0);
    }
  }

  /** swap_out keeps the counts, the slots, and everything that is not clean. */
  lemma SwapOutInv(s: Paging, held: multiset<PageNo>, usable: set<nat>)
    requires Inv(s, held, usable)
    ensures Kept(s, held, usable, SwapOut(s).0)
  {
    var (d, counter) := SkipAbsent(s.mem, s.dirEntry, VM_PAGES);
    var s1 := s.(dirEntry := d);
    CursorKept(s, held, usable, d, s.pageEntry);
    hide Slots, PageTables.Inv, AllLast;
    ScanOutKept(s1, held, usable, counter, []);
    KeptTwice(s, held, usable, s1, ScanOut(s1, counter, []).0);
  }

  /** No page of main memory is free. */
  ghost predicate NoneFree(m: Mem)
    requires Shape(m)
  {
    forall k :: 0 <= k < PAGING_PAGES ==> m.count[k] != 0
  }

  /** The allocator's promise: a cleared page that belonged to nobody, now held by the caller; or no page at
      all, and then none is free and nothing can be swapped out. */
  ghost predicate Got(s: Paging, held: multiset<PageNo>, usable: set<nat>, r: Paging, pn: PageNo) {
    true == (
      if pn == 0 then Kept(s, held, usable, r) && (forall k :: 0 <= k < PAGING_PAGES ==> r.mem.count[k] != 0)
      else
        && Kept(s, held + multiset{pn}, usable, r) && LOW_PAGES <= pn < r.mem.high && held[pn] == 0
        && Users(r.mem, pn) == {} && !IsTable(r.mem, pn) && r.mem.table[pn] == NoEntries())
  }

  lemma GotAfter(s: Paging, held: multiset<PageNo>, usable: set<nat>, q: Paging, r: Paging, pn: PageNo)
    requires Kept(s, held, usable, q) && Got(q, held, usable, r, pn)
    ensures Got(s, held, usable, r, pn)
  {
    var held' := if pn == 0 then held else held + multiset{pn};
    AllLastTwice(s, q, r);
    hide AllLast, Slots, PageTables.Inv;
    forall d: nat, i: nat | User(d, i) && !At(s.mem, d, i).Present?
      ensures At(r.mem, d, i) == At(s.mem, d, i)
    {
      assert At(q.mem, d, i) == At(s.mem, d, i);
    }
    assert Kept(s, held', usable, r);
  }

  lemma TakenKept(s: Paging, held: multiset<PageNo>, usable: set<nat>)
    requires Inv(s, held, usable) && GetFreePage(s.mem).1 != 0
    ensures var (m, pn) := GetFreePage(s.mem); Got(s, held, usable, s.(mem := m), pn)
  {
    GetFreePageInv(s.mem, held);
    var (m, pn) := GetFreePage(s.mem);
    var r := s.(mem := m);
    SlotsSame(s.mem, s.bits, usable, m);
    forall d: nat, i: nat | User(d, i)
      ensures LastsAt(s, d, i, r, d, i) && At(m, d, i) == At(s.mem, d, i)
    {
      assert Look(m, d, i) == Look(s.mem, d, i);
    }
    assert Users(m, pn) == Users(s.mem, pn);
  }

  lemma {:induction false} GetPageInv(s: Paging, held: multiset<PageNo>, usable: set<nat>)
    requires Inv(s, held, usable)
    ensures var (r, pn) := GetPage(s); Got(s, held, usable, r, pn)
    decreases Resident(s.mem)
  {
    GetFreePageInv(s.mem, held);
    if GetFreePage(s.mem).1 != 0 {
      TakenKept(s, held, usable);
      return;
    }
    SwapOutInv(s, held, usable);
    SwapOutBounded(s);
    var (s1, ok, _) := SwapOut(s);
    hide SwapOut, Slots, AllLast, PageTables.Inv;
    if ok {
      GetPageInv(s1, held, usable);
      GotAfter(s, held, usable, s1, GetPage(s1).0, GetPage(s1).1);
    }
  }

  // ------------------------------------------------------------- swapping in

  /** swap_in on entry `i` of the table in page `t`; true if it ran out of memory. */
  function SwapIn(s: Paging, t: PageNo, i: nat): (r: (Paging, bool))
    requires WellFormed(s) && i < ENTRIES && (s.mem.table[t][i].Swapped? ==> s.mem.table[t][i].slot < SWAP_BITS)
    ensures WellFormed(r.0)
  {
    var e := s.mem.table[t][i];
    if !s.on || !e.Swapped? then (s, false)
    else
      var (s1, pn) := GetPage(s);
      if pn == 0 then (s1, true)
      else
        var m := s1.mem.(data := s1.mem.data[pn := s1.disk[e.slot]]);
        (s1.(mem := Store(m, t, i, Present(pn, true, true)), bits := s1.bits[e.slot := true]), false)
  }

  /** A page the caller holds becomes the page of an entry that had none. */
  lemma InstallInv(m: Mem, held: multiset<PageNo>, d: nat, i: nat, pn: PageNo, f: Frame)
    requires PageTables.Inv(m, held + multiset{pn}) && held[pn] == 0 && LOW_PAGES <= pn < m.high
    requires Users(m, pn) == {} && !IsTable(m, pn) && User(d, i) && m.dir[d] != 0 && !At(m, d, i).Present?
        && |f| == PAGE_SIZE
    ensures var r := Store(m.(data := m.data[pn := f]), m.dir[d], i, Present(pn, true, true));
            PageTables.Inv(r, held) && OneEntry(m, r, d, i) && At(r, d, i) == Present(pn, true, true)
  {
    var m1 := m.(data := m.data[pn := f]);
    var r := Store(m1, m.dir[d], i, Present(pn, true, true));
    assert forall d': nat, i': nat :: User(d', i') ==> At(m1, d', i') == At(m, d', i');
    SameDirApart(m, m1);
    StoreAt(m1, d, i, Present(pn, true, true));
    var h := held + multiset{pn};
    assert h[pn] == 1 && forall p: PageNo :: p != pn ==> h[p] == held[p];
    assert forall d': nat, i': nat :: User(d', i') && At(m, d', i').Names(pn) ==> (d', i') in Users(m, pn);
    Replace(m, h, r, held, d, i);
  }

  /** swap_in puts the slot's contents in a page of its own and frees the slot; nothing that is not clean is lost. */
  lemma SwapInInv(s: Paging, held: multiset<PageNo>, usable: set<nat>, d: nat, i: nat)
    requires Inv(s, held, usable) && User(d, i) && s.mem.dir[d] != 0 && At(s.mem, d, i).Swapped?
    ensures At(s.mem, d, i).slot < SWAP_BITS
    ensures var (r, oom) := SwapIn(s, s.mem.dir[d], i);
            && Inv(r, held, usable) && AllLast(s, r)
            && (!oom ==> At(r.mem, d, i).Present? && At(r.mem, d, i).dirty && r.bits[At(s.mem, d, i).slot]
                         && Held(r, d, i) == Held(s, d, i) == Some(s.disk[At(s.mem, d, i).slot]))
            && (oom ==> forall k :: 0 <= k < PAGING_PAGES ==> r.mem.count[k] != 0)
  {
    var nr := At(s.mem, d, i).slot;
    SlotNamed(s, held, usable, d, i);
    GetPageInv(s, held, usable);
    var (s1, pn) := GetPage(s);
    if pn != 0 {
      SwapInPage(s, held, usable, d, i, s1, pn);
    }
  }

  lemma SwapInPage(s: Paging, held: multiset<PageNo>, usable: set<nat>, d: nat, i: nat, s1: Paging, pn: PageNo)
    requires Inv(s, held, usable) && User(d, i) && s.mem.dir[d] != 0 && At(s.mem, d, i).Swapped?
        && At(s.mem, d, i).slot < SWAP_BITS
    requires pn != 0 && Got(s, held, usable, s1, pn)
    ensures var nr := At(s.mem, d, i).slot;
            var m := s1.mem.(data := s1.mem.data[pn := s1.disk[nr]]);
            var r := s1.(mem := Store(m, s.mem.dir[d], i, Present(pn, true, true)), bits := s1.bits[nr := true]);
            && Inv(r, held, usable) && AllLast(s, r) && At(r.mem, d, i) == Present(pn, true, true)
            && Held(r, d, i) == Held(s, d, i) == Some(s.disk[nr])
  {
    var nr := At(s.mem, d, i).slot;
    var m := s1.mem.(data := s1.mem.data[pn := s1.disk[nr]]);
    var r := s1.(mem := Store(m, s.mem.dir[d], i, Present(pn, true, true)), bits := s1.bits[nr := true]);
    assert At(s1.mem, d, i) == Swapped(nr) && LastsAt(s, d, i, s1, d, i);
    InstallInv(s1.mem, held, d, i, pn, s1.disk[nr]);
    SlotNamed(s1, held + multiset{pn}, usable, d, i);
    hide PageTables.Inv;
    SlotsOneEntry(s1.mem, s1.bits, usable, r.mem, r.bits, d, i);
    hide Slots;
    InstalledLasts(s1, d, i, pn, nr, r);
    AllLastTwice(s, s1, r);
  }

  /** Filling an unused page disturbs no other entry. */
  lemma InstalledLasts(s: Paging, d: nat, i: nat, pn: PageNo, nr: nat, r: Paging)
    requires WellFormed(s) && WellFormed(r) && User(d, i) && At(s.mem, d, i) == Swapped(nr) && nr < SWAP_BITS
        && Users(s.mem, pn) == {}
    requires OneEntry(s.mem, r.mem, d, i) && At(r.mem, d, i) == Present(pn, true, true) && r.disk == s.disk
    requires r.mem.data == s.mem.data[pn := s.disk[nr]]
    ensures AllLast(s, r)
  {
    assert forall d1: nat, i1: nat :: User(d1, i1) ==> (At(s.mem, d1, i1).Names(pn) <==> (d1, i1) in Users(s.mem, pn));
    forall d1: nat, i1: nat | User(d1, i1)
      ensures LastsAt(s, d1, i1, r, d1, i1)
    {
    }
  }

  // --------------------------------------------------------- free_page_tables

  function FreeEntry(s: Paging, t: PageNo, i: nat): (r: Paging)
    requires WellFormed(s) && i < ENTRIES
    ensures WellFormed(r)
  {
    var e := s.mem.table[t][i];
    var s1 := match e
      case Absent => s
      case Present(pn, _, _) => s.(mem := FreePage(s.mem, pn))
      case Swapped(nr) => SwapFree(s, nr);
    s1.(mem := Store(s1.mem, t, i, Absent))
  }

  function FreeEntries(s: Paging, t: PageNo, i: nat): (r: Paging)
    requires WellFormed(s) && i <= ENTRIES
    ensures WellFormed(r)
    decreases |s.mem.table[t]| - i
  {
    if i == ENTRIES then s else FreeEntries(FreeEntry(s, t, i), t, i + 1)
  }

  function FreeDir(s: Paging, d: nat): (r: Paging)
    requires WellFormed(s) && d < DIRS
    ensures WellFormed(r)
  {
    if s.mem.dir[d] == 0 then s
    else
      var s1 := FreeEntries(s, s.mem.dir[d], 0);
      s1.(mem := ClearDir(s1.mem, d))
  }

  function FreeTables(s: Paging, d: nat, n: nat): (r: Paging)
    requires WellFormed(s) && d + n <= DIRS
    ensures WellFormed(r)
    decreases n
  {
    if n == 0 then s else FreeTables(FreeDir(s, d), d + 1, n - 1)
  }

  /** The entries from (d, i) on, within directory entry `d`, are empty in `r`; all others are as they were. */
  ghost predicate EntriesFreed(s: Paging, held: multiset<PageNo>, usable: set<nat>, d: nat, i: nat, r: Paging) {
    true == (
      && WellFormed(s) && Inv(r, held, usable) && r.mem.dir == s.mem.dir && r.mem.data == s.mem.data
      && r.mem.high == s.mem.high && r.disk == s.disk && r.on == s.on
      && (forall d': nat, i': nat {:trigger At(r.mem, d', i')} :: User(d', i') ==>
            At(r.mem, d', i') == if d' == d && i <= i' then Absent else At(s.mem, d', i')))
  }

  lemma FreeEntryInv(s: Paging, held: multiset<PageNo>, usable: set<nat>, d: nat, i: nat)
    requires Inv(s, held, usable) && User(d, i) && s.mem.dir[d] != 0
    ensures var r := FreeEntry(s, s.mem.dir[d], i);
            && Inv(r, held, usable) && r.mem.dir == s.mem.dir && r.mem.data == s.mem.data && r.mem.high == s.mem.high
            && r.disk == s.disk && r.on == s.on
            && (forall d': nat, i': nat {:trigger At(r.mem, d', i')} :: User(d', i') ==>
                  At(r.mem, d', i') == if d' == d && i' == i then Absent else At(s.mem, d', i'))
  {
    C.FreeEntryInv(s.mem, held, d, i);
    var r := FreeEntry(s, s.mem.dir[d], i);
    var e := At(s.mem, d, i);
    if e.Swapped? {
      SlotNamed(s, held, usable, d, i);
    }
    hide PageTables.Inv, TablesApart;
    SlotsOneEntry(s.mem, s.bits, usable, r.mem, r.bits, d, i);
  }

  lemma EntriesFreedStep(s: Paging, held: multiset<PageNo>, usable: set<nat>, d: nat, i: nat, q: Paging, r: Paging)
    requires WellFormed(s) && Inv(q, held, usable) && EntriesFreed(q, held, usable, d, i + 1, r)
    requires q.mem.dir == s.mem.dir && q.mem.data == s.mem.data && q.mem.high == s.mem.high && q.disk == s.disk
        && q.on == s.on
    requires forall d': nat, i': nat {:trigger At(q.mem, d', i')} :: User(d', i') ==>
               At(q.mem, d', i') == if d' == d && i' == i then Absent else At(s.mem, d', i')
    ensures EntriesFreed(s, held, usable, d, i, r)
  {
    hide Slots, PageTables.Inv, At;
    forall d': nat, i': nat | User(d', i')
      ensures At(r.mem, d', i') == if d' == d && i <= i' then Absent else At(s.mem, d', i')
    {
      assert At(r.mem, d', i') == if d' == d && i + 1 <= i' then Absent else At(q.mem, d', i');
      assert At(q.mem, d', i') == if d' == d && i' == i then Absent else At(s.mem, d', i');
    }
  }

  lemma {:induction false} FreeEntriesInv(s: Paging, held: multiset<PageNo>, usable: set<nat>, d: nat, i: nat)
    requires Inv(s, held, usable) && SLOT_DIRS <= d < DIRS && i <= ENTRIES && s.mem.dir[d] != 0
    ensures EntriesFreed(s, held, usable, d, i, FreeEntries(s, s.mem.dir[d], i))
    decreases ENTRIES - i
  {
    if i == ENTRIES {
      return;
    }
    FreeEntryInv(s, held, usable, d, i);
    var q := FreeEntry(s, s.mem.dir[d], i);
    hide Slots, PageTables.Inv, FreeEntry;
    FreeEntriesInv(q, held, usable, d, i + 1);
    EntriesFreedStep(s, held, usable, d, i, q, FreeEntries(q, s.mem.dir[d], i + 1));
  }

  /** The directory entries d..d+n are empty in `r`; everything else is exactly as it was. */
  ghost predicate Freed(s: Paging, held: multiset<PageNo>, usable: set<nat>, d: nat, n: nat, r: Paging) {
    true == (
      && WellFormed(s) && Inv(r, held, usable) && r.mem.data == s.mem.data && r.mem.high == s.mem.high
      && r.disk == s.disk && r.on == s.on
      && (forall d': nat :: SLOT_DIRS <= d' < DIRS ==> r.mem.dir[d'] == if d <= d' < d + n then 0 else s.mem.dir[d'])
      && (forall d': nat, i': nat {:trigger At(r.mem, d', i')} :: User(d', i') ==>
            At(r.mem, d', i') == if d <= d' < d + n then Absent else At(s.mem, d', i')))
  }

  lemma FreedStep(s: Paging, held: multiset<PageNo>, usable: set<nat>, d: nat, n: nat, q: Paging, r: Paging)
    requires n > 0 && Freed(s, held, usable, d, 1, q) && Freed(q, held, usable, d + 1, n - 1, r)
    ensures Freed(s, held, usable, d, n, r)
  {
    hide Slots, PageTables.Inv, At;
    forall d': nat, i': nat | User(d', i')
      ensures At(r.mem, d', i') == if d <= d' < d + n then Absent else At(s.mem, d', i')
    {
      assert At(r.mem, d', i') == if d + 1 <= d' < d + n then Absent else At(q.mem, d', i');
      assert At(q.mem, d', i') == if d' == d then Absent else At(s.mem, d', i');
    }
  }

  lemma FreeDirInv(s: Paging, held: multiset<PageNo>, usable: set<nat>, d: nat)
    requires Inv(s, held, usable) && SLOT_DIRS <= d < DIRS
    ensures Freed(s, held, usable, d, 1, FreeDir(s, d))
  {
    if s.mem.dir[d] == 0 {
      return;
    }
    FreeEntriesInv(s, held, usable, d, 0);
    var q := FreeEntries(s, s.mem.dir[d], 0);
    ClearDirInv(q.mem, held, d);
    var r := q.(mem := ClearDir(q.mem, d));
    hide PageTables.Inv;
    SlotsSame(q.mem, q.bits, usable, r.mem);
    hide Slots;
    DirFreed(s, held, usable, d, q, r);
  }

  lemma DirFreed(s: Paging, held: multiset<PageNo>, usable: set<nat>, d: nat, q: Paging, r: Paging)
    requires SLOT_DIRS <= d < DIRS && EntriesFreed(s, held, usable, d, 0, q) && Inv(r, held, usable)
    requires r.mem.dir == q.mem.dir[d := 0] && r.mem.data == q.mem.data && r.mem.high == q.mem.high && r.disk == q.disk
        && r.on == q.on
    requires forall d': nat, i': nat {:trigger At(r.mem, d', i')} :: User(d', i') ==>
        At(r.mem, d', i') == At(q.mem, d', i')
    ensures Freed(s, held, usable, d, 1, r)
  {
    hide Slots, PageTables.Inv, At;
    forall d': nat, i': nat | User(d', i')
      ensures At(r.mem, d', i') == if d' == d then Absent else At(s.mem, d', i')
    {
      assert At(r.mem, d', i') == At(q.mem, d', i');
    }
  }

  /** Freeing tables gives back every page and every slot they named, and nothing else. */
  lemma {:induction false} FreeTablesInv(s: Paging, held: multiset<PageNo>, usable: set<nat>, d: nat, n: nat)
    requires Inv(s, held, usable) && SLOT_DIRS <= d && d + n <= DIRS
    ensures Freed(s, held, usable, d, n, FreeTables(s, d, n))
    decreases n
  {
    if n == 0 {
      return;
    }
    FreeDirInv(s, held, usable, d);
    var q := FreeDir(s, d);
    hide Slots, PageTables.Inv, FreeDir, At;
    FreeTablesInv(q, held, usable, d + 1, n - 1);
    FreedStep(s, held, usable, d, n, q, FreeTables(q, d + 1, n - 1));
  }

  // ---------------------------------------------------------- copy_page_tables

  /** A swapped entry of the parent: the child takes over the slot, the parent gets a fresh copy of its contents. */
  function CopySwapped(s: Paging, ft: PageNo, tt: PageNo, i: nat): (r: (Paging, bool))
    requires WellFormed(s) && i < ENTRIES && s.mem.table[ft][i].Swapped? && s.mem.table[ft][i].slot < SWAP_BITS
    ensures WellFormed(r.0)
  {
    var e := s.mem.table[ft][i];
    var (s1, pn) := GetPage(s);
    if pn == 0 then (s1, false)
    else
      var m := s1.mem.(data := s1.mem.data[pn := s1.disk[e.slot]]);
      (s1.(mem := Store(Store(m, tt, i, e), ft, i, Present(pn, true, true))), true)
  }

  /** The inner loop of copy_page_tables; slot numbers beyond the swap space end it (no entry names one). */
  function CopyEntries(s: Paging, ft: PageNo, tt: PageNo, i: nat, n: nat): (r: (Paging, bool))
    requires WellFormed(s) && i <= n <= ENTRIES
    ensures WellFormed(r.0)
    decreases n - i
  {
    if i == n then (s, true)
    else
      match s.mem.table[ft][i]
      case Absent => CopyEntries(s, ft, tt, i + 1, n)
      case Present(_, _, _) => CopyEntries(s.(mem := C.CopyEntry(s.mem, ft, tt, i)), ft, tt, i + 1, n)
      case Swapped(nr) =>
        if nr >= SWAP_BITS then (s, false)
        else
          var (s1, ok) := CopySwapped(s, ft, tt, i);
          if ok then CopyEntries(s1, ft, tt, i + 1, n) else (s1, false)
  }

  function CopyDir(s: Paging, fd: nat, td: nat, span: nat): (r: (Paging, bool))
    requires WellFormed(s) && fd < DIRS && td < DIRS && span <= ENTRIES
    ensures WellFormed(r.0)
  {
    if s.mem.dir[td] != 0 then (s.(mem := s.mem.(panic := true)), false)
    else if s.mem.dir[fd] == 0 then (s, true)
    else
      var (s1, t) := GetPage(s);
      if t == 0 then (s1, false)
      else CopyEntries(s1.(mem := s1.mem.(dir := s1.mem.dir[td := t])), s.mem.dir[fd], t, 0, span)
  }

  function CopyTables(s: Paging, fd: nat, td: nat, n: nat, span: nat): (r: (Paging, bool))
    requires WellFormed(s) && fd + n <= DIRS && td + n <= DIRS && span <= ENTRIES
    ensures WellFormed(r.0)
    decreases n
  {
    if n == 0 then (s, true)
    else
      var (s1, ok) := CopyDir(s, fd, td, span);
      if ok then CopyTables(s1, fd + 1, td + 1, n - 1, span) else (s1, false)
  }

  /** copy_mem: a copy that runs out of memory is freed again. */
  function CopyMem(s: Paging, fd: nat, td: nat, n: nat): (r: (Paging, bool))
    requires WellFormed(s) && fd + n <= DIRS && td + n <= DIRS
    ensures WellFormed(r.0)
  {
    var (s1, ok) := CopyTables(s, fd, td, n, if fd == 0 then 0xA0 else ENTRIES);
    if ok then (s1, true) else (FreeTables(s1, td, n), false)
  }

  lemma LastsTwice(s: Paging, d: nat, i: nat, q: Paging, d1: nat, i1: nat, r: Paging, d2: nat, i2: nat)
    requires WellFormed(s) && WellFormed(q) && WellFormed(r) && User(d, i) && User(d1, i1) && User(d2, i2)
    requires LastsAt(s, d, i, q, d1, i1) && LastsAt(q, d1, i1, r, d2, i2)
    ensures LastsAt(s, d, i, r, d2, i2)
  {
  }

  /** Entry `i` has been copied: the child's stands for what the parent's stood for, everything else lasts. */
  ghost predicate EntryCopied(s: Paging, held: multiset<PageNo>, usable: set<nat>, fd: nat, td: nat, i: nat,
      r: Paging) {
    true == (
      && WellFormed(s) && Inv(r, held, usable) && r.mem.dir == s.mem.dir && r.mem.high == s.mem.high && User(fd, i)
      && User(td, i)
      && (forall d: nat, j: nat {:trigger At(r.mem, d, j)} :: User(d, j) && !(d == td && j == i) ==>
          LastsAt(s, d, j, r, d, j))
      && LastsAt(s, fd, i, r, td, i))
  }

  /** Two entries changed and neither names a slot before or after. */
  lemma SlotsNoSwap(m: Mem, bits: seq<bool>, usable: set<nat>, r: Mem)
    requires Shape(m) && Shape(r) && Slots(m, bits, usable)
    requires forall d: nat, i: nat {:trigger At(r, d, i)} :: User(d, i) ==>
        At(r, d, i) == At(m, d, i) || (!At(r, d, i).Swapped? && !At(m, d, i).Swapped?)
    ensures Slots(r, bits, usable)
  {
    forall n: nat
      ensures SlotUsers(r, n) == SlotUsers(m, n)
    {
      assert forall d: nat, i: nat :: User(d, i) ==> (At(r, d, i) == Swapped(n) <==> At(m, d, i) == Swapped(n));
    }
  }

  lemma CopyPresentInv(s: Paging, held: multiset<PageNo>, usable: set<nat>, fd: nat, td: nat, i: nat)
    requires Inv(s, held, usable) && User(fd, i) && User(td, i) && fd != td && InSlot(fd) == InSlot(td)
    requires s.mem.dir[fd] != 0 && s.mem.dir[td] != 0 && At(s.mem, fd, i).Present? && At(s.mem, td, i) == Absent
    ensures EntryCopied(s, held, usable, fd, td, i, s.(mem := C.CopyEntry(s.mem, s.mem.dir[fd], s.mem.dir[td], i)))
  {
    C.CopyEntryInv(s.mem, held, fd, td, i);
    var r := s.(mem := C.CopyEntry(s.mem, s.mem.dir[fd], s.mem.dir[td], i));
    hide PageTables.Inv;
    SlotsNoSwap(s.mem, s.bits, usable, r.mem);
    hide Slots;
    forall d: nat, j: nat | User(d, j) && !(d == td && j == i)
      ensures LastsAt(s, d, j, r, d, j)
    {
    }
  }

  lemma CopySwappedInv(s: Paging, held: multiset<PageNo>, usable: set<nat>, fd: nat, td: nat, i: nat)
    requires Inv(s, held, usable) && User(fd, i) && User(td, i) && fd != td
    requires s.mem.dir[fd] != 0 && s.mem.dir[td] != 0 && At(s.mem, fd, i).Swapped? && At(s.mem, fd, i).slot < SWAP_BITS
        && At(s.mem, td, i) == Absent
    ensures var (r, ok) := CopySwapped(s, s.mem.dir[fd], s.mem.dir[td], i);
            && (ok ==> EntryCopied(s, held, usable, fd, td, i, r))
            && (!ok ==> Kept(s, held, usable, r) && NoneFree(r.mem))
  {
    GetPageInv(s, held, usable);
    var (s1, pn) := GetPage(s);
    if pn != 0 {
      CopySwappedPage(s, held, usable, fd, td, i, s1, pn);
    }
  }

  lemma StoreBoth(m: Mem, ft: PageNo, tt: PageNo, i: nat, e: Entry, e': Entry)
    requires Shape(m) && i < ENTRIES && ft != tt
    ensures Store(Store(m, tt, i, e), ft, i, e') == Store(Store(m, ft, i, e'), tt, i, e)
  {
    assert Store(Store(m, tt, i, e), ft, i, e').table == Store(Store(m, ft, i, e'), tt, i, e).table;
  }

  lemma CopySwappedPage(s: Paging, held: multiset<PageNo>, usable: set<nat>, fd: nat, td: nat, i: nat, s1: Paging,
      pn: PageNo)
    requires Inv(s, held, usable) && User(fd, i) && User(td, i) && fd != td
    requires s.mem.dir[fd] != 0 && s.mem.dir[td] != 0 && At(s.mem, fd, i).Swapped? && At(s.mem, fd, i).slot < SWAP_BITS
        && At(s.mem, td, i) == Absent
    requires pn != 0 && Got(s, held, usable, s1, pn)
    ensures var e := At(s.mem, fd, i);
            var m := s1.mem.(data := s1.mem.data[pn := s1.disk[e.slot]]);
            EntryCopied(s, held, usable, fd, td, i, s1.(mem :=
                Store(Store(m, s.mem.dir[td], i, e), s.mem.dir[fd], i, Present(pn, true, true))))
  {
    var nr := At(s.mem, fd, i).slot;
    var e := Swapped(nr);
    var m := s1.mem.(data := s1.mem.data[pn := s1.disk[nr]]);
    assert At(s1.mem, fd, i) == e && At(s1.mem, td, i) == Absent;
    assert Apart(s1.mem, fd, td);
    StoreBoth(m, s.mem.dir[fd], s.mem.dir[td], i, e, Present(pn, true, true));
    var q := s1.(mem := Store(m, s.mem.dir[fd], i, Present(pn, true, true)), bits := s1.bits[nr := true]);
    SwapInPage(s, held, usable, fd, i, s1, pn);
    InstallInv(s1.mem, held, fd, i, pn, s1.disk[nr]);
    assert At(q.mem, td, i) == Absent;
    var r := s1.(mem := Store(q.mem, s.mem.dir[td], i, e));
    assert LastsAt(s, fd, i, s1, fd, i);
    SlotNamed(s1, held + multiset{pn}, usable, fd, i);
    assert s1.bits == q.bits[nr := false];
    hide Got;
    GiveSlot(s, q, held, usable, fd, td, i, nr, r);
  }

  /** The slot just freed goes to the child's empty entry. */
  lemma GiveSlot(s: Paging, q: Paging, held: multiset<PageNo>, usable: set<nat>, fd: nat, td: nat, i: nat, nr: nat,
      r: Paging)
    requires WellFormed(s) && Inv(q, held, usable) && AllLast(s, q) && q.mem.dir == s.mem.dir
        && q.mem.high == s.mem.high
    requires User(fd, i) && User(td, i) && fd != td && q.mem.dir[td] != 0 && At(q.mem, td, i) == Absent
    requires At(s.mem, fd, i) == Swapped(nr) && nr < SWAP_BITS && q.bits[nr] && Held(q, fd, i) == Held(s, fd, i)
        && q.disk[nr] == s.disk[nr]
    requires r == q.(mem := Store(q.mem, q.mem.dir[td], i, Swapped(nr)), bits := q.bits[nr := false])
    ensures EntryCopied(s, held, usable, fd, td, i, r)
  {
    StoreAt(q.mem, td, i, Swapped(nr));
    Replace(q.mem, held, r.mem, held, td, i);
    hide PageTables.Inv;
    SlotsOneEntry(q.mem, q.bits, usable, r.mem, r.bits, td, i);
    hide Slots;
    forall d: nat, j: nat | User(d, j) && !(d == td && j == i)
      ensures LastsAt(s, d, j, r, d, j)
    {
      assert LastsAt(s, d, j, q, d, j);
    }
  }

  /** What the copy of entries i..n has done when it ends: the child's entries stand for what the parent's did,
      and everything but the child's table lasts; it stops early only when no page is free. */
  ghost predicate EntriesCopied(s: Paging, held: multiset<PageNo>, usable: set<nat>, fd: nat, td: nat, i: nat,
      r: Paging, ok: bool) {
    true == (
      && WellFormed(s) && Inv(r, held, usable) && r.mem.dir == s.mem.dir && r.mem.high == s.mem.high
      && SLOT_DIRS <= fd < DIRS && SLOT_DIRS <= td < DIRS
      && (forall d: nat, j: nat {:trigger At(r.mem, d, j)} :: User(d, j) && !(d == td && i <= j) ==>
          LastsAt(s, d, j, r, d, j))
      && (ok ==> forall j: nat {:trigger At(r.mem, td, j)} :: i <= j < ENTRIES ==> LastsAt(s, fd, j, r, td, j))
      && (!ok ==> NoneFree(r.mem)))
  }

  lemma EntriesCopiedEnd(s: Paging, held: multiset<PageNo>, usable: set<nat>, fd: nat, td: nat)
    requires Inv(s, held, usable) && SLOT_DIRS <= fd < DIRS && SLOT_DIRS <= td < DIRS
    ensures EntriesCopied(s, held, usable, fd, td, ENTRIES, s, true)
  {
    hide Slots, PageTables.Inv;
    forall d: nat, j: nat | User(d, j)
      ensures LastsAt(s, d, j, s, d, j)
    {
    }
  }

  /** A skipped entry: nothing to copy. */
  lemma EntriesCopiedSkip(s: Paging, held: multiset<PageNo>, usable: set<nat>, fd: nat, td: nat, i: nat, r: Paging,
      ok: bool)
    requires i < ENTRIES && EntriesCopied(s, held, usable, fd, td, i + 1, r, ok)
    requires At(s.mem, fd, i) == Absent && At(s.mem, td, i) == Absent
    ensures EntriesCopied(s, held, usable, fd, td, i, r, ok)
  {
    hide Slots, PageTables.Inv;
    var x := At(r.mem, td, i);
    assert LastsAt(s, td, i, r, td, i) && x == Absent;
    forall d: nat, j: nat | User(d, j) && !(d == td && i <= j)
      ensures LastsAt(s, d, j, r, d, j)
    {
      var y := At(r.mem, d, j);
    }
    forall j: nat | ok && i <= j < ENTRIES
      ensures LastsAt(s, fd, j, r, td, j)
    {
      var y := At(r.mem, td, j);
    }
    hide At, Held, Lasts;
  }

  lemma EntriesCopiedStep(s: Paging, held: multiset<PageNo>, usable: set<nat>, fd: nat, td: nat, i: nat, q: Paging,
      r: Paging, ok: bool)
    requires i < ENTRIES && fd != td && EntryCopied(s, held, usable, fd, td, i, q)
        && EntriesCopied(q, held, usable, fd, td, i + 1, r, ok)
    ensures EntriesCopied(s, held, usable, fd, td, i, r, ok)
  {
    hide Slots, PageTables.Inv, At, Held, Lasts;
    forall d: nat, j: nat | User(d, j) && !(d == td && i <= j)
      ensures LastsAt(s, d, j, r, d, j)
    {
      assert LastsAt(s, d, j, q, d, j) by {
        var x := At(q.mem, d, j);
      }
      assert LastsAt(q, d, j, r, d, j) by {
        var x := At(r.mem, d, j);
      }
      LastsTwice(s, d, j, q, d, j, r, d, j);
    }
    forall j: nat | ok && i <= j < ENTRIES
      ensures LastsAt(s, fd, j, r, td, j)
    {
      var x := At(r.mem, td, j);
      if j == i {
        LastsTwice(s, fd, i, q, td, i, r, td, i);
      } else {
        var y := At(q.mem, fd, j);
        LastsTwice(s, fd, j, q, fd, j, r, td, j);
      }
    }
  }

  /** Running out of memory at entry `i`. */
  lemma EntriesCopiedStop(s: Paging, held: multiset<PageNo>, usable: set<nat>, fd: nat, td: nat, i: nat, r: Paging)
    requires Kept(s, held, usable, r) && SLOT_DIRS <= fd < DIRS && SLOT_DIRS <= td < DIRS && NoneFree(r.mem)
    ensures EntriesCopied(s, held, usable, fd, td, i, r, false)
  {
    hide Slots, PageTables.Inv;
  }

  lemma StillEmpty(s: Paging, held: multiset<PageNo>, usable: set<nat>, fd: nat, td: nat, i: nat, q: Paging)
    requires EntryCopied(s, held, usable, fd, td, i, q) && forall j: nat :: i <= j < ENTRIES ==>
        At(s.mem, td, j) == Absent
    ensures WellFormed(q) && q.mem.dir == s.mem.dir && Inv(q, held, usable) && forall j: nat :: i < j < ENTRIES ==>
        At(q.mem, td, j) == Absent
  {
    hide Slots, PageTables.Inv;
    forall j: nat | i < j < ENTRIES
      ensures At(q.mem, td, j) == Absent
    {
      assert LastsAt(s, td, j, q, td, j);
    }
  }

  lemma {:induction false} CopyEntriesInv(s: Paging, held: multiset<PageNo>, usable: set<nat>, fd: nat, td: nat, i: nat)
    requires Inv(s, held, usable) && SLOT_DIRS <= fd < DIRS && SLOT_DIRS <= td < DIRS && i <= ENTRIES
    requires fd != td && InSlot(fd) == InSlot(td) && s.mem.dir[fd] != 0 && s.mem.dir[td] != 0
    requires forall j: nat :: i <= j < ENTRIES ==> At(s.mem, td, j) == Absent
    ensures var (r, ok) := CopyEntries(s, s.mem.dir[fd], s.mem.dir[td], i, ENTRIES);
            EntriesCopied(s, held, usable, fd, td, i, r, ok)
    decreases ENTRIES - i
  {
    var ft, tt := s.mem.dir[fd], s.mem.dir[td];
    if i == ENTRIES {
      EntriesCopiedEnd(s, held, usable, fd, td);
      return;
    }
    var e := At(s.mem, fd, i);
    if e == Absent {
      CopyEntriesInv(s, held, usable, fd, td, i + 1);
      EntriesCopiedSkip(s, held, usable, fd, td, i, CopyEntries(s, ft, tt, i + 1, ENTRIES).0,
          CopyEntries(s, ft, tt, i + 1, ENTRIES).1);
      return;
    }
    if e.Swapped? {
      SlotNamed(s, held, usable, fd, i);
      CopySwappedInv(s, held, usable, fd, td, i);
      if !CopySwapped(s, ft, tt, i).1 {
        EntriesCopiedStop(s, held, usable, fd, td, i, CopySwapped(s, ft, tt, i).0);
        return;
      }
    } else {
      CopyPresentInv(s, held, usable, fd, td, i);
    }
    var q := if e.Present? then s.(mem := C.CopyEntry(s.mem, ft, tt, i)) else CopySwapped(s, ft, tt, i).0;
    hide Slots, PageTables.Inv, CopySwapped, C.CopyEntry;
    StillEmpty(s, held, usable, fd, td, i, q);
    CopyEntriesInv(q, held, usable, fd, td, i + 1);
    EntriesCopiedStep(s, held, usable, fd, td, i, q, CopyEntries(q, ft, tt, i + 1, ENTRIES).0,
        CopyEntries(q, ft, tt, i + 1, ENTRIES).1);
  }

  /** The child's entry stands for what the parent's stood for. */
  ghost predicate ChildLasts(s: Paging, fd: nat, td: nat, r: Paging, d: nat, j: nat)
    requires WellFormed(s) && WellFormed(r) && td <= d && User(fd + (d - td), j) && User(d, j)
  {
    LastsAt(s, fd + (d - td), j, r, d, j)
  }

  /** What a run of copied directory entries guarantees; a run that stops early leaves a partial copy and no free
      page. */
  ghost predicate TablesCopied(s: Paging, held: multiset<PageNo>, usable: set<nat>, fd: nat, td: nat, n: nat, r: Paging,
      ok: bool) {
    true == (
      && WellFormed(s) && Inv(r, held, usable) && r.mem.high == s.mem.high
      && SLOT_DIRS <= fd && SLOT_DIRS <= td && fd + n <= DIRS && td + n <= DIRS
      && (forall d: nat :: SLOT_DIRS <= d < DIRS && !(td <= d < td + n) ==> r.mem.dir[d] == s.mem.dir[d])
      && (forall d: nat, j: nat {:trigger At(r.mem, d, j)} :: User(d, j) && !(td <= d < td + n) ==>
          LastsAt(s, d, j, r, d, j))
      && (ok ==> forall d: nat, j: nat {:trigger ChildLasts(s, fd, td, r, d, j)} :: td <= d < td + n && j < ENTRIES ==>
          ChildLasts(s, fd, td, r, d, j))
      && (!ok ==> NoneFree(r.mem)))
  }

  lemma CopyDirInv(s: Paging, held: multiset<PageNo>, usable: set<nat>, fd: nat, td: nat)
    requires Inv(s, held, usable) && SLOT_DIRS <= fd < DIRS && SLOT_DIRS <= td < DIRS
    requires fd != td && InSlot(fd) == InSlot(td) && s.mem.dir[td] == 0
    ensures var (r, ok) := CopyDir(s, fd, td, ENTRIES);
            TablesCopied(s, held, usable, fd, td, 1, r, ok)
  {
    if s.mem.dir[fd] == 0 {
      NothingCopied(s, held, usable, fd, td);
      return;
    }
    GetPageInv(s, held, usable);
    var (s1, t) := GetPage(s);
    if t == 0 {
      CopyDirStop(s, held, usable, fd, td, s1);
      return;
    }
    var q := s1.(mem := s1.mem.(dir := s1.mem.dir[td := t]));
    NewTable(s, held, usable, td, s1, t);
    var (r, ok) := CopyEntries(q, s.mem.dir[fd], t, 0, ENTRIES);
    CopyEntriesInv(q, held, usable, fd, td, 0);
    hide Slots, PageTables.Inv, At, GetPage, CopyEntries, Got;
    DirCopied(s, held, usable, fd, td, q, r, ok);
  }

  /** The page just taken becomes the empty table of the child. */
  lemma NewTable(s: Paging, held: multiset<PageNo>, usable: set<nat>, td: nat, s1: Paging, t: PageNo)
    requires Inv(s, held, usable) && SLOT_DIRS <= td < DIRS && s.mem.dir[td] == 0 && t != 0
        && Got(s, held, usable, s1, t)
    ensures var q := s1.(mem := s1.mem.(dir := s1.mem.dir[td := t]));
            && Inv(q, held, usable) && q.mem.dir == s.mem.dir[td := t] && q.mem.high == s.mem.high && AllLast(s, q)
            && (forall j: nat :: j < ENTRIES ==> At(q.mem, td, j) == Absent)
            && (forall d: nat, j: nat {:trigger At(q.mem, d, j)} :: User(d, j) ==> At(q.mem, d, j) == At(s1.mem, d, j))
  {
    var q := s1.(mem := s1.mem.(dir := s1.mem.dir[td := t]));
    SetDirInv(s1.mem, held, td, t);
    hide PageTables.Inv;
    SlotsSame(s1.mem, s1.bits, usable, q.mem);
    hide Slots;
    forall d: nat, j: nat | User(d, j)
      ensures LastsAt(s, d, j, q, d, j)
    {
      assert At(q.mem, d, j) == At(s1.mem, d, j) && LastsAt(s, d, j, s1, d, j);
    }
  }

  lemma NothingCopied(s: Paging, held: multiset<PageNo>, usable: set<nat>, fd: nat, td: nat)
    requires Inv(s, held, usable) && SLOT_DIRS <= fd < DIRS && SLOT_DIRS <= td < DIRS && s.mem.dir[fd] == 0
        && s.mem.dir[td] == 0
    ensures TablesCopied(s, held, usable, fd, td, 1, s, true)
  {
    hide Slots, PageTables.Inv;
    forall d: nat, j: nat | User(d, j)
      ensures LastsAt(s, d, j, s, d, j)
    {
    }
    forall d: nat, j: nat | td <= d < td + 1 && j < ENTRIES
      ensures ChildLasts(s, fd, td, s, d, j)
    {
    }
  }

  lemma CopyDirStop(s: Paging, held: multiset<PageNo>, usable: set<nat>, fd: nat, td: nat, r: Paging)
    requires Kept(s, held, usable, r) && SLOT_DIRS <= fd < DIRS && SLOT_DIRS <= td < DIRS && NoneFree(r.mem)
    ensures TablesCopied(s, held, usable, fd, td, 1, r, false)
  {
    hide Slots, PageTables.Inv;
  }

  lemma DirCopied(s: Paging, held: multiset<PageNo>, usable: set<nat>, fd: nat, td: nat, q: Paging, r: Paging, ok: bool)
    requires AllLast(s, q) && EntriesCopied(q, held, usable, fd, td, 0, r, ok) && |q.mem.dir| == |s.mem.dir| == DIRS
    requires q.mem.high == s.mem.high && forall d: nat :: d < DIRS && d != td ==> q.mem.dir[d] == s.mem.dir[d]
    ensures TablesCopied(s, held, usable, fd, td, 1, r, ok)
  {
    hide Slots, PageTables.Inv;
    forall d: nat, j: nat | User(d, j) && d != td
      ensures LastsAt(s, d, j, r, d, j)
    {
      var x := At(r.mem, d, j);
      assert LastsAt(s, d, j, q, d, j);
      LastsTwice(s, d, j, q, d, j, r, d, j);
    }
    forall d: nat, j: nat | ok && td <= d < td + 1 && j < ENTRIES
      ensures ChildLasts(s, fd, td, r, d, j)
    {
      var x := At(r.mem, td, j);
      assert LastsAt(s, fd, j, q, fd, j) && LastsAt(q, fd, j, r, td, j);
      LastsTwice(s, fd, j, q, fd, j, r, td, j);
    }
    hide At, Held, Lasts;
  }

  lemma TablesCopiedStep(s: Paging, held: multiset<PageNo>, usable: set<nat>, fd: nat, td: nat, n: nat, q: Paging,
      r: Paging, ok: bool)
    requires n > 0 && (fd + n <= td || td + n <= fd)
    requires TablesCopied(s, held, usable, fd, td, 1, q, true)
        && TablesCopied(q, held, usable, fd + 1, td + 1, n - 1, r, ok)
    ensures TablesCopied(s, held, usable, fd, td, n, r, ok)
  {
    hide Slots, PageTables.Inv, At, Held, Lasts;
    forall d: nat, j: nat | User(d, j) && !(td <= d < td + n)
      ensures LastsAt(s, d, j, r, d, j)
    {
      var x, y := At(q.mem, d, j), At(r.mem, d, j);
      LastsTwice(s, d, j, q, d, j, r, d, j);
    }
    forall d: nat, j: nat | ok && td <= d < td + n && j < ENTRIES
      ensures ChildLasts(s, fd, td, r, d, j)
    {
      var y := At(r.mem, d, j);
      if d == td {
        assert ChildLasts(s, fd, td, q, td, j);
        LastsTwice(s, fd, j, q, td, j, r, td, j);
      } else {
        var x := At(q.mem, fd + (d - td), j);
        assert fd + 1 + (d - (td + 1)) == fd + (d - td);
        assert ChildLasts(q, fd + 1, td + 1, r, d, j);
        LastsTwice(s, fd + (d - td), j, q, fd + (d - td), j, r, d, j);
      }
    }
  }

  lemma TablesCopiedNone(s: Paging, held: multiset<PageNo>, usable: set<nat>, fd: nat, td: nat)
    requires Inv(s, held, usable) && SLOT_DIRS <= fd <= DIRS && SLOT_DIRS <= td <= DIRS
    ensures TablesCopied(s, held, usable, fd, td, 0, s, true)
  {
    hide Slots, PageTables.Inv;
    forall d: nat, j: nat | User(d, j)
      ensures LastsAt(s, d, j, s, d, j)
    {
    }
  }

  lemma TablesCopiedStop(s: Paging, held: multiset<PageNo>, usable: set<nat>, fd: nat, td: nat, n: nat, r: Paging)
    requires n > 0 && TablesCopied(s, held, usable, fd, td, 1, r, false) && fd + n <= DIRS && td + n <= DIRS
    ensures TablesCopied(s, held, usable, fd, td, n, r, false)
  {
    hide Slots, PageTables.Inv;
    forall d: nat, j: nat | User(d, j) && !(td <= d < td + n)
      ensures LastsAt(s, d, j, r, d, j)
    {
      var x := At(r.mem, d, j);
    }
    hide At, Held, Lasts;
  }

  lemma TablesCopiedRest(s: Paging, held: multiset<PageNo>, usable: set<nat>, fd: nat, td: nat, n: nat, q: Paging)
    requires n > 0 && TablesCopied(s, held, usable, fd, td, 1, q, true) && td + n <= DIRS
        && forall d: nat :: td <= d < td + n ==> s.mem.dir[d] == 0
    ensures Inv(q, held, usable) && forall d: nat :: td + 1 <= d < td + n ==> q.mem.dir[d] == 0
  {
    hide Slots, PageTables.Inv, At, Held, Lasts;
  }

  lemma {:induction false} CopyTablesInv(s: Paging, held: multiset<PageNo>, usable: set<nat>, fd: nat, td: nat, n: nat)
    requires Inv(s, held, usable) && SLOT_DIRS <= fd && SLOT_DIRS <= td && fd + n <= DIRS && td + n <= DIRS
    requires (fd + n <= td || td + n <= fd) && InSlot(fd) == InSlot(td)
    requires forall d: nat :: td <= d < td + n ==> s.mem.dir[d] == 0
    ensures var (r, ok) := CopyTables(s, fd, td, n, ENTRIES);
            TablesCopied(s, held, usable, fd, td, n, r, ok)
    decreases n
  {
    if n == 0 {
      TablesCopiedNone(s, held, usable, fd, td);
      return;
    }
    CopyDirInv(s, held, usable, fd, td);
    var (q, ok1) := CopyDir(s, fd, td, ENTRIES);
    hide Slots, PageTables.Inv, CopyDir, TablesCopied;
    if !ok1 {
      TablesCopiedStop(s, held, usable, fd, td, n, q);
      return;
    }
    C.InSlotNext(fd, td);
    TablesCopiedRest(s, held, usable, fd, td, n, q);
    CopyTablesInv(q, held, usable, fd + 1, td + 1, n - 1);
    var (r, ok) := CopyTables(q, fd + 1, td + 1, n - 1, ENTRIES);
    TablesCopiedStep(s, held, usable, fd, td, n, q, r, ok);
  }

  /** fork with swapped entries: slots and counts stay balanced, the child's entries stand for what the parent's
      stood for, no other task loses anything that is not clean; a fork that fails found no free page, and leaves no
      trace in its range. */
  ghost predicate Forked(s: Paging, held: multiset<PageNo>, usable: set<nat>, fd: nat, td: nat, n: nat, r: Paging,
      ok: bool) {
    true == (
      && WellFormed(s) && Inv(r, held, usable) && SLOT_DIRS <= fd && SLOT_DIRS <= td && fd + n <= DIRS && td + n <= DIRS
      && (forall d: nat, j: nat {:trigger At(r.mem, d, j)} :: User(d, j) && !(td <= d < td + n) ==>
          LastsAt(s, d, j, r, d, j))
      && (ok ==> forall d: nat, j: nat {:trigger ChildLasts(s, fd, td, r, d, j)} :: td <= d < td + n && j < ENTRIES ==>
          ChildLasts(s, fd, td, r, d, j))
      && (!ok ==>
            && (forall d: nat :: td <= d < td + n ==> r.mem.dir[d] == 0)
            && exists q: Paging :: Freed(q, held, usable, td, n, r) && NoneFree(q.mem)))
  }

  lemma ForkInv(s: Paging, held: multiset<PageNo>, usable: set<nat>, fd: nat, td: nat, n: nat)
    requires Inv(s, held, usable) && SLOT_DIRS <= fd && SLOT_DIRS <= td && fd + n <= DIRS && td + n <= DIRS
    requires (fd + n <= td || td + n <= fd) && InSlot(fd) == InSlot(td)
    requires forall d: nat :: td <= d < td + n ==> s.mem.dir[d] == 0
    ensures var (r, ok) := CopyMem(s, fd, td, n);
            Forked(s, held, usable, fd, td, n, r, ok)
  {
    CopyTablesInv(s, held, usable, fd, td, n);
    var (q, ok) := CopyTables(s, fd, td, n, ENTRIES);
    if ok {
      ForkDone(s, held, usable, fd, td, n, q);
    } else {
      FreeTablesInv(q, held, usable, td, n);
      ForkFailed(s, held, usable, fd, td, n, q, FreeTables(q, td, n));
    }
  }

  lemma ForkDone(s: Paging, held: multiset<PageNo>, usable: set<nat>, fd: nat, td: nat, n: nat, r: Paging)
    requires TablesCopied(s, held, usable, fd, td, n, r, true)
    ensures Forked(s, held, usable, fd, td, n, r, true)
  {
    hide Slots, PageTables.Inv;
    forall d: nat, j: nat | User(d, j) && !(td <= d < td + n)
      ensures LastsAt(s, d, j, r, d, j)
    {
      var x := At(r.mem, d, j);
    }
    forall d: nat, j: nat | td <= d < td + n && j < ENTRIES
      ensures ChildLasts(s, fd, td, r, d, j)
    {
    }
    hide At, Held, Lasts;
  }

  lemma ForkFailed(s: Paging, held: multiset<PageNo>, usable: set<nat>, fd: nat, td: nat, n: nat, q: Paging, r: Paging)
    requires TablesCopied(s, held, usable, fd, td, n, q, false) && Freed(q, held, usable, td, n, r)
    ensures Forked(s, held, usable, fd, td, n, r, false)
  {
    hide Slots, PageTables.Inv;
    forall d: nat, j: nat | User(d, j) && !(td <= d < td + n)
      ensures LastsAt(s, d, j, r, d, j)
    {
      var x, y := At(q.mem, d, j), At(r.mem, d, j);
      assert LastsAt(s, d, j, q, d, j) && At(r.mem, d, j) == At(q.mem, d, j);
    }
    hide At, Held, Lasts;
  }
}

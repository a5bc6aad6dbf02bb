/**
 Write faults of 0.12, where get_free_page may swap out: un_wp_page looks at the entry, gets a page,
 and goes on as if the entry had not changed meanwhile.
*/
module SwapFaults {
  import opened PageTables
  import opened Swap
  import C = CowPaging

  /** un_wp_page with the page it got: the old page loses one count, the new one takes its place in the entry. */
  function CopyOver(s: Paging, t: PageNo, i: nat, orig: PageNo, copy: PageNo): (r: Paging)
    requires WellFormed(s) && i < ENTRIES
    ensures WellFormed(r)
  {
    var m := if LOW_PAGES <= orig then s.mem.(count := s.mem.count[orig - LOW_PAGES :=
        (s.mem.count[orig - LOW_PAGES] + 255) % 256]) else s.mem;
    var m1 := Store(m, t, i, Present(copy, true, false));
    s.(mem := m1.(data := m1.data[copy := m1.data[orig]]))
  }

  /** un_wp_page on entry `i` of the table in page `t`; false if it ran out of memory. */
  function UnWp(s: Paging, t: PageNo, i: nat): (r: (Paging, bool))
    requires WellFormed(s) && i < ENTRIES && s.mem.table[t][i].Present?
    ensures WellFormed(r.0)
  {
    var orig := s.mem.table[t][i].page;
    if LOW_PAGES <= orig && s.mem.count[orig - LOW_PAGES] == 1 then
      (s.(mem := Store(s.mem, t, i, s.mem.table[t][i].(rw := true))), true)
    else
      var (s1, copy) := GetPage(s);
      if copy == 0 then (s1, false) else (CopyOver(s1, t, i, orig, copy), true)
  }

  /** Swapping out leaves an entry alone or takes its page, which is one of main memory. */
  ghost predicate Shed(s: Paging, r: Paging) {
    true == (
      && WellFormed(s) && WellFormed(r) && r.mem.dir == s.mem.dir
      && (forall d: nat, i: nat {:trigger At(r.mem, d, i)} :: User(d, i) ==>
            At(r.mem, d, i) == At(s.mem, d, i) || (!At(r.mem, d, i).Present? && At(s.mem, d, i).Present?
                && LOW_PAGES <= At(s.mem, d, i).page)))
  }

  lemma SwapOutSheds(s: Paging, held: multiset<PageNo>, usable: set<nat>)
    requires Swap.Inv(s, held, usable)
    ensures Shed(s, SwapOut(s).0)
  {
    SwapOutTook(s);
    var (r, ok, tries) := SwapOut(s);
    hide SwapOut, PageTables.Inv, Slots;
    if ok {
      var (d, i) := tries[|tries| - 1];
      TryOne(s, held, usable, d, i, r);
    }
  }

  lemma TryOne(s: Paging, held: multiset<PageNo>, usable: set<nat>, d: nat, i: nat, r: Paging)
    requires Swap.Inv(s, held, usable) && User(d, i) && s.mem.dir[d] != 0 && FIRST_DIR <= r.dirEntry < DIRS
        && -1 <= r.pageEntry < ENTRIES
    requires TryToSwapOut(s.(dirEntry := r.dirEntry, pageEntry := r.pageEntry), s.mem.dir[d], i) == (r, true)
    ensures Shed(s, r)
  {
    var e := if At(s.mem, d, i).dirty then Swapped(GetSwapPage(s).1) else Absent;
    StoreAt(s.mem, d, i, e);
  }

  lemma {:induction false} GetPageSheds(s: Paging, held: multiset<PageNo>, usable: set<nat>)
    requires Swap.Inv(s, held, usable)
    ensures Shed(s, GetPage(s).0)
    decreases Resident(s.mem)
  {
    if GetFreePage(s.mem).1 != 0 {
      TakenKept(s, held, usable);
      hide PageTables.Inv, Slots, AllLast;
      return;
    }
    SwapOutSheds(s, held, usable);
    SwapOutInv(s, held, usable);
    SwapOutBounded(s);
    var (s1, ok, _) := SwapOut(s);
    hide SwapOut, PageTables.Inv, Slots, AllLast;
    if ok {
      GetPageSheds(s1, held, usable);
    }
  }

  /** What the invariant says of one page. */
  lemma CountOf(s: Paging, held: multiset<PageNo>, usable: set<nat>, pn: PageNo)
    requires Swap.Inv(s, held, usable) && LOW_PAGES <= pn
    ensures WellFormed(s) && TablesApart(s.mem)
    ensures s.mem.count[pn - LOW_PAGES] == |Users(s.mem, pn)| + (if IsTable(s.mem, pn) then 1 else 0) + held[pn]
  {
  }

  lemma StoredOver(s: Paging, d: nat, i: nat, orig: PageNo, copy: PageNo)
    requires WellFormed(s) && TablesApart(s.mem) && User(d, i) && s.mem.dir[d] != 0
    ensures var r := CopyOver(s, s.mem.dir[d], i, orig, copy);
            && OneEntry(s.mem, r.mem, d, i) && At(r.mem, d, i) == Present(copy, true, false)
            && r.mem.data == s.mem.data[copy := s.mem.data[orig]]
  {
    StoreAt(s.mem, d, i, Present(copy, true, false));
    assert CopyOver(s, s.mem.dir[d], i, orig, copy).mem.table ==
        Store(s.mem, s.mem.dir[d], i, Present(copy, true, false)).table;
  }

  lemma CopyOverPages(s: Paging, held: multiset<PageNo>, d: nat, i: nat, copy: PageNo)
    requires WellFormed(s) && PageTables.Inv(s.mem, held + multiset{copy}) && held[copy] == 0
        && LOW_PAGES <= copy < s.mem.high
    requires Users(s.mem, copy) == {} && !IsTable(s.mem, copy) && User(d, i) && At(s.mem, d, i).Present?
    ensures PageTables.Inv(CopyOver(s, s.mem.dir[d], i, At(s.mem, d, i).page, copy).mem, held)
  {
    var orig := At(s.mem, d, i).page;
    var h := held + multiset{copy};
    assert h[copy] == 1 && forall p: PageNo :: p != copy ==> h[p] == held[p];
    assert (d, i) in Users(s.mem, orig);
    if LOW_PAGES <= orig {
      CountBounded(s.mem, h, orig);
    }
    var r := CopyOver(s, s.mem.dir[d], i, orig, copy);
    StoredOver(s, d, i, orig, copy);
    forall d': nat, i': nat | User(d', i')
      ensures !At(s.mem, d', i').Names(copy)
    {
      assert (d', i') !in Users(s.mem, copy);
    }
    Replace(s.mem, h, r.mem, held, d, i);
  }

  /** The page in the entry is replaced by a copy. */
  lemma CopyOverInv(s: Paging, held: multiset<PageNo>, usable: set<nat>, d: nat, i: nat, copy: PageNo)
    requires Swap.Inv(s, held + multiset{copy}, usable) && held[copy] == 0 && LOW_PAGES <= copy < s.mem.high
    requires Users(s.mem, copy) == {} && !IsTable(s.mem, copy) && User(d, i) && At(s.mem, d, i).Present?
    ensures var orig := At(s.mem, d, i).page;
            var r := CopyOver(s, s.mem.dir[d], i, orig, copy);
            && Swap.Inv(r, held, usable) && OneEntry(s.mem, r.mem, d, i)
            && At(r.mem, d, i) == Present(copy, true, false)
            && r.mem.data == s.mem.data[copy := s.mem.data[orig]]
  {
    hide PageTables.Inv, Users, IsTable, Slots;
    CopyOverPages(s, held, d, i, copy);
    CountOf(s, held + multiset{copy}, usable, copy);
    StoredOver(s, d, i, At(s.mem, d, i).page, copy);
    var r := CopyOver(s, s.mem.dir[d], i, At(s.mem, d, i).page, copy);
    SlotsNoSwap(s.mem, s.bits, usable, r.mem);
  }

  /** The entry has lost its page to swap_out: the old page is discounted a second time. */
  lemma StaleCopy(s: Paging, held: multiset<PageNo>, usable: set<nat>, d: nat, i: nat, orig: PageNo, copy: PageNo)
    requires Swap.Inv(s, held + multiset{copy}, usable) && held[copy] == 0 && User(d, i) && s.mem.dir[d] != 0
    requires !At(s.mem, d, i).Present? && LOW_PAGES <= orig
    ensures !Swap.Inv(CopyOver(s, s.mem.dir[d], i, orig, copy), held, usable)
  {
    hide Swap.Inv, Users, IsTable, OneEntry, At;
    CountOf(s, held + multiset{copy}, usable, orig);
    var r := CopyOver(s, s.mem.dir[d], i, orig, copy);
    StoredOver(s, d, i, orig, copy);
    OneEntryUsers(s.mem, r.mem, d, i, orig);
    if Swap.Inv(r, held, usable) {
      CountOf(r, held, usable, orig);
      assert false;
    }
  }

  /** A page with one user only becomes writable again. */
  lemma UnWpPrivate(s: Paging, held: multiset<PageNo>, usable: set<nat>, d: nat, i: nat)
    requires Swap.Inv(s, held, usable) && User(d, i) && s.mem.dir[d] != 0 && At(s.mem, d, i).Present?
    requires LOW_PAGES <= At(s.mem, d, i).page && s.mem.count[At(s.mem, d, i).page - LOW_PAGES] == 1
    ensures var (r, ok) := UnWp(s, s.mem.dir[d], i);
            ok && Swap.Inv(r, held, usable) && AllLast(s, r) && At(r.mem, d, i) == At(s.mem, d, i).(rw := true)
  {
    C.UnWpPrivate(s.mem, held, d, i);
    var r := UnWp(s, s.mem.dir[d], i).0;
    hide PageTables.Inv;
    SlotsNoSwap(s.mem, s.bits, usable, r.mem);
    hide Slots;
    forall d1: nat, i1: nat | User(d1, i1)
      ensures LastsAt(s, d1, i1, r, d1, i1)
    {
    }
  }

  /** Every user entry but (d, i) lasts. */
  ghost predicate OthersLast(s: Paging, d: nat, i: nat, r: Paging) {
    && WellFormed(s) && WellFormed(r)
    && (forall d1: nat, i1: nat {:trigger LastsAt(s, d1, i1, r, d1, i1)} ::
          User(d1, i1) && !(d1 == d && i1 == i) ==> LastsAt(s, d1, i1, r, d1, i1))
  }

  /** Everything but the copied entry lasts; that one has its bytes, and lasts unless it was dirty. */
  lemma CopyLasts(s: Paging, s1: Paging, held: multiset<PageNo>, usable: set<nat>, d: nat, i: nat, copy: PageNo,
      r: Paging)
    requires AllLast(s, s1) && User(d, i) && At(s.mem, d, i).Present? && At(s1.mem, d, i) == At(s.mem, d, i)
        && Users(s1.mem, copy) == {}
    requires WellFormed(r) && OneEntry(s1.mem, r.mem, d, i) && At(r.mem, d, i) == Present(copy, true, false)
        && r.disk == s1.disk
    requires r.mem.data == s1.mem.data[copy := s1.mem.data[At(s.mem, d, i).page]]
    ensures OthersLast(s, d, i, r)
    ensures Held(r, d, i) == Held(s, d, i) && (LastsAt(s, d, i, r, d, i) <==> !At(s.mem, d, i).dirty)
  {
    assert LastsAt(s, d, i, s1, d, i);
    forall d1: nat, i1: nat | User(d1, i1) && !(d1 == d && i1 == i)
      ensures LastsAt(s, d1, i1, r, d1, i1)
    {
      assert LastsAt(s, d1, i1, s1, d1, i1);
      assert (d1, i1) !in Users(s1.mem, copy);
      assert LastsAt(s1, d1, i1, r, d1, i1);
      LastsTwice(s, d1, i1, s1, d1, i1, r, d1, i1);
    }
  }

  lemma TakePageKeeps(s: Paging, held: multiset<PageNo>, usable: set<nat>, d: nat, i: nat)
    requires Swap.Inv(s, held, usable) && GetFreePage(s.mem).1 != 0 && User(d, i)
    ensures GetPage(s).1 != 0 && At(GetPage(s).0.mem, d, i) == At(s.mem, d, i)
  {
    GetFreePageInv(s.mem, held);
  }

  lemma GotFacts(s: Paging, held: multiset<PageNo>, usable: set<nat>, d: nat, i: nat)
    requires Swap.Inv(s, held, usable) && GetPage(s).1 != 0 && User(d, i) && s.mem.dir[d] != 0
        && At(s.mem, d, i).Present?
    ensures var (s1, copy) := GetPage(s);
            && Swap.Inv(s1, held + multiset{copy}, usable) && AllLast(s, s1) && held[copy] == 0
            && LOW_PAGES <= copy < s1.mem.high
            && Users(s1.mem, copy) == {} && !IsTable(s1.mem, copy) && s1.mem.dir == s.mem.dir
            && (At(s1.mem, d, i) == At(s.mem, d, i) || (!At(s1.mem, d, i).Present?
                && LOW_PAGES <= At(s.mem, d, i).page))
  {
    GetPageInv(s, held, usable);
    GetPageSheds(s, held, usable);
    hide PageTables.Inv, Slots, AllLast, GetPage;
  }

  /** A write fault on a shared page goes right exactly if swap_out, looking for the page to copy to, did not take
      the page from this very entry; with a page free it always does. A copy of a dirty page is marked clean. */
  lemma UnWpExact(s: Paging, held: multiset<PageNo>, usable: set<nat>, d: nat, i: nat)
    requires Swap.Inv(s, held, usable) && User(d, i) && s.mem.dir[d] != 0 && At(s.mem, d, i).Present?
    requires LOW_PAGES <= At(s.mem, d, i).page ==> s.mem.count[At(s.mem, d, i).page - LOW_PAGES] != 1
    ensures var e := At(s.mem, d, i);
            var (s1, copy) := GetPage(s);
            var (r, ok) := UnWp(s, s.mem.dir[d], i);
            && ok == (copy != 0)
            && (ok ==> (Swap.Inv(r, held, usable) <==> At(s1.mem, d, i) == e))
            && (GetFreePage(s.mem).1 != 0 ==> ok && At(s1.mem, d, i) == e)
            && (ok && At(s1.mem, d, i) == e ==>
                  && At(r.mem, d, i) == Present(copy, true, false) && Held(r, d, i) == Held(s, d, i)
                  && (LastsAt(s, d, i, r, d, i) <==> !e.dirty)
                  && OthersLast(s, d, i, r))
  {
    hide Swap.Inv, AllLast, GetPage, GetFreePage, CopyOver, OneEntry, LastsAt;
    SoundShape(s, held, usable);
    var e := At(s.mem, d, i);
    var (s1, copy) := GetPage(s);
    if GetFreePage(s.mem).1 != 0 {
      TakePageKeeps(s, held, usable, d, i);
    }
    if copy != 0 {
      GotFacts(s, held, usable, d, i);
      var r := CopyOver(s1, s.mem.dir[d], i, e.page, copy);
      if At(s1.mem, d, i) == e {
        CopyOverInv(s1, held, usable, d, i, copy);
        CopyDisk(s1, s.mem.dir[d], i, e.page, copy);
        CopyLasts(s, s1, held, usable, d, i, copy, r);
      } else {
        StaleCopy(s1, held, usable, d, i, e.page, copy);
      }
    }
  }

  /** What a write fault that need not wait leaves as it was: all else. */
  lemma UnWpFrame(s: Paging, held: multiset<PageNo>, usable: set<nat>, d: nat, i: nat)
    requires Swap.Inv(s, held, usable) && User(d, i) && s.mem.dir[d] != 0 && At(s.mem, d, i).Present?
    requires (LOW_PAGES <= At(s.mem, d, i).page && s.mem.count[At(s.mem, d, i).page - LOW_PAGES] == 1)
             || GetFreePage(s.mem).1 != 0
    ensures var (r, ok) := UnWp(s, s.mem.dir[d], i);
            && ok && Swap.Inv(r, held, usable) && r.mem.dir == s.mem.dir && r.mem.high == s.mem.high
            && r.disk == s.disk && At(r.mem, d, i).Present? && At(r.mem, d, i).rw && Held(r, d, i) == Held(s, d, i)
            && (forall d1: nat, i1: nat {:trigger At(r.mem, d1, i1)} :: User(d1, i1) && !(d1 == d && i1 == i) ==>
                  && At(r.mem, d1, i1) == At(s.mem, d1, i1)
                  && (At(s.mem, d1, i1).Present? ==>
                        r.mem.data[At(s.mem, d1, i1).page] == s.mem.data[At(s.mem, d1, i1).page]))
            && (forall p: PageNo {:trigger held[p]} :: held[p] > 0 ==> r.mem.data[p] == s.mem.data[p])
  {
    hide Swap.Inv, OneEntry, At, Users, IsTable;
    SoundShape(s, held, usable);
    var e := At(s.mem, d, i);
    if LOW_PAGES <= e.page && s.mem.count[e.page - LOW_PAGES] == 1 {
      UnWpPrivate(s, held, usable, d, i);
      StoredFlag(s, held, usable, d, i);
    } else {
      UnWpExact(s, held, usable, d, i);
      UnWpFree(s, held, usable, d, i);
    }
  }

  lemma StoredFlag(s: Paging, held: multiset<PageNo>, usable: set<nat>, d: nat, i: nat)
    requires Swap.Inv(s, held, usable) && User(d, i) && s.mem.dir[d] != 0 && At(s.mem, d, i).Present?
    ensures WellFormed(s) && s.mem.table[s.mem.dir[d]][i] == At(s.mem, d, i)
    ensures var m := Store(s.mem, s.mem.dir[d], i, s.mem.table[s.mem.dir[d]][i].(rw := true));
            forall d1: nat, i1: nat {:trigger At(m, d1, i1)} :: User(d1, i1) && !(d1 == d && i1 == i) ==>
              At(m, d1, i1) == At(s.mem, d1, i1)
  {
    StoreAt(s.mem, d, i, s.mem.table[s.mem.dir[d]][i].(rw := true));
  }

  /** The copy goes to a page nobody had. */
  lemma UnWpFree(s: Paging, held: multiset<PageNo>, usable: set<nat>, d: nat, i: nat)
    requires Swap.Inv(s, held, usable) && User(d, i) && s.mem.dir[d] != 0 && At(s.mem, d, i).Present?
    requires GetFreePage(s.mem).1 != 0 && WellFormed(s)
    requires LOW_PAGES <= At(s.mem, d, i).page ==> s.mem.count[At(s.mem, d, i).page - LOW_PAGES] != 1
    ensures var r := UnWp(s, s.mem.dir[d], i).0;
            && r.mem.dir == s.mem.dir && r.mem.high == s.mem.high && r.disk == s.disk
            && (forall d1: nat, i1: nat {:trigger At(r.mem, d1, i1)} :: User(d1, i1) && !(d1 == d && i1 == i) ==>
                  && At(r.mem, d1, i1) == At(s.mem, d1, i1)
                  && (At(s.mem, d1, i1).Present? ==>
                        r.mem.data[At(s.mem, d1, i1).page] == s.mem.data[At(s.mem, d1, i1).page]))
            && (forall p: PageNo {:trigger held[p]} :: held[p] > 0 ==> r.mem.data[p] == s.mem.data[p])
  {
    GetFreePageInv(s.mem, held);
    GotFacts(s, held, usable, d, i);
    var (m, copy) := GetFreePage(s.mem);
    var s1 := s.(mem := m);
    assert GetPage(s) == (s1, copy);
    hide Swap.Inv, GetFreePage, GetPage;
    StoredOver(s1, d, i, At(s.mem, d, i).page, copy) by {
      CountOf(s1, held + multiset{copy}, usable, copy);
    }
    forall d1: nat, i1: nat | User(d1, i1) && At(s.mem, d1, i1).Present?
      ensures At(s.mem, d1, i1).page != copy
    {
      assert (d1, i1) !in Users(s1.mem, copy) && At(s1.mem, d1, i1) == At(s.mem, d1, i1);
    }
  }

  lemma SoundShape(s: Paging, held: multiset<PageNo>, usable: set<nat>)
    requires Swap.Inv(s, held, usable)
    ensures WellFormed(s)
  {
    hide PageTables.Inv, Slots;
  }

  lemma CopyDisk(s: Paging, t: PageNo, i: nat, orig: PageNo, copy: PageNo)
    requires WellFormed(s) && i < ENTRIES
    ensures CopyOver(s, t, i, orig, copy).disk == s.disk
  {
  }

  /** The copy of a dirty page may be dropped as if it could be read again: what the task had there is gone. */
  lemma CopyOfDirtyIsDropped(s: Paging, held: multiset<PageNo>, usable: set<nat>, d: nat, i: nat)
    requires Swap.Inv(s, held, usable) && User(d, i) && s.mem.dir[d] != 0 && At(s.mem, d, i).Present?
        && At(s.mem, d, i).dirty
    requires LOW_PAGES <= At(s.mem, d, i).page && s.mem.count[At(s.mem, d, i).page - LOW_PAGES] != 1
        && GetFreePage(s.mem).1 != 0
    ensures var r := UnWp(s, s.mem.dir[d], i).0;
            var (q, ok) := TryToSwapOut(r, r.mem.dir[d], i);
            ok && Held(s, d, i).Some? && Held(q, d, i) == None
  {
    UnWpExact(s, held, usable, d, i);
    GetPageInv(s, held, usable);
    var r := UnWp(s, s.mem.dir[d], i).0;
    var q := TryToSwapOut(r, r.mem.dir[d], i).0;
    SwapOutPage(r, held, usable, d, i, Absent);
  }

  // ------------------------------------------------------------ try_to_share

  /** The end of try_to_share: both entries get what the first one holds now, and page `pn` counts one more. */
  function ShareOver(s: Paging, ft: PageNo, tt: PageNo, i: nat, pn: PageNo): (r: Paging)
    requires WellFormed(s) && i < ENTRIES && LOW_PAGES <= pn
    ensures WellFormed(r)
  {
    var m := Store(s.mem, ft, i, C.ReadOnly(s.mem.table[ft][i]));
    s.(mem := Share(Store(m, tt, i, m.table[ft][i]), pn))
  }

  /** try_to_share from entry `i` of directory entry `fd` to that of `td`, which is empty. */
  function TryShare(s: Paging, fd: nat, td: nat, i: nat): (r: (Paging, C.Sharing))
    requires WellFormed(s) && fd < DIRS && td < DIRS && i < ENTRIES
    ensures WellFormed(r.0)
  {
    var e := At(s.mem, fd, i);
    if !e.Present? || e.dirty || e.page < LOW_PAGES || e.page >= s.mem.high then (s, C.NotShared)
    else
      var (s1, t) := if s.mem.dir[td] != 0 then (s, s.mem.dir[td]) else GetPage(s);
      if t == 0 then (s1, C.OutOfMemory)
      else
        var s2 := s1.(mem := s1.mem.(dir := s1.mem.dir[td := t]));
        if s2.mem.table[t][i].Present? then (s2.(mem := s2.mem.(panic := true)), C.NotShared)
        else (ShareOver(s2, s.mem.dir[fd], t, i, e.page), C.Shared)
  }

  /** The first entry is as it was when it was looked at. */
  lemma ShareOverInv(s: Paging, held: multiset<PageNo>, usable: set<nat>, fd: nat, td: nat, i: nat)
    requires Swap.Inv(s, held, usable) && User(fd, i) && User(td, i) && fd != td && InSlot(fd) == InSlot(td)
    requires s.mem.dir[fd] != 0 && s.mem.dir[td] != 0 && At(s.mem, td, i) == Absent
    requires At(s.mem, fd, i).Present? && LOW_PAGES <= At(s.mem, fd, i).page
    ensures var r := ShareOver(s, s.mem.dir[fd], s.mem.dir[td], i, At(s.mem, fd, i).page);
            && Swap.Inv(r, held, usable) && r.mem.data == s.mem.data && r.disk == s.disk
            && (forall d: nat, j: nat {:trigger At(r.mem, d, j)} :: User(d, j) ==>
                  At(r.mem, d, j) == if (d == fd || d == td)
                      && j == i then C.ReadOnly(At(s.mem, fd, i)) else At(s.mem, d, j))
  {
    C.ProtectInv(s.mem, held, fd, i);
    var m := Store(s.mem, s.mem.dir[fd], i, C.ReadOnly(At(s.mem, fd, i)));
    C.ShareInv(m, held, fd, td, i);
    var r := ShareOver(s, s.mem.dir[fd], s.mem.dir[td], i, At(s.mem, fd, i).page);
    hide PageTables.Inv;
    SlotsNoSwap(s.mem, s.bits, usable, r.mem);
  }

  lemma StoreSame(m: Mem, t: PageNo, i: nat)
    requires PageTables.Shape(m) && i < ENTRIES
    ensures Store(m, t, i, m.table[t][i]) == m
  {
    assert m.table[t][i := m.table[t][i]] == m.table[t];
    assert m.table[t := m.table[t]] == m.table;
  }

  lemma SharedNothing(s: Paging, fd: nat, td: nat, i: nat, pn: PageNo)
    requires WellFormed(s) && User(fd, i) && User(td, i) && s.mem.dir[fd] != 0 && s.mem.dir[td] != 0
    requires At(s.mem, fd, i) == Absent && At(s.mem, td, i) == Absent && LOW_PAGES <= pn
    ensures var r := ShareOver(s, s.mem.dir[fd], s.mem.dir[td], i, pn);
            && r.mem.count[pn - LOW_PAGES] != s.mem.count[pn - LOW_PAGES]
            && Users(r.mem, pn) == Users(s.mem, pn) && IsTable(r.mem, pn) == IsTable(s.mem, pn)
  {
    StoreSame(s.mem, s.mem.dir[fd], i);
    StoreSame(s.mem, s.mem.dir[td], i);
    var r := ShareOver(s, s.mem.dir[fd], s.mem.dir[td], i, pn);
    assert forall d: nat, j: nat :: User(d, j) ==> At(r.mem, d, j) == At(s.mem, d, j);
  }

  /** The first entry has been emptied meanwhile: the page counts one user too many. */
  lemma ShareOverStale(s: Paging, held: multiset<PageNo>, usable: set<nat>, fd: nat, td: nat, i: nat, pn: PageNo)
    requires Swap.Inv(s, held, usable) && User(fd, i) && User(td, i) && s.mem.dir[fd] != 0 && s.mem.dir[td] != 0
    requires At(s.mem, fd, i) == Absent && At(s.mem, td, i) == Absent && LOW_PAGES <= pn
    ensures !Swap.Inv(ShareOver(s, s.mem.dir[fd], s.mem.dir[td], i, pn), held, usable)
  {
    hide Swap.Inv, Users, IsTable, At;
    CountOf(s, held, usable, pn);
    SharedNothing(s, fd, td, i, pn);
    var r := ShareOver(s, s.mem.dir[fd], s.mem.dir[td], i, pn);
    if Swap.Inv(r, held, usable) {
      CountOf(r, held, usable, pn);
      assert false;
    }
  }

  lemma AllLastSame(s: Paging, held: multiset<PageNo>, usable: set<nat>)
    requires Swap.Inv(s, held, usable)
    ensures AllLast(s, s)
  {
    CursorKept(s, held, usable, s.dirEntry, s.pageEntry);
    hide Swap.Inv, AllLast;
  }

  /** A shared page is only protected: nobody loses anything. */
  lemma ShareLasts(s: Paging, q: Paging, fd: nat, td: nat, i: nat, r: Paging)
    requires AllLast(s, q) && WellFormed(r) && r.mem.data == q.mem.data && r.disk == q.disk
    requires User(fd, i) && User(td, i) && At(q.mem, fd, i).Present?
    requires forall d: nat, j: nat {:trigger At(r.mem, d, j)} :: User(d, j) ==>
               At(r.mem, d, j) ==
               if (d == fd || d == td) && j == i then C.ReadOnly(At(q.mem, fd, i)) else At(q.mem, d, j)
    ensures OthersLast(s, td, i, r)
  {
    forall d1: nat, i1: nat | User(d1, i1) && !(d1 == td && i1 == i)
      ensures LastsAt(s, d1, i1, r, d1, i1)
    {
      assert LastsAt(s, d1, i1, q, d1, i1);
      var x := At(r.mem, d1, i1);
      assert LastsAt(q, d1, i1, r, d1, i1);
      LastsTwice(s, d1, i1, q, d1, i1, r, d1, i1);
    }
  }

  /** With a table in place, or a page free for one, sharing goes right; when get_free_page had to swap out, exactly
      if it left the page to be shared where it was. */
  lemma TryShareExact(s: Paging, held: multiset<PageNo>, usable: set<nat>, fd: nat, td: nat, i: nat)
    requires Swap.Inv(s, held, usable) && User(fd, i) && User(td, i) && fd != td && InSlot(fd) == InSlot(td)
        && At(s.mem, td, i) == Absent
    ensures var e := At(s.mem, fd, i);
            var s1 := if s.mem.dir[td] != 0 then s else GetPage(s).0;
            var (r, done) := TryShare(s, fd, td, i);
            && (done.Shared? ==> (Swap.Inv(r, held, usable) <==> At(s1.mem, fd, i) == e))
            && (done.Shared? && At(s1.mem, fd, i) == e ==>
                At(r.mem, td, i) == C.ReadOnly(e) && Held(r, td, i) == Held(s, fd, i) && OthersLast(s, td, i, r))
            && (GetFreePage(s.mem).1 != 0 ==> At(s1.mem, fd, i) == e && !done.OutOfMemory?)
            && (done.NotShared? <==> !e.Present? || e.dirty || e.page < LOW_PAGES || e.page >= s.mem.high)
            && (!done.Shared? ==> Kept(s, held, usable, r))
  {
    hide Swap.Inv, AllLast, GetPage, GetFreePage, ShareOver, Kept, OthersLast;
    SoundShape(s, held, usable);
    var e := At(s.mem, fd, i);
    if GetFreePage(s.mem).1 != 0 {
      TakePageKeeps(s, held, usable, fd, i);
    }
    ShareKept(s, held, usable);
    if e.Present? && !e.dirty && LOW_PAGES <= e.page < s.mem.high {
      if s.mem.dir[td] != 0 {
        assert s.mem.dir[td := s.mem.dir[td]] == s.mem.dir;
        ShareOverInv(s, held, usable, fd, td, i);
        AllLastSame(s, held, usable);
        ShareLasts(s, s, fd, td, i, ShareOver(s, s.mem.dir[fd], s.mem.dir[td], i, e.page));
      } else if GetPage(s).1 != 0 {
        ShareNewTable(s, held, usable, fd, td, i);
      }
    }
  }

  lemma ShareKept(s: Paging, held: multiset<PageNo>, usable: set<nat>)
    requires Swap.Inv(s, held, usable)
    ensures Kept(s, held, usable, s) && (GetPage(s).1 == 0 ==> Kept(s, held, usable, GetPage(s).0))
  {
    CursorKept(s, held, usable, s.dirEntry, s.pageEntry);
    GetPageInv(s, held, usable);
    hide Swap.Inv, AllLast, GetPage, Kept;
  }

  lemma ShareNewTable(s: Paging, held: multiset<PageNo>, usable: set<nat>, fd: nat, td: nat, i: nat)
    requires Swap.Inv(s, held, usable) && User(fd, i) && User(td, i) && fd != td && InSlot(fd) == InSlot(td)
        && At(s.mem, td, i) == Absent
    requires s.mem.dir[td] == 0 && GetPage(s).1 != 0
    requires var e := At(s.mem, fd, i); e.Present? && !e.dirty && LOW_PAGES <= e.page < s.mem.high
    ensures var e := At(s.mem, fd, i);
            var (s1, t) := GetPage(s);
            var r := ShareOver(s1.(mem := s1.mem.(dir := s1.mem.dir[td := t])), s.mem.dir[fd], t, i, e.page);
            && !s1.mem.table[t][i].Present?
            && (Swap.Inv(r, held, usable) <==> At(s1.mem, fd, i) == e)
            && (At(s1.mem, fd, i) == e ==>
                At(r.mem, td, i) == C.ReadOnly(e) && Held(r, td, i) == Held(s, fd, i) && OthersLast(s, td, i, r))
  {
    GotFacts(s, held, usable, fd, i);
    GetPageInv(s, held, usable);
    var e := At(s.mem, fd, i);
    var (s1, t) := GetPage(s);
    NewTable(s, held, usable, td, s1, t);
    hide Swap.Inv, GetPage, Got, ShareOver, AllLast, OthersLast;
    var q := s1.(mem := s1.mem.(dir := s1.mem.dir[td := t]));
    AllLastAt(s, s1, fd, i);
    AllLastAt(s, s1, td, i);
    assert At(q.mem, td, i) == Absent;
    if At(s1.mem, fd, i) == e {
      ShareOverInv(q, held, usable, fd, td, i);
      ShareLasts(s, q, fd, td, i, ShareOver(q, s.mem.dir[fd], t, i, e.page));
    } else {
      ShareOverStale(q, held, usable, fd, td, i, e.page);
    }
  }

  lemma AllLastAt(s: Paging, r: Paging, d: nat, i: nat)
    requires AllLast(s, r) && User(d, i)
    ensures LastsAt(s, d, i, r, d, i)
  {
  }

  // ------------------------------------------------- a write fault gone wrong

  lemma FirstTry(s: Paging, i: nat)
    requires WellFormed(s) && s.pageEntry == i - 1 && i < ENTRIES && s.mem.dir[s.dirEntry] != 0
    requires At(s.mem, s.dirEntry, i).Present? && !At(s.mem, s.dirEntry, i).dirty
        && LOW_PAGES <= At(s.mem, s.dirEntry, i).page
    ensures SwapOut(s).1
    ensures SwapOut(s).0 == s.(pageEntry := i,
                               mem := FreePage(Store(s.mem, s.mem.dir[s.dirEntry], i, Absent),
                                   At(s.mem, s.dirEntry, i).page))
  {
    assert SkipAbsent(s.mem, s.dirEntry, VM_PAGES) == (s.dirEntry, VM_PAGES);
    assert s.(dirEntry := s.dirEntry) == s;
    var tries: seq<(nat, nat)> := [];
    assert ScanOut(s, VM_PAGES, tries) == TryNext(s.(pageEntry := i), VM_PAGES - 1, tries);
  }

  /** No page is free; swap_out takes two clean pages, and only the second of them comes free. */
  ghost predicate TwoNext(s: Paging, i: nat) {
    && WellFormed(s) && s.pageEntry == i - 1 && i + 1 < ENTRIES && s.mem.dir[s.dirEntry] != 0
    && (forall k :: 0 <= k < PAGING_PAGES ==> s.mem.count[k] != 0)
    && (var e, f := At(s.mem, s.dirEntry, i), At(s.mem, s.dirEntry, i + 1);
        && e.Present? && f.Present? && !e.dirty && !f.dirty && e.page != f.page
        && LOW_PAGES <= e.page < s.mem.high && LOW_PAGES <= f.page < s.mem.high
        && s.mem.count[e.page - LOW_PAGES] >= 2 && s.mem.count[f.page - LOW_PAGES] == 1)
  }

  lemma GetPageAgain(s: Paging, s1: Paging)
    requires WellFormed(s) && GetFreePage(s.mem).1 == 0 && SwapOut(s).1 && SwapOut(s).0 == s1
    ensures GetPage(s) == GetPage(s1)
  {
    SwapOutBounded(s);
  }

  /** `r` is `s` with one clean entry dropped from the table at `t`. */
  ghost predicate Dropped(s: Paging, r: Paging, t: PageNo, i: nat, pn: PageNo) {
    && WellFormed(s) && WellFormed(r) && i < ENTRIES && LOW_PAGES <= pn && r.mem.dir == s.mem.dir
    && r.mem.high == s.mem.high && r.dirEntry == s.dirEntry
    && r.mem.table == s.mem.table[t := s.mem.table[t][i := Absent]]
    && s.mem.count[pn - LOW_PAGES] > 0 && r.mem.count == s.mem.count[pn - LOW_PAGES := s.mem.count[pn - LOW_PAGES] - 1]
  }

  lemma FirstDrop(s: Paging, i: nat)
    requires WellFormed(s) && s.pageEntry == i - 1 && i < ENTRIES && s.mem.dir[s.dirEntry] != 0
    requires At(s.mem, s.dirEntry, i).Present? && !At(s.mem, s.dirEntry, i).dirty
    requires LOW_PAGES <= At(s.mem, s.dirEntry, i).page < s.mem.high
        && s.mem.count[At(s.mem, s.dirEntry, i).page - LOW_PAGES] > 0
    ensures var r := SwapOut(s).0;
            SwapOut(s).1 && r.pageEntry == i && Dropped(s, r, s.mem.dir[s.dirEntry], i, At(s.mem, s.dirEntry, i).page)
  {
    FirstTry(s, i);
    hide SwapOut;
  }

  lemma NoneFree(m: Mem)
    requires PageTables.Shape(m)
    ensures GetFreePage(m).1 == 0 <==> forall k :: 0 <= k < PAGING_PAGES ==> m.count[k] != 0
  {
  }

  /** The only free page is taken. */
  lemma TakeOnly(s: Paging, pn: PageNo)
    requires WellFormed(s) && LOW_PAGES <= pn && forall k :: 0 <= k < PAGING_PAGES ==>
        (s.mem.count[k] == 0 <==> k == pn - LOW_PAGES)
    ensures var (r, copy) := GetPage(s);
            && copy == pn && r.mem.dir == s.mem.dir && r.mem.count == s.mem.count[pn - LOW_PAGES := 1]
            && r.mem.table == s.mem.table[pn := NoEntries()]
  {
    assert s.mem.count[pn - LOW_PAGES] == 0;
    assert LastZero(s.mem.count, PAGING_PAGES) == pn - LOW_PAGES;
  }

  lemma TwoDrops(s: Paging, i: nat)
    requires TwoNext(s, i)
    ensures var (r, copy) := GetPage(s);
            var t, orig := s.mem.dir[s.dirEntry], At(s.mem, s.dirEntry, i).page;
            && copy == At(s.mem, s.dirEntry, i + 1).page && r.mem.dir == s.mem.dir
            && (t != copy ==> At(r.mem, s.dirEntry, i) == Absent)
            && r.mem.count[orig - LOW_PAGES] == s.mem.count[orig - LOW_PAGES] - 1
            && (forall p: PageNo :: p != t && p != copy ==> r.mem.table[p] == s.mem.table[p])
  {
    hide SwapOut, GetPage, GetFreePage;
    NoneFree(s.mem);
    FirstDrop(s, i);
    var s1 := SwapOut(s).0;
    NoneFree(s1.mem);
    GetPageAgain(s, s1);
    FirstDrop(s1, i + 1);
    var s2 := SwapOut(s1).0;
    GetPageAgain(s1, s2);
    TakeOnly(s2, At(s.mem, s.dirEntry, i + 1).page);
  }

  /** Two tasks with a page table each, sharing one page; the first has another page of its own. All other pages
      are in use, no swapping has been set up, and swap_out starts at the first task. */
  function Cramped(): (s: Paging)
    ensures WellFormed(s)
  {
    var first := seq(ENTRIES, i => if i == 0 then Present(0x102, false, false)
        else if i == 1 then Present(0x103, true, false) else Absent);
    var second := seq(ENTRIES, i => if i == 0 then Present(0x102, false, false) else Absent);
    var none := NoEntries();
    Paging(
      Mem(0x104,
          seq(PAGING_PAGES, k => if k == 2 then 2 else if k < 4 then 1 else USED),
          seq(DIRS, d => if d == 16 then 0x100 else if d == 32 then 0x101 else 0),
          seq(0x1000, p => if p == 0x100 then first else if p == 0x101 then second else none),
          seq(0x1000, _ => Zeros()),
          false),
      false, seq(SWAP_BITS, _ => false), seq(SWAP_BITS, _ => Zeros()), 16, -1, false)
  }

  /** The pages in use from LOW_PAGES + 4 on. */
  ghost function Reserved(n: nat): (held: multiset<PageNo>)
    requires 4 <= n <= PAGING_PAGES
    ensures forall p: PageNo :: held[p] == if LOW_PAGES + 4 <= p < LOW_PAGES + n then USED else 0
  {
    if n == 4 then multiset{} else Reserved(n - 1)[LOW_PAGES + n - 1 := USED]
  }

  lemma CrampedEntries(d: nat, i: nat)
    requires User(d, i)
    ensures At(Cramped().mem, d, i) ==
              if i == 0 && (d == 16 || d == 32) then Present(0x102, false, false)
              else if i == 1 && d == 16 then Present(0x103, true, false) else Absent
  {
  }

  lemma CrampedUsers(pn: PageNo)
    ensures Users(Cramped().mem, pn) == if pn == 0x102 then {(16, 0), (32, 0)} else if pn == 0x103 then {(16, 1)}
        else {}
    ensures IsTable(Cramped().mem, pn) <==> pn == 0x100 || pn == 0x101
  {
    var m := Cramped().mem;
    forall d: nat, i: nat | User(d, i)
      ensures At(m, d, i).Names(pn) <==>
          (pn == 0x102 && i == 0 && (d == 16 || d == 32)) || (pn == 0x103 && i == 1 && d == 16)
    {
      CrampedEntries(d, i);
    }
    assert m.dir[16] == 0x100 && m.dir[32] == 0x101;
  }

  lemma CrampedMem()
    ensures var m := Cramped().mem;
            && PageTables.Shape(m) && m.high == 0x104 && !m.panic && TablesApart(m) && m.dir[16] == 0x100
            && m.dir[32] == 0x101
            && (forall k :: 0 <= k < PAGING_PAGES ==> m.count[k] == if k == 2 then 2 else if k < 4 then 1 else USED)
  {
  }

  lemma CrampedShares()
    ensures var two: set<(nat, nat)> := {(16, 0), (32, 0)}; |two| == 2 && Aligned(two)
    ensures var one: set<(nat, nat)> := {(16, 1)}; |one| == 1 && Aligned(one)
    ensures var none: set<(nat, nat)> := {}; |none| == 0 && Aligned(none)
  {
  }

  lemma CrampedCounts(pn: PageNo)
    requires LOW_PAGES <= pn
    ensures var m, held := Cramped().mem, Reserved(PAGING_PAGES);
            && m.count[pn - LOW_PAGES] == |Users(m, pn)| + (if IsTable(m, pn) then 1 else 0) + held[pn]
            && Aligned(Users(m, pn))
            && (IsTable(m, pn) ==> held[pn] == 0)
  {
    hide Cramped, Users, IsTable, Reserved, Aligned;
    CrampedMem();
    CrampedUsers(pn);
    CrampedShares();
  }

  lemma CrampedEntry(d: nat, i: nat)
    requires User(d, i) && At(Cramped().mem, d, i).Present?
    ensures var m, held := Cramped().mem, Reserved(PAGING_PAGES);
            var e := At(m, d, i);
            && held[e.page] == 0 && !IsTable(m, e.page)
            && (e.rw ==> LOW_PAGES <= e.page && m.count[e.page - LOW_PAGES] == 1)
  {
    hide Cramped, Users, IsTable, At;
    CrampedMem();
    CrampedEntries(d, i);
    CrampedUsers(0x102);
    CrampedUsers(0x103);
  }

  lemma CrampedPages()
    ensures PageTables.Inv(Cramped().mem, Reserved(PAGING_PAGES))
  {
    hide Cramped, Users, IsTable, At, Aligned;
    CrampedMem();
    var m, held := Cramped().mem, Reserved(PAGING_PAGES);
    forall pn: PageNo | LOW_PAGES <= pn
      ensures m.count[pn - LOW_PAGES] == |Users(m, pn)| + (if IsTable(m, pn) then 1 else 0) + held[pn]
          && Aligned(Users(m, pn))
      ensures IsTable(m, pn) ==> held[pn] == 0
    {
      CrampedCounts(pn);
    }
    forall pn: PageNo
      ensures IsTable(m, pn) ==> LOW_PAGES <= pn
    {
      CrampedUsers(pn);
    }
    forall d: nat, i: nat | User(d, i) && At(m, d, i).Present?
      ensures held[At(m, d, i).page] == 0 && !IsTable(m, At(m, d, i).page)
      ensures At(m, d, i).rw ==> LOW_PAGES <= At(m, d, i).page && m.count[At(m, d, i).page - LOW_PAGES] == 1
    {
      CrampedEntry(d, i);
    }
  }

  lemma CrampedInv()
    ensures Swap.Inv(Cramped(), Reserved(PAGING_PAGES), {})
  {
    CrampedPages();
    forall n: nat
      ensures SlotUsers(Cramped().mem, n) == {}
    {
      forall d: nat, i: nat | User(d, i)
        ensures At(Cramped().mem, d, i) != Swapped(n)
      {
        CrampedEntries(d, i);
      }
    }
  }

  lemma CrampedNext()
    ensures TwoNext(Cramped(), 0)
  {
    CrampedEntries(16, 0);
    CrampedEntries(16, 1);
    CrampedMem();
    hide At;
  }

  /** What the copying half of un_wp_page changes. */
  lemma UnWpCopies(s: Paging, t: PageNo, i: nat)
    requires WellFormed(s) && i < ENTRIES && s.mem.table[t][i].Present? && LOW_PAGES <= s.mem.table[t][i].page
    requires s.mem.count[s.mem.table[t][i].page - LOW_PAGES] != 1 && GetPage(s).1 != 0
    ensures var orig := s.mem.table[t][i].page;
            var (s1, copy) := GetPage(s);
            var (r, ok) := UnWp(s, t, i);
            && ok && r.mem.dir == s1.mem.dir && (forall p: PageNo :: p != t ==> r.mem.table[p] == s1.mem.table[p])
            && r.mem.count[orig - LOW_PAGES] == (s1.mem.count[orig - LOW_PAGES] + 255) % 256
  {
    hide GetPage;
  }

  lemma UnWpStale(s: Paging, held: multiset<PageNo>, usable: set<nat>, d: nat, i: nat)
    requires Swap.Inv(s, held, usable) && User(d, i) && s.mem.dir[d] != 0 && At(s.mem, d, i).Present?
        && LOW_PAGES <= At(s.mem, d, i).page
    requires s.mem.count[At(s.mem, d, i).page - LOW_PAGES] != 1 && GetPage(s).1 != 0
        && At(GetPage(s).0.mem, d, i) != At(s.mem, d, i)
    ensures !Swap.Inv(UnWp(s, s.mem.dir[d], i).0, held, usable)
  {
    UnWpExact(s, held, usable, d, i);
    hide Swap.Inv, GetPage, UnWp, LastsAt, Held;
  }

  /** In that state a write fault of the first task on the shared page ends with the second task's page marked free. */
  lemma WriteFaultFreesSharedPage()
    ensures var s := Cramped();
            && Swap.Inv(s, Reserved(PAGING_PAGES), {}) && At(s.mem, 16, 0) == At(s.mem, 32, 0) ==
                Present(0x102, false, false)
            && (var (r, ok) := UnWp(s, s.mem.dir[16], 0);
                && ok && At(r.mem, 32, 0) == Present(0x102, false, false) && r.mem.count[0x102 - LOW_PAGES] == 0
                && !Swap.Inv(r, Reserved(PAGING_PAGES), {}))
  {
    CrampedStart();
    hide Cramped, Swap.Inv, TwoNext, GetPage, UnWp, Reserved, GetFreePage;
    var s := Cramped();
    CrampedInv();
    CrampedMem();
    CrampedEntries(16, 0);
    CrampedEntries(16, 1);
    CrampedEntries(32, 0);
    CrampedNext();
    TwoDrops(s, 0);
    UnWpCopies(s, s.mem.dir[16], 0);
    UnWpStale(s, Reserved(PAGING_PAGES), {}, 16, 0);
  }

  lemma CrampedStart()
    ensures Cramped().dirEntry == 16
  {
  }
}

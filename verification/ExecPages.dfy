/**
 What execve does to memory in 0.11: it copies the argument strings into free pages, gives up the old
 address space, and maps the argument pages at the top of the new one.
*/
module ExecPages {
  import opened PageTables
  import opened CowPaging

  const MAX_ARG_PAGES: nat := 32
  const ARG_DIR: nat := 15             // the last directory entry of an address space

  /** copy_strings as far as memory goes: from the last page down, a free page is taken and filled for each; the
      result has the pages got, the last ones first to be taken. */
  function TakeArgs(m: Mem, pages: seq<Frame>): (r: (Mem, seq<PageNo>))
    requires Shape(m) && forall j :: 0 <= j < |pages| ==> |pages[j]| == PAGE_SIZE
    ensures Shape(r.0) && |r.1| <= |pages|
    decreases |pages|
  {
    if pages == [] then (m, [])
    else
      var last := |pages| - 1;
      var (m1, pn) := GetFreePage(m);
      if pn == 0 then (m1, [])
      else
        var (m2, pns) := TakeArgs(m1.(data := m1.data[pn := pages[last]]), pages[..last]);
        (m2, pns + [pn])
  }

  /** The end of do_execve after an error: every page got is freed. */
  function FreeArgs(m: Mem, pns: seq<PageNo>): (r: Mem)
    requires Shape(m)
    ensures Shape(r)
    decreases |pns|
  {
    if pns == [] then m else FreeArgs(FreePage(m, pns[0]), pns[1..])
  }

  /** The loop of change_ldt: put_page from the top down, its result ignored; page number |pns| - 1 goes to entry
      `i` of directory entry `d`. */
  function PutArgs(m: Mem, pns: seq<PageNo>, d: nat, i: nat): (r: Mem)
    requires Shape(m) && d < DIRS && i < ENTRIES && |pns| <= i + 1
    ensures Shape(r)
    decreases |pns|
  {
    if pns == [] then m
    else
      var last := |pns| - 1;
      var m1 := PutPage(m, pns[last], d, i).0;
      if last == 0 then m1 else PutArgs(m1, pns[..last], d, i - 1)
  }

  /** execve in address space `t`; false if the arguments found no memory. */
  function ExecMem(m: Mem, t: nat, pages: seq<Frame>): (r: (Mem, bool))
    requires Shape(m) && t < NR_TASKS && |pages| <= MAX_ARG_PAGES
    requires forall j :: 0 <= j < |pages| ==> |pages[j]| == PAGE_SIZE
    ensures Shape(r.0)
  {
    var (m1, pns) := TakeArgs(m, pages);
    if |pns| < |pages| then (FreeArgs(m1, pns), false)
    else (PutArgs(FreeTables(m1, FirstDir(t), SLOT_DIRS), pns, DirAt(t, ARG_DIR), ENTRIES - 1), true)
  }

  // --------------------------------------------------------- the new pages

  /** Entries, and the bytes behind them, are as they were; the kernel may hold other pages. */
  ghost predicate SameUse(m: Mem, r: Mem) {
    && Shape(m) && Shape(r) && r.high == m.high && r.dir == m.dir
    && (forall d: nat, i: nat {:trigger At(r, d, i)} :: User(d, i) ==>
          At(r, d, i) == At(m, d, i) && Look(r, d, i) == Look(m, d, i))
  }

  /** The pages are different ones, held once each on top of what the kernel held, with these bytes. */
  ghost predicate HoldsArgs(m: Mem, held: multiset<PageNo>, pns: seq<PageNo>, pages: seq<Frame>) {
    true == (
      && Inv(m, held + multiset(pns)) && |pns| == |pages|
      && (forall j {:trigger pns[j]} :: 0 <= j < |pns| ==>
            LOW_PAGES <= pns[j] < m.high && held[pns[j]] == 0 && m.data[pns[j]] == pages[j])
      && (forall j, k {:trigger pns[j], pns[k]} :: 0 <= j < k < |pns| ==> pns[j] != pns[k]))
  }

  /** A page nobody but the kernel holds takes any bytes. */
  lemma FillHeld(m: Mem, held: multiset<PageNo>, pn: PageNo, f: Frame)
    requires Inv(m, held) && held[pn] > 0 && LOW_PAGES <= pn < m.high && |f| == PAGE_SIZE
    ensures var r := m.(data := m.data[pn := f]);
            Inv(r, held) && SameUse(m, r)
  {
    var r := m.(data := m.data[pn := f]);
    forall d: nat, i: nat | User(d, i)
      ensures !At(m, d, i).Names(pn)
    {
    }
    assert Users(m, pn) == {} && !IsTable(m, pn);
    TakeInv(m, held, r, held, pn);
  }

  /** Pages in use keep their bytes. */
  ghost predicate KeepsUsed(m: Mem, r: Mem)
    requires Shape(m) && Shape(r)
  {
    forall p: PageNo {:trigger r.data[p]} :: LOW_PAGES <= p && m.count[p - LOW_PAGES] != 0 ==>
      r.data[p] == m.data[p] && r.count[p - LOW_PAGES] != 0
  }

  lemma MultisetSnoc(held: multiset<PageNo>, pns: seq<PageNo>, pn: PageNo)
    ensures held + multiset{pn} + multiset(pns) == held + multiset(pns + [pn])
  {
    assert multiset(pns + [pn]) == multiset(pns) + multiset{pn};
  }

  /** One page taken and filled. */
  lemma TakeOneArg(m: Mem, held: multiset<PageNo>, f: Frame)
    requires Inv(m, held) && |f| == PAGE_SIZE && GetFreePage(m).1 != 0
    ensures var (m1, pn) := GetFreePage(m);
            var r := m1.(data := m1.data[pn := f]);
            && Inv(r, held + multiset{pn}) && SameUse(m, r) && KeepsUsed(m, r) && LOW_PAGES <= pn < m.high
            && held[pn] == 0 && r.data[pn] == f && r.count[pn - LOW_PAGES] == 1
  {
    GetFreePageInv(m, held);
    var (m1, pn) := GetFreePage(m);
    FillHeld(m1, held + multiset{pn}, pn, f);
    var r := m1.(data := m1.data[pn := f]);
    forall d: nat, i: nat | User(d, i)
      ensures At(r, d, i) == At(m, d, i) && Look(r, d, i) == Look(m, d, i)
    {
      assert At(m1, d, i) == At(m, d, i);
    }
  }

  lemma SameUseTwice(m: Mem, q: Mem, r: Mem)
    requires SameUse(m, q) && SameUse(q, r)
    ensures SameUse(m, r)
  {
    forall d: nat, i: nat | User(d, i)
      ensures At(r, d, i) == At(m, d, i) && Look(r, d, i) == Look(m, d, i)
    {
      assert At(r, d, i) == At(q, d, i);
    }
  }

  /** The page taken first joins those taken after it. */
  lemma HoldsOneMore(m: Mem, held: multiset<PageNo>, pns: seq<PageNo>, pages: seq<Frame>, pn: PageNo, f: Frame)
    requires HoldsArgs(m, held + multiset{pn}, pns, pages) && held[pn] == 0 && LOW_PAGES <= pn < m.high
    requires Shape(m) && m.data[pn] == f
    ensures HoldsArgs(m, held, pns + [pn], pages + [f])
  {
    MultisetSnoc(held, pns, pn);
    hide Inv;
    assert (held + multiset{pn})[pn] == 1;
    forall j | 0 <= j < |pns|
      ensures held[pns[j]] == 0 && pns[j] != pn
    {
    }
  }

  lemma TakeNoArgs(m: Mem, held: multiset<PageNo>, pages: seq<Frame>)
    requires Inv(m, held) && forall j :: 0 <= j < |pages| ==> |pages[j]| == PAGE_SIZE
    requires pages == [] || GetFreePage(m).1 == 0
    ensures TakeArgs(m, pages) == (m, [])
    ensures HoldsArgs(m, held, [], pages[|pages|..]) && SameUse(m, m) && KeepsUsed(m, m)
  {
    var none: seq<PageNo> := [];
    assert held + multiset(none) == held;
  }

  lemma KeepsUsedTwice(m: Mem, q: Mem, r: Mem, pn: PageNo)
    requires Shape(m) && Shape(q) && Shape(r) && KeepsUsed(m, q) && KeepsUsed(q, r)
    ensures KeepsUsed(m, r)
    ensures LOW_PAGES <= pn && q.count[pn - LOW_PAGES] != 0 ==> r.data[pn] == q.data[pn]
  {
    forall p: PageNo | LOW_PAGES <= p && m.count[p - LOW_PAGES] != 0
      ensures r.data[p] == m.data[p] && r.count[p - LOW_PAGES] != 0
    {
      assert q.data[p] == m.data[p];
    }
  }

  /** The arguments are in pages of their own; nobody's entries or bytes have changed. */
  lemma {:induction false} TakeArgsInv(m: Mem, held: multiset<PageNo>, pages: seq<Frame>)
    requires Shape(m) && Inv(m, held) && forall j :: 0 <= j < |pages| ==> |pages[j]| == PAGE_SIZE
    ensures var (r, pns) := TakeArgs(m, pages);
            HoldsArgs(r, held, pns, pages[|pages| - |pns|..]) && SameUse(m, r) && KeepsUsed(m, r)
    decreases |pages|
  {
    hide Inv, GetFreePage, HoldsArgs, SameUse, KeepsUsed;
    var last := |pages| - 1;
    if pages == [] || GetFreePage(m).1 == 0 {
      TakeNoArgs(m, held, pages);
      return;
    }
    TakeOneArg(m, held, pages[last]);
    var (m1, pn) := GetFreePage(m);
    var q := m1.(data := m1.data[pn := pages[last]]);
    SameHigh(m, q);
    TakeArgsInv(q, held + multiset{pn}, pages[..last]);
    var (r, pns) := TakeArgs(q, pages[..last]);
    SameUseTwice(m, q, r);
    KeepsUsedTwice(m, q, r, pn);
    SameHigh(q, r);
    HoldsOneMore(r, held, pns, pages[..last][last - |pns|..], pn, pages[last]);
    assert pages[|pages| - |pns + [pn]|..] == pages[..last][last - |pns|..] + [pages[last]];
  }

  lemma SameHigh(m: Mem, r: Mem)
    requires SameUse(m, r)
    ensures r.high == m.high && r.dir == m.dir && Shape(m) && Shape(r)
  {
  }

  /** A page the kernel holds is given back. */
  lemma FreeHeld(m: Mem, held: multiset<PageNo>, pn: PageNo)
    requires Inv(m, held + multiset{pn}) && held[pn] == 0 && LOW_PAGES <= pn < m.high
    ensures Inv(FreePage(m, pn), held) && SameUse(m, FreePage(m, pn))
  {
    var h := held + multiset{pn};
    assert h[pn] == 1 && forall p: PageNo :: p != pn ==> h[p] == held[p];
    forall d: nat, i: nat | User(d, i)
      ensures !At(m, d, i).Names(pn)
    {
    }
    assert Users(m, pn) == {} && !IsTable(m, pn) && |Users(m, pn)| == 0;
    TakeInv(m, h, FreePage(m, pn), held, pn);
  }

  lemma MultisetCons(held: multiset<PageNo>, pns: seq<PageNo>)
    requires pns != []
    ensures held + multiset(pns) == held + multiset(pns[1..]) + multiset{pns[0]}
  {
    assert pns == [pns[0]] + pns[1..];
  }

  lemma NotAgain(pns: seq<PageNo>, pn: PageNo)
    requires forall j :: 0 <= j < |pns| ==> pns[j] != pn
    ensures multiset(pns)[pn] == 0
  {
  }

  /** All pages got are given back. */
  lemma {:induction false} FreeArgsInv(m: Mem, held: multiset<PageNo>, pns: seq<PageNo>, pages: seq<Frame>)
    requires Shape(m) && HoldsArgs(m, held, pns, pages)
    ensures Inv(FreeArgs(m, pns), held) && SameUse(m, FreeArgs(m, pns))
    decreases |pns|
  {
    if pns == [] {
      assert held + multiset(pns) == held;
      return;
    }
    var rest := held + multiset(pns[1..]);
    MultisetCons(held, pns);
    NotAgain(pns[1..], pns[0]);
    FreeHeld(m, rest, pns[0]);
    var q := FreePage(m, pns[0]);
    assert HoldsArgs(q, held, pns[1..], pages[1..]) by {
      assert forall j :: 0 <= j < |pns[1..]| ==> pns[1..][j] == pns[j + 1];
      assert forall j :: 0 <= j < |pages[1..]| ==> pages[1..][j] == pages[j + 1];
    }
    hide Inv, HoldsArgs, FreePage;
    FreeArgsInv(q, held, pns[1..], pages[1..]);
    SameUseTwice(m, q, FreeArgs(q, pns[1..]));
  }

  // -------------------------------------------------------- the new address space

  /** The entries from i - |pns| + 1 to i of directory entry `d` have these pages; all others are as they were. */
  ghost predicate ArgsMapped(m: Mem, held: multiset<PageNo>, pns: seq<PageNo>, d: nat, i: nat, r: Mem) {
    true == (
      && Shape(m) && Shape(r) && Inv(r, held) && SLOT_DIRS <= d < DIRS && i < ENTRIES && |pns| <= i + 1
      && r.high == m.high
      && (forall e: nat :: e < DIRS && e != d ==> r.dir[e] == m.dir[e])
      && (forall e: nat, j: nat {:trigger At(r, e, j)} :: User(e, j) && !(e == d && i - |pns| < j <= i) ==>
            At(r, e, j) == At(m, e, j) && Look(r, e, j) == Look(m, e, j))
      && (forall j: nat {:trigger At(r, d, j)} :: i - |pns| < j <= i ==>
            At(r, d, j) == Present(pns[j - (i + 1 - |pns|)], true, false)
            && Look(r, d, j) == Some(m.data[pns[j - (i + 1 - |pns|)]])))
  }

  /** One put_page that finds a page table, or a free page for one. */
  lemma PutOne(m: Mem, held: multiset<PageNo>, pn: PageNo, d: nat, i: nat)
    requires Inv(m, held + multiset{pn}) && held[pn] == 0 && LOW_PAGES <= pn < m.high && User(d, i)
    requires At(m, d, i) == Absent && (m.dir[d] != 0 || GetFreePage(m).1 != 0)
    ensures ArgsMapped(m, held, [pn], d, i, PutPage(m, pn, d, i).0)
    ensures KeepsUsed(m, PutPage(m, pn, d, i).0) && PutPage(m, pn, d, i).0.dir[d] != 0
  {
    PutPageInv(m, held, pn, d, i);
    GetFreePageInv(m, held + multiset{pn});
    assert PutPage(m, pn, d, i).1;
  }

  lemma MappedStep(m: Mem, held: multiset<PageNo>, pns: seq<PageNo>, d: nat, i: nat, q: Mem, r: Mem)
    requires |pns| > 1 && i > 0 && ArgsMapped(m, held + multiset(pns[..|pns| - 1]), [pns[|pns| - 1]], d, i, q)
    requires ArgsMapped(q, held, pns[..|pns| - 1], d, i - 1, r) && i < ENTRIES && |pns| <= i + 1
    requires forall k :: 0 <= k < |pns| - 1 ==> q.data[pns[k]] == m.data[pns[k]]
    ensures ArgsMapped(m, held, pns, d, i, r)
  {
    hide Inv;
    var last := |pns| - 1;
    forall e: nat, j: nat | User(e, j) && !(e == d && i - |pns| < j <= i)
      ensures At(r, e, j) == At(m, e, j) && Look(r, e, j) == Look(m, e, j)
    {
      assert At(r, e, j) == At(q, e, j);
    }
    forall j: nat | i - |pns| < j <= i
      ensures At(r, d, j) == Present(pns[j - (i + 1 - |pns|)], true, false)
      ensures Look(r, d, j) == Some(m.data[pns[j - (i + 1 - |pns|)]])
    {
      var x, y := At(r, d, j), At(q, d, j);
      if j < i {
        assert pns[..last][j - (i - last)] == pns[j - (i + 1 - |pns|)];
      }
    }
  }

  /** What is left of the pages once the last has been put in place. */
  lemma HoldsFewer(m: Mem, held: multiset<PageNo>, pns: seq<PageNo>, pages: seq<Frame>, d: nat, i: nat, q: Mem)
    requires pns != [] && Shape(m) && Shape(q) && HoldsArgs(m, held, pns, pages) && KeepsUsed(m, q)
    requires ArgsMapped(m, held + multiset(pns[..|pns| - 1]), [pns[|pns| - 1]], d, i, q)
    ensures HoldsArgs(q, held, pns[..|pns| - 1], pages[..|pns| - 1])
  {
    var last := |pns| - 1;
    forall j | 0 <= j < last
      ensures m.count[pns[j] - LOW_PAGES] != 0
    {
      HeldCounted(m, held + multiset(pns), pns[j]);
      assert pns[j] in multiset(pns);
    }
    hide Inv;
    assert forall j :: 0 <= j < last ==> pns[..last][j] == pns[j] && pages[..last][j] == pages[j];
  }

  lemma HeldCounted(m: Mem, held: multiset<PageNo>, pn: PageNo)
    requires Inv(m, held) && LOW_PAGES <= pn && held[pn] > 0
    ensures m.count[pn - LOW_PAGES] != 0
  {
    assert |Users(m, pn)| >= 0;
  }

  lemma HoldsLast(m: Mem, held: multiset<PageNo>, pns: seq<PageNo>, pages: seq<Frame>)
    requires pns != [] && Shape(m) && HoldsArgs(m, held, pns, pages)
    ensures var pn := pns[|pns| - 1];
            var rest := held + multiset(pns[..|pns| - 1]);
            Inv(m, rest + multiset{pn}) && rest[pn] == 0 && LOW_PAGES <= pn < m.high && |pages| == |pns|
  {
    var last := |pns| - 1;
    MultisetSnoc(held, pns[..last], pns[last]);
    assert pns[..last] + [pns[last]] == pns;
    assert held + multiset{pns[last]} + multiset(pns[..last]) == held + multiset(pns[..last]) + multiset{pns[last]};
    hide Inv;
    forall j | 0 <= j < |pns[..last]|
      ensures pns[..last][j] != pns[last]
    {
      assert pns[..last][j] == pns[j];
    }
    NotAgain(pns[..last], pns[last]);
  }

  lemma PutNone(m: Mem, held: multiset<PageNo>, pages: seq<Frame>, d: nat, i: nat)
    requires Shape(m) && HoldsArgs(m, held, [], pages) && SLOT_DIRS <= d < DIRS && i < ENTRIES
    ensures ArgsMapped(m, held, [], d, i, m)
  {
    var none: seq<PageNo> := [];
    assert held + multiset(none) == held;
  }

  /** All argument pages end up in their entries, as long as the first of them finds a page table. */
  lemma {:induction false} PutArgsInv(
      m: Mem, held: multiset<PageNo>, pns: seq<PageNo>, pages: seq<Frame>, d: nat, i: nat)
    requires Shape(m) && HoldsArgs(m, held, pns, pages) && SLOT_DIRS <= d < DIRS && i < ENTRIES && |pns| <= i + 1
    requires forall j: nat :: j <= i ==> At(m, d, j) == Absent
    requires pns != [] ==> m.dir[d] != 0 || GetFreePage(m).1 != 0
    ensures ArgsMapped(m, held, pns, d, i, PutArgs(m, pns, d, i))
    decreases |pns|
  {
    hide Inv, HoldsArgs, ArgsMapped, PutPage, GetFreePage, KeepsUsed;
    if pns == [] {
      PutNone(m, held, pages, d, i);
      return;
    }
    var last := |pns| - 1;
    HoldsLast(m, held, pns, pages);
    var rest := held + multiset(pns[..last]);
    PutOne(m, rest, pns[last], d, i);
    var q := PutPage(m, pns[last], d, i).0;
    HoldsFewer(m, held, pns, pages, d, i, q);
    if last == 0 {
      assert pns == [pns[0]] && pns[..0] == [] && rest == held;
      return;
    }
    HoldsBytes(m, held, pns, pages, q, last);
    StillFree(m, rest, pns[last], d, i, q);
    PutArgsInv(q, held, pns[..last], pages[..last], d, i - 1);
    MappedStep(m, held, pns, d, i, q, PutArgs(q, pns[..last], d, i - 1));
  }

  lemma HoldsBytes(m: Mem, held: multiset<PageNo>, pns: seq<PageNo>, pages: seq<Frame>, q: Mem, n: nat)
    requires Shape(m) && Shape(q) && HoldsArgs(m, held, pns, pages) && n < |pns|
    requires HoldsArgs(q, held, pns[..n], pages[..n])
    ensures forall k :: 0 <= k < n ==> q.data[pns[k]] == m.data[pns[k]]
  {
    hide Inv;
    forall k | 0 <= k < n
      ensures q.data[pns[k]] == m.data[pns[k]]
    {
      assert pns[..n][k] == pns[k] && pages[..n][k] == pages[k];
    }
  }

  lemma StillFree(m: Mem, held: multiset<PageNo>, pn: PageNo, d: nat, i: nat, q: Mem)
    requires ArgsMapped(m, held, [pn], d, i, q) && forall j: nat :: j <= i ==> At(m, d, j) == Absent
    ensures forall j: nat :: j < i ==> At(q, d, j) == Absent
  {
    hide Inv;
    forall j: nat | j < i
      ensures At(q, d, j) == Absent
    {
      assert At(q, d, j) == At(m, d, j);
    }
  }

  // ------------------------------------------------------------------ execve

  /** A page table given back leaves a free page. */
  lemma TableFreed(m: Mem, held: multiset<PageNo>, t: nat, d: nat, r: Mem)
    requires Inv(m, held) && 1 <= t < NR_TASKS && Emptied(m, held, FirstDir(t), SLOT_DIRS, r)
    requires FirstDir(t) <= d < FirstDir(t) + SLOT_DIRS && m.dir[d] != 0
    ensures GetFreePage(r).1 != 0
  {
    var pn := m.dir[d];
    assert IsTable(m, pn) && held[pn] == 0 && LOW_PAGES <= pn;
    forall e: nat | SLOT_DIRS <= e < DIRS
      ensures r.dir[e] != pn
    {
      assert Apart(m, d, e);
    }
    forall e: nat, j: nat | User(e, j)
      ensures !At(r, e, j).Names(pn)
    {
      assert At(r, e, j) == Absent || At(r, e, j) == At(m, e, j);
    }
    assert Users(r, pn) == {} && !IsTable(r, pn) && |Users(r, pn)| == 0;
    assert r.count[pn - LOW_PAGES] == 0;
  }

  /** The address space has some page table. */
  ghost predicate HasTable(m: Mem, t: nat)
    requires Shape(m) && t < NR_TASKS
  {
    exists k: nat {:trigger DirAt(t, k)} :: k < SLOT_DIRS && m.dir[DirAt(t, k)] != 0
  }

  /** What execve leaves: the pages at the top of the address space and nothing else there; all others untouched. */
  ghost predicate Replaced(m: Mem, held: multiset<PageNo>, t: nat, pages: seq<Frame>, r: Mem) {
    true == (
      && Shape(m) && Shape(r) && Inv(r, held) && 1 <= t < NR_TASKS && |pages| <= MAX_ARG_PAGES && r.high == m.high
      && (forall d: nat :: SLOT_DIRS <= d < DIRS && SlotOf(d) != t ==> r.dir[d] == m.dir[d])
      && (forall d: nat, i: nat {:trigger At(r, d, i)} :: User(d, i) && SlotOf(d) != t ==>
            At(r, d, i) == At(m, d, i) && Look(r, d, i) == Look(m, d, i))
      && (forall d: nat, i: nat {:trigger At(r, d, i)} :: User(d, i) && SlotOf(d) == t ==>
            if InSlot(d) == ARG_DIR && ENTRIES - |pages| <= i then
              At(r, d, i).Present? && !At(r, d, i).dirty && Look(r, d, i) == Some(pages[i - (ENTRIES - |pages|)])
            else At(r, d, i) == Absent))
  }

  lemma ReplacedBy(
      m: Mem, held: multiset<PageNo>, t: nat, pns: seq<PageNo>, pages: seq<Frame>, m1: Mem, m2: Mem, r: Mem)
    requires 1 <= t < NR_TASKS && SameUse(m, m1) && Emptied(m1, held + multiset(pns), FirstDir(t), SLOT_DIRS, m2)
    requires ArgsMapped(m2, held, pns, DirAt(t, ARG_DIR), ENTRIES - 1, r) && |pns| == |pages| <= MAX_ARG_PAGES
    requires forall j {:trigger pns[j]} :: 0 <= j < |pns| ==> m1.data[pns[j]] == pages[j]
    ensures Replaced(m, held, t, pages, r)
  {
    hide Inv, At;
    forall d: nat, i: nat | User(d, i) && SlotOf(d) != t
      ensures At(r, d, i) == At(m, d, i) && Look(r, d, i) == Look(m, d, i)
    {
      var x, y, z := At(r, d, i), At(m2, d, i), At(m1, d, i);
      assert !(FirstDir(t) <= d < FirstDir(t) + SLOT_DIRS);
    }
    forall d: nat, i: nat | User(d, i) && SlotOf(d) == t
      ensures if InSlot(d) == ARG_DIR && ENTRIES - |pages| <= i then
                At(r, d, i).Present? && !At(r, d, i).dirty && Look(r, d, i) == Some(pages[i - (ENTRIES - |pages|)])
              else At(r, d, i) == Absent
    {
      var x, y := At(r, d, i), At(m2, d, i);
      assert FirstDir(t) <= d < FirstDir(t) + SLOT_DIRS;
      assert InSlot(d) == ARG_DIR <==> d == DirAt(t, ARG_DIR);
    }
    forall d: nat | SLOT_DIRS <= d < DIRS && SlotOf(d) != t
      ensures r.dir[d] == m.dir[d]
    {
      assert !(FirstDir(t) <= d < FirstDir(t) + SLOT_DIRS);
    }
  }

  /** execve in memory: the argument pages replace the address space, or nothing has happened. */
  lemma ExecMemInv(m: Mem, held: multiset<PageNo>, t: nat, pages: seq<Frame>)
    requires Inv(m, held) && 1 <= t < NR_TASKS && |pages| <= MAX_ARG_PAGES && HasTable(m, t)
    requires forall j :: 0 <= j < |pages| ==> |pages[j]| == PAGE_SIZE
    ensures var (r, ok) := ExecMem(m, t, pages);
            if ok then Replaced(m, held, t, pages, r) else Inv(r, held) && SameUse(m, r) && r.count == m.count
  {
    TakeArgsInv(m, held, pages);
    var (m1, pns) := TakeArgs(m, pages);
    if |pns| < |pages| {
      FreeArgsInv(m1, held, pns, pages[|pages| - |pns|..]);
      SameUseTwice(m, m1, FreeArgs(m1, pns));
      SamePagesSameCounts(m, FreeArgs(m1, pns), held);
      return;
    }
    assert pages[|pages| - |pns|..] == pages;
    ExecWorks(m, held, t, pages, m1, pns);
  }

  lemma ExecWorks(m: Mem, held: multiset<PageNo>, t: nat, pages: seq<Frame>, m1: Mem, pns: seq<PageNo>)
    requires SameUse(m, m1) && HoldsArgs(m1, held, pns, pages) && 1 <= t < NR_TASKS && |pages| <= MAX_ARG_PAGES
    requires HasTable(m, t) && |pns| == |pages|
    ensures var r := PutArgs(FreeTables(m1, FirstDir(t), SLOT_DIRS), pns, DirAt(t, ARG_DIR), ENTRIES - 1);
            Replaced(m, held, t, pages, r)
  {
    var k: nat :| k < SLOT_DIRS && m.dir[DirAt(t, k)] != 0;
    var top := DirAt(t, ARG_DIR);
    FreeTablesInv(m1, held + multiset(pns), FirstDir(t), SLOT_DIRS);
    var m2 := FreeTables(m1, FirstDir(t), SLOT_DIRS);
    TableFreed(m1, held + multiset(pns), t, DirAt(t, k), m2);
    hide Inv, FreeTables, GetFreePage, PutArgs;
    assert HoldsArgs(m2, held, pns, pages);
    forall j: nat | j <= ENTRIES - 1
      ensures At(m2, top, j) == Absent
    {
    }
    PutArgsInv(m2, held, pns, pages, top, ENTRIES - 1);
    ReplacedBy(m, held, t, pns, pages, m1, m2, PutArgs(m2, pns, top, ENTRIES - 1));
  }

  // ------------------------------------------------------------- enough memory

  /** With that many free pages the arguments find memory, and the rest stays free. */
  lemma {:induction false} TakesAll(m: Mem, pages: seq<Frame>, lo: nat, hi: nat)
    requires Shape(m) && FreeRun(m, lo, hi) && lo + |pages| <= hi
    requires forall j :: 0 <= j < |pages| ==> |pages[j]| == PAGE_SIZE
    ensures var (r, pns) := TakeArgs(m, pages);
            |pns| == |pages| && FreeRun(r, lo, hi - |pages|)
    decreases |pages|
  {
    if pages == [] {
      return;
    }
    FreeRunTake(m, lo, hi);
    var last := |pages| - 1;
    var (m1, pn) := GetFreePage(m);
    var q := m1.(data := m1.data[pn := pages[last]]);
    assert FreeRun(q, lo, hi - 1);
    hide GetFreePage, FreeRun;
    TakesAll(q, pages[..last], lo, hi - 1);
  }

  lemma FreePageRun(m: Mem, pn: PageNo, lo: nat, hi: nat)
    requires Shape(m) && FreeRun(m, lo, hi)
    ensures FreeRun(FreePage(m, pn), lo, hi)
  {
  }

  lemma {:induction false} FreeEntriesRun(m: Mem, t: PageNo, i: nat, lo: nat, hi: nat)
    requires Shape(m) && i <= ENTRIES && FreeRun(m, lo, hi)
    ensures FreeRun(FreeEntries(m, t, i), lo, hi)
    decreases |m.table[t]| - i
  {
    if i < ENTRIES {
      var e := m.table[t][i];
      var m1 := if e.Present? then FreePage(m, e.page) else m;
      if e.Present? {
        FreePageRun(m, e.page, lo, hi);
      }
      assert FreeRun(Store(m1, t, i, Absent), lo, hi);
      hide FreePage, FreeRun;
      FreeEntriesRun(Store(m1, t, i, Absent), t, i + 1, lo, hi);
    }
  }

  lemma FreeDirRun(m: Mem, d: nat, lo: nat, hi: nat)
    requires Shape(m) && d < DIRS && FreeRun(m, lo, hi)
    ensures FreeRun(FreeDir(m, d), lo, hi)
  {
    if m.dir[d] != 0 {
      FreeEntriesRun(m, m.dir[d], 0, lo, hi);
      var q := FreeEntries(m, m.dir[d], 0);
      hide FreeEntries;
      FreePageRun(q, q.dir[d], lo, hi);
      assert ClearDir(q, d).count == FreePage(q, q.dir[d]).count;
    }
  }

  /** Free pages stay free when address spaces go. */
  lemma {:induction false} FreeTablesRun(m: Mem, d: nat, n: nat, lo: nat, hi: nat)
    requires Shape(m) && d + n <= DIRS && FreeRun(m, lo, hi)
    ensures FreeRun(FreeTables(m, d, n), lo, hi)
    decreases n
  {
    if n > 0 {
      FreeDirRun(m, d, lo, hi);
      hide FreeDir, FreeRun;
      FreeTablesRun(FreeDir(m, d), d + 1, n - 1, lo, hi);
    }
  }

  /** With a page table in place no page is taken. */
  lemma {:induction false} PutArgsCounts(m: Mem, pns: seq<PageNo>, d: nat, i: nat)
    requires Shape(m) && d < DIRS && i < ENTRIES && |pns| <= i + 1 && m.dir[d] != 0
    ensures PutArgs(m, pns, d, i).count == m.count
    decreases |pns|
  {
    if |pns| > 1 {
      PutArgsCounts(PutPage(m, pns[|pns| - 1], d, i).0, pns[..|pns| - 1], d, i - 1);
    }
  }

  /** Mapping the arguments takes one page at most, for the table. */
  lemma PutArgsRun(m: Mem, pns: seq<PageNo>, d: nat, i: nat, lo: nat, hi: nat)
    requires Shape(m) && d < DIRS && i < ENTRIES && |pns| <= i + 1 && FreeRun(m, lo, hi) && lo < hi
    ensures FreeRun(PutArgs(m, pns, d, i), lo, hi - 1)
  {
    if pns != [] {
      var last := |pns| - 1;
      FreeRunTake(m, lo, hi);
      var q := PutPage(m, pns[last], d, i).0;
      assert q.dir[d] != 0 && FreeRun(q, lo, hi - 1);
      if last > 0 {
        PutArgsCounts(q, pns[..last], d, i - 1);
      }
    }
  }

  /** execve with room for its arguments and a page table takes no more than that. */
  lemma ExecMemRun(m: Mem, t: nat, pages: seq<Frame>, lo: nat, hi: nat)
    requires Shape(m) && t < NR_TASKS && |pages| <= MAX_ARG_PAGES && FreeRun(m, lo, hi) && lo + |pages| < hi
    requires forall j :: 0 <= j < |pages| ==> |pages[j]| == PAGE_SIZE
    ensures var (r, ok) := ExecMem(m, t, pages);
            ok && FreeRun(r, lo, hi - |pages| - 1)
  {
    hide TakeArgs, FreeTables, PutArgs, FreeArgs, FreeRun;
    TakesAll(m, pages, lo, hi);
    var (m1, pns) := TakeArgs(m, pages);
    FreeTablesRun(m1, FirstDir(t), SLOT_DIRS, lo, hi - |pages|);
    PutArgsRun(FreeTables(m1, FirstDir(t), SLOT_DIRS), pns, DirAt(t, ARG_DIR), ENTRIES - 1, lo, hi - |pages|);
  }
}

/**
 The check of the swap device, and runs of whole paging operations, each done before the next begins;
 the transfers in their midst, and what the other tasks do meanwhile, are in SwapIo.
*/
module SwapRuns {
  import opened PageTables
  import opened Swap
  import C = CowPaging
  import F = SwapFaults

  // ----------------------------------------------------------- init_swapping

  /** Some bit from `i` on, below `n`, is set. */
  predicate AnySet(bits: seq<bool>, i: nat, n: nat)
    requires i <= n <= |bits|
    decreases n - i
  {
    i < n && (bits[i] || AnySet(bits, i + 1, n))
  }

  lemma {:induction false} AnySetExists(bits: seq<bool>, i: nat, n: nat)
    requires i <= n <= |bits|
    ensures AnySet(bits, i, n) <==> exists k :: i <= k < n && bits[k]
    decreases n - i
  {
    if i < n && !bits[i] {
      AnySetExists(bits, i + 1, n);
      if exists k :: i <= k < n && bits[k] {
        var k :| i <= k < n && bits[k];
        assert i + 1 <= k;
      }
    }
  }

  /** The checks of init_swapping on the first page of the device, `page` being its bits without the signature
      and `beyond` the bit after it, which the loop looks at when the device fills the whole bitmap.
      The result says whether swapping starts. */
  function InitSwapping(blocks: nat, signed: bool, page: seq<bool>, beyond: bool): (on: bool)
    requires |page| == SWAP_BITS
  {
    if blocks < 100 then false
    else
      var size := if blocks / 4 > SWAP_BITS then SWAP_BITS else blocks / 4;
      if !signed || page[0] then false
      else if (if size == SWAP_BITS then beyond else AnySet(page, size, SWAP_BITS)) then false
      else AnySet(page, 1, size)
  }

  /** Swapping starts only with a bitmap of slots that lie on the device, slot 0 never among them. */
  lemma InitSwappingExact(blocks: nat, signed: bool, page: seq<bool>, beyond: bool)
    requires |page| == SWAP_BITS
    ensures var size := if blocks / 4 > SWAP_BITS then SWAP_BITS else blocks / 4;
            InitSwapping(blocks, signed, page, beyond) <==>
              && blocks >= 100 && signed && !(size == SWAP_BITS && beyond)
              && (forall k :: 0 <= k < SWAP_BITS && page[k] ==> 0 < k < size)
              && (exists k :: 1 <= k < size && page[k])
  {
    if blocks >= 100 {
      var size := if blocks / 4 > SWAP_BITS then SWAP_BITS else blocks / 4;
      AnySetExists(page, size, SWAP_BITS);
      AnySetExists(page, 1, size);
    }
  }

  /** A device as large as the bitmap, its first slot usable: the bit past the page decides. */
  lemma BitBeyondDecides()
    ensures var page := seq(SWAP_BITS, k => k == 1);
            InitSwapping(4 * SWAP_BITS, true, page, false) && !InitSwapping(4 * SWAP_BITS, true, page, true)
  {
    var page := seq(SWAP_BITS, k => k == 1);
    InitSwappingExact(4 * SWAP_BITS, true, page, false);
    assert page[1];
  }

  ghost function Usable(page: seq<bool>): set<nat> {
    set k: nat | k < |page| && page[k]
  }

  /** With no entry swapped yet, the slots of a bitmap that passes the checks are all free. */
  lemma StartInv(s: Paging, held: multiset<PageNo>, blocks: nat, signed: bool, beyond: bool)
    requires WellFormed(s) && PageTables.Inv(s.mem, held) && !s.bad && s.on
        && InitSwapping(blocks, signed, s.bits, beyond)
    requires forall d: nat, i: nat :: User(d, i) ==> !At(s.mem, d, i).Swapped?
    ensures Swap.Inv(s, held, Usable(s.bits))
  {
    InitSwappingExact(blocks, signed, s.bits, beyond);
    forall n: nat
      ensures SlotUsers(s.mem, n) == {}
    {
    }
  }

  // --------------------------------------------------------------------- runs

  /** Whole operations on a swapping kernel's page tables: some allocation swaps a page out, a fault swaps one in,
      a fork or an exit, a user's write to a page it may write, a write fault that swap_out does not get in the way
      of. */
  datatype Op =
    | Reclaim
    | Fault(d: nat, i: nat)
    | Fork(parent: nat, child: nat, n: nat)
    | Exit(first: nat, count: nat)
    | Write(d: nat, i: nat, k: nat, v: Byte)
    | Unshare(d: nat, i: nat)

  /** The condition under which a write fault goes right: the page has one user, or swap_out, if a page to copy to is
      wanted, leaves it where it is. */
  predicate UnsharesWell(s: Paging, d: nat, i: nat)
    requires WellFormed(s) && d < DIRS && i < ENTRIES && At(s.mem, d, i).Present?
  {
    var e := At(s.mem, d, i);
    || (LOW_PAGES <= e.page && s.mem.count[e.page - LOW_PAGES] == 1)
    || GetPage(s).1 == 0 || At(GetPage(s).0.mem, d, i) == e
  }

  ghost predicate Legal(s: Paging, op: Op)
    requires WellFormed(s)
  {
    match op
    case Reclaim => true
    case Fault(d, i) => User(d, i) && s.mem.dir[d] != 0 && At(s.mem, d, i).Swapped? && At(s.mem, d, i).slot < SWAP_BITS
    case Fork(p, c, n) =>
      && SLOT_DIRS <= p && SLOT_DIRS <= c && p + n <= DIRS && c + n <= DIRS && (p + n <= c || c + n <= p)
      && InSlot(p) == InSlot(c) && forall d: nat :: c <= d < c + n ==> s.mem.dir[d] == 0
    case Exit(d, n) => SLOT_DIRS <= d && d + n <= DIRS
    case Write(d, i, k, _) => User(d, i) && k < PAGE_SIZE && At(s.mem, d, i).Present? && At(s.mem, d, i).rw
    case Unshare(d, i) => User(d, i) && At(s.mem, d, i).Present? && UnsharesWell(s, d, i)
  }

  ghost function Next(s: Paging, op: Op): (r: Paging)
    requires WellFormed(s) && Legal(s, op)
    ensures WellFormed(r)
  {
    match op
    case Reclaim => SwapOut(s).0
    case Fault(d, i) => SwapIn(s, s.mem.dir[d], i).0
    case Fork(p, c, n) => CopyMem(s, p, c, n).0
    case Exit(d, n) => FreeTables(s, d, n)
    case Write(d, i, k, v) => s.(mem := C.Poke(s.mem, s.mem.dir[d], i, k, v))
    case Unshare(d, i) => F.UnWp(s, s.mem.dir[d], i).0
  }

  /** The operation is about the entry: it writes it, frees it, or fills it as part of a new task. */
  predicate Touches(op: Op, d: nat, i: nat) {
    match op
    case Write(d1, i1, _, _) => d == d1 && i == i1
    case Unshare(d1, i1) => d == d1 && i == i1
    case Exit(d1, n) => d1 <= d < d1 + n
    case Fork(_, c, n) => c <= d < c + n
    case _ => false
  }

  /** One operation keeps the balance of pages and slots, and loses no dirty or swapped contents it is not about. */
  lemma NextInv(s: Paging, held: multiset<PageNo>, usable: set<nat>, op: Op, d: nat, i: nat)
    requires Swap.Inv(s, held, usable) && Legal(s, op) && User(d, i)
    ensures Swap.Inv(Next(s, op), held, usable)
    ensures !Touches(op, d, i) ==> LastsAt(s, d, i, Next(s, op), d, i)
  {
    match op {
      case Reclaim => SwapOutInv(s, held, usable);
      case Fault(d1, i1) => SwapInInv(s, held, usable, d1, i1);
      case Fork(p, c, n) => ForkNext(s, held, usable, p, c, n, d, i);
      case Exit(d1, n) => ExitNext(s, held, usable, d1, n, d, i);
      case Write(d1, i1, k, v) => WriteNext(s, held, usable, d1, i1, k, v, d, i);
      case Unshare(d1, i1) => UnshareNext(s, held, usable, d1, i1, d, i);
    }
  }

  lemma ForkNext(s: Paging, held: multiset<PageNo>, usable: set<nat>, p: nat, c: nat, n: nat, d: nat, i: nat)
    requires Swap.Inv(s, held, usable) && Legal(s, Fork(p, c, n)) && User(d, i)
    ensures var r := CopyMem(s, p, c, n).0;
            Swap.Inv(r, held, usable) && (!(c <= d < c + n) ==> LastsAt(s, d, i, r, d, i))
  {
    ForkInv(s, held, usable, p, c, n);
    hide Slots, PageTables.Inv, CopyMem;
    var x := At(CopyMem(s, p, c, n).0.mem, d, i);
  }

  lemma ExitNext(s: Paging, held: multiset<PageNo>, usable: set<nat>, d1: nat, n: nat, d: nat, i: nat)
    requires Swap.Inv(s, held, usable) && Legal(s, Exit(d1, n)) && User(d, i)
    ensures var r := FreeTables(s, d1, n);
            Swap.Inv(r, held, usable) && (!(d1 <= d < d1 + n) ==> LastsAt(s, d, i, r, d, i))
  {
    FreeTablesInv(s, held, usable, d1, n);
    hide Slots, PageTables.Inv, FreeTables;
    var x := At(FreeTables(s, d1, n).mem, d, i);
  }

  lemma WriteNext(s: Paging, held: multiset<PageNo>, usable: set<nat>, d1: nat, i1: nat, k: nat, v: Byte, d: nat,
      i: nat)
    requires Swap.Inv(s, held, usable) && Legal(s, Write(d1, i1, k, v)) && User(d, i)
    ensures var r := Next(s, Write(d1, i1, k, v));
            Swap.Inv(r, held, usable) && (!(d1 == d && i1 == i) ==> LastsAt(s, d, i, r, d, i))
  {
    C.PokeInv(s.mem, held, d1, i1, k, v);
    var r := Next(s, Write(d1, i1, k, v));
    hide PageTables.Inv;
    SlotsNoSwap(s.mem, s.bits, usable, r.mem);
    hide Slots;
  }

  lemma UnshareNext(s: Paging, held: multiset<PageNo>, usable: set<nat>, d1: nat, i1: nat, d: nat, i: nat)
    requires Swap.Inv(s, held, usable) && Legal(s, Unshare(d1, i1)) && User(d, i)
    ensures var r := Next(s, Unshare(d1, i1));
            Swap.Inv(r, held, usable) && (!(d1 == d && i1 == i) ==> LastsAt(s, d, i, r, d, i))
  {
    hide Swap.Inv, GetPage, LastsAt, F.UnWp, AllLast, F.OthersLast;
    F.SoundShape(s, held, usable);
    var e := At(s.mem, d1, i1);
    if LOW_PAGES <= e.page && s.mem.count[e.page - LOW_PAGES] == 1 {
      F.UnWpPrivate(s, held, usable, d1, i1);
      F.AllLastAt(s, F.UnWp(s, s.mem.dir[d1], i1).0, d, i);
    } else if GetPage(s).1 != 0 {
      F.UnWpExact(s, held, usable, d1, i1);
      OtherLasts(s, d1, i1, F.UnWp(s, s.mem.dir[d1], i1).0, d, i);
    } else {
      UnWpFails(s, held, usable, d1, i1);
      F.AllLastAt(s, F.UnWp(s, s.mem.dir[d1], i1).0, d, i);
    }
  }

  lemma OtherLasts(s: Paging, d1: nat, i1: nat, r: Paging, d: nat, i: nat)
    requires F.OthersLast(s, d1, i1, r) && User(d, i)
    ensures !(d1 == d && i1 == i) ==> LastsAt(s, d, i, r, d, i)
  {
  }

  /** Without a page to copy to, nobody has lost anything. */
  lemma UnWpFails(s: Paging, held: multiset<PageNo>, usable: set<nat>, d: nat, i: nat)
    requires Swap.Inv(s, held, usable) && User(d, i) && s.mem.dir[d] != 0 && At(s.mem, d, i).Present?
    requires WellFormed(s) && GetPage(s).1 == 0
    requires LOW_PAGES <= At(s.mem, d, i).page ==> s.mem.count[At(s.mem, d, i).page - LOW_PAGES] != 1
    ensures var r := F.UnWp(s, s.mem.dir[d], i).0;
            Swap.Inv(r, held, usable) && AllLast(s, r)
  {
    GetPageInv(s, held, usable);
    hide Swap.Inv, GetPage, AllLast;
  }

  ghost predicate LegalRun(s: Paging, ops: seq<Op>)
    decreases |ops|
  {
    ops == [] || (WellFormed(s) && Legal(s, ops[0]) && LegalRun(Next(s, ops[0]), ops[1..]))
  }

  ghost function Run(s: Paging, ops: seq<Op>): Paging
    requires LegalRun(s, ops)
    decreases |ops|
  {
    if ops == [] then s else Run(Next(s, ops[0]), ops[1..])
  }

  /** In every run of whole operations each usable slot stays free or named by exactly one entry, every count stays
      exact, and an entry that is dirty or swapped keeps its contents until its own task writes or frees it, wherever
      the page travels in between. */
  lemma {:induction false} SwapRunInv(s: Paging, held: multiset<PageNo>, usable: set<nat>, ops: seq<Op>, d: nat, i: nat)
    requires Swap.Inv(s, held, usable) && LegalRun(s, ops) && User(d, i)
    ensures Swap.Inv(Run(s, ops), held, usable)
    ensures (forall k :: 0 <= k < |ops| ==> !Touches(ops[k], d, i)) ==>
              LastsAt(s, d, i, Run(s, ops), d, i)
              && (Solid(At(s.mem, d, i)) ==> Held(Run(s, ops), d, i) == Held(s, d, i))
    decreases |ops|
  {
    if ops == [] {
      return;
    }
    NextInv(s, held, usable, ops[0], d, i);
    var q := Next(s, ops[0]);
    hide Slots, PageTables.Inv, Next;
    SwapRunInv(q, held, usable, ops[1..], d, i);
    if forall k :: 0 <= k < |ops| ==> !Touches(ops[k], d, i) {
      assert !Touches(ops[0], d, i);
      assert forall k :: 0 <= k < |ops[1..]| ==> ops[1..][k] == ops[k + 1];
      LastsTwice(s, d, i, q, d, i, Run(s, ops), d, i);
    }
  }

  /** What the balance means for one slot: free, or named by one entry and no other. */
  lemma SlotFreeOrNamedOnce(s: Paging, held: multiset<PageNo>, usable: set<nat>, n: nat)
    requires Swap.Inv(s, held, usable) && n in usable
    ensures s.bits[n] <==> forall d: nat, i: nat :: User(d, i) ==> At(s.mem, d, i) != Swapped(n)
    ensures forall d: nat, i: nat, d': nat, i': nat ::
              User(d, i) && User(d', i') && At(s.mem, d, i) == At(s.mem, d', i') == Swapped(n) ==> d == d' && i == i'
  {
    var us := SlotUsers(s.mem, n);
    assert |us| + One(s.bits[n]) == 1;
    if s.bits[n] {
      assert us == {};
      forall d: nat, i: nat | User(d, i)
        ensures At(s.mem, d, i) != Swapped(n)
      {
        assert (d, i) !in us;
      }
    } else {
      assert us != {};
      var u :| u in us;
      assert us == {u} by {
        assert |us - {u}| == 0;
      }
      assert User(u.0, u.1) && At(s.mem, u.0, u.1) == Swapped(n);
      assert forall d: nat, i: nat :: User(d, i) && At(s.mem, d, i) == Swapped(n) ==> (d, i) in us;
    }
  }

  /** A dirty page that swap_out took comes back from swap_in as it was. */
  lemma SwapRoundTrip(s: Paging, held: multiset<PageNo>, usable: set<nat>, d: nat, i: nat)
    requires Swap.Inv(s, held, usable) && User(d, i) && s.mem.dir[d] != 0 && At(s.mem, d, i).Present?
        && At(s.mem, d, i).dirty
    ensures var (s1, ok) := TryToSwapOut(s, s.mem.dir[d], i);
            ok ==>
              && At(s1.mem, d, i).Swapped? && At(s1.mem, d, i).slot < SWAP_BITS && s1.mem.dir[d] != 0
              && (var (s2, oom) := SwapIn(s1, s1.mem.dir[d], i);
                  !oom ==>
                    && At(s2.mem, d, i).Present?
                    && s2.mem.data[At(s2.mem, d, i).page] == s.mem.data[At(s.mem, d, i).page])
  {
    TryToSwapOutInv(s, held, usable, d, i);
    TryKept(s, held, usable, d, i);
    var (s1, ok) := TryToSwapOut(s, s.mem.dir[d], i);
    if ok {
      SwapOutPage(s, held, usable, d, i, Swapped(GetSwapPage(s).1));
      assert LastsAt(s, d, i, s1, d, i);
      SwapInInv(s1, held, usable, d, i);
    }
  }

  /** After an exit the slots of the task are free again; all other slots are as they were. */
  lemma ExitFreesSlots(s: Paging, held: multiset<PageNo>, usable: set<nat>, d: nat, n: nat, nr: nat)
    requires Swap.Inv(s, held, usable) && SLOT_DIRS <= d && d + n <= DIRS && nr < SWAP_BITS
    ensures var r := FreeTables(s, d, n);
            r.bits[nr] == (s.bits[nr] || exists u: (nat, nat) :: u in SlotUsers(s.mem, nr) && d <= u.0 < d + n)
  {
    FreeTablesInv(s, held, usable, d, n);
    var r := FreeTables(s, d, n);
    assert |SlotUsers(s.mem, nr)| + One(s.bits[nr]) == One(nr in usable);
    assert |SlotUsers(r.mem, nr)| + One(r.bits[nr]) == One(nr in usable);
    assert SlotUsers(r.mem, nr) == set u | u in SlotUsers(s.mem, nr) && !(d <= u.0 < d + n);
    if u: (nat, nat) :| u in SlotUsers(s.mem, nr) && d <= u.0 < d + n {
      assert |SlotUsers(s.mem, nr) - {u}| == |SlotUsers(s.mem, nr)| - 1;
      assert SlotUsers(r.mem, nr) <= SlotUsers(s.mem, nr) - {u};
    } else {
      assert SlotUsers(r.mem, nr) == SlotUsers(s.mem, nr);
    }
  }
}

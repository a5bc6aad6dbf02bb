/**
 Physical pages, their reference counts, the page directory and the page tables
 it names, with the one invariant every paging operation keeps.

 A physical page is seen in two ways: as a table of entries and as bytes.
 Clearing a page clears both views; the invariant says that no page is ever
 used in both ways at once, so the two views never have to agree.
*/
module PageTables {
  const LOW_PAGES: nat := 0x100      // LOW_MEM, in pages
  const PAGING_PAGES: nat := 0xF00   // length of mem_map
  const USED: nat := 100             // mem_map value of a page that is never handed out
  const DIRS: nat := 1024            // entries of the page directory
  const ENTRIES: nat := 1024         // entries of one page table
  const SLOT_DIRS: nat := 16         // directory entries of one task (64 MB)
  const NR_TASKS: nat := 64          // task slots: DIRS / SLOT_DIRS
  const PAGE_SIZE: nat := 4096

  /** Task slot of a directory entry, and its offset within the slot. */
  function SlotOf(d: nat): nat { d / 16 }

  function InSlot(d: nat): nat { d % 16 }

  /** The first directory entry of a task: start_code is slot * 64 MB. */
  function FirstDir(slot: nat): nat { 16 * slot }

  function DirAt(slot: nat, off: nat): nat { 16 * slot + off }

  newtype Byte = x: int | 0 <= x < 256
  type PageNo = p: nat | p < 0x1000
  type Frame = seq<Byte>

  /** A page-table word: nothing, a swap slot (bit 0 clear), or a present page. */
  datatype Entry =
    | Absent
    | Swapped(slot: nat)
    | Present(page: PageNo, rw: bool, dirty: bool)
  {
    predicate Names(pn: PageNo) {
      Present? && page == pn
    }
  }

  /** A cleared page, read as a table and read as bytes. */
  function NoEntries(): (t: seq<Entry>)
    ensures |t| == ENTRIES && forall i :: 0 <= i < ENTRIES ==> t[i] == Absent
  {
    seq(ENTRIES, _ => Absent)
  }

  function Zeros(): (f: Frame)
    ensures |f| == PAGE_SIZE && forall k :: 0 <= k < PAGE_SIZE ==> f[k] == 0
  {
    seq(PAGE_SIZE, _ => 0)
  }

  /** `panic` records that a path calling panic() was taken. */
  datatype Mem = Mem(
    high: nat,               // HIGH_MEMORY, in pages
    count: seq<nat>,         // mem_map
    dir: seq<PageNo>,        // page directory: page of the table, 0 if not present
    table: seq<seq<Entry>>,  // physical pages read as page tables
    data: seq<Frame>,        // physical pages read as bytes
    panic: bool)

  ghost predicate Shape(m: Mem) {
    && |m.count| == PAGING_PAGES
    && |m.dir| == DIRS
    && |m.table| == |m.data| == 0x1000
    && (forall p :: 0 <= p < 0x1000 ==> |m.table[p]| == ENTRIES)
    && (forall p :: 0 <= p < 0x1000 ==> |m.data[p]| == PAGE_SIZE)
  }

  // ---------------------------------------------------------------- reading

  /** The entry that translates table index `i` of directory index `d`. */
  function At(m: Mem, d: nat, i: nat): Entry
    requires Shape(m) && d < DIRS && i < ENTRIES
  {
    if m.dir[d] == 0 then Absent else m.table[m.dir[d]][i]
  }

  /** What a user reads there: nothing, or the bytes of the page. */
  function Look(m: Mem, d: nat, i: nat): Option<Frame>
    requires Shape(m) && d < DIRS && i < ENTRIES
  {
    var e := At(m, d, i);
    if e.Present? then Some(m.data[e.page]) else None
  }

  datatype Option<T> = None | Some(value: T)

  /** Directory entries of task 0 map the kernel; those of the others are counted. */
  predicate User(d: nat, i: nat) {
    SLOT_DIRS <= d < DIRS && i < ENTRIES
  }

  ghost function Users(m: Mem, pn: PageNo): set<(nat, nat)>
    requires Shape(m)
  {
    set d: nat, i: nat | SLOT_DIRS <= d < DIRS && i < ENTRIES && At(m, d, i).Names(pn) :: (d, i)
  }

  ghost predicate IsTable(m: Mem, pn: PageNo)
    requires Shape(m)
  {
    pn != 0 && exists d: nat :: SLOT_DIRS <= d < DIRS && m.dir[d] == pn
  }

  // -------------------------------------------------------------- invariant

  ghost predicate Apart(m: Mem, d: nat, d': nat)
    requires Shape(m) && d < DIRS && d' < DIRS
  {
    d != d' && m.dir[d] != 0 ==> m.dir[d] != m.dir[d']
  }

  /** User tables lie in main memory, one per directory entry. */
  ghost predicate TablesApart(m: Mem)
    requires Shape(m)
  {
    && (forall d: nat :: SLOT_DIRS <= d < DIRS && m.dir[d] != 0 ==> LOW_PAGES <= m.dir[d])
    && (forall d: nat, d': nat {:trigger Apart(m, d, d')} ::
          SLOT_DIRS <= d < DIRS && SLOT_DIRS <= d' < DIRS ==> Apart(m, d, d'))
  }

  /** mem_map is exactly the entries naming the page plus the kernel's own holds. */
  ghost predicate Balanced(m: Mem, held: multiset<PageNo>)
    requires Shape(m)
  {
    forall pn: PageNo {:trigger Users(m, pn)} :: LOW_PAGES <= pn ==>
      m.count[pn - LOW_PAGES] == |Users(m, pn)| + (if IsTable(m, pn) then 1 else 0) + held[pn]
  }

  /** A page is a table, or held by the kernel, or named by user entries: never two of these. */
  ghost predicate Exclusive(m: Mem, held: multiset<PageNo>)
    requires Shape(m)
  {
    && (forall pn: PageNo {:trigger IsTable(m, pn)} :: IsTable(m, pn) ==> held[pn] == 0)
    && (forall d: nat, i: nat {:trigger At(m, d, i)} ::
        User(d, i) && At(m, d, i).Present? && LOW_PAGES <= At(m, d, i).page ==>
          held[At(m, d, i).page] == 0 && !IsTable(m, At(m, d, i).page))
    && (forall pn: PageNo :: m.high <= pn && LOW_PAGES <= pn ==> held[pn] > 0)
  }

  /** The holds of a kernel that has given no page to any task: every count is its own. */
  ghost function KernelHolds(count: seq<nat>, n: nat): (held: multiset<PageNo>)
    requires n <= |count| == PAGING_PAGES
    ensures forall p: PageNo :: held[p] == if LOW_PAGES <= p < LOW_PAGES + n then count[p - LOW_PAGES] else 0
  {
    if n == 0 then multiset{} else KernelHolds(count, n - 1)[LOW_PAGES + n - 1 := count[n - 1]]
  }

  /** A writable user entry names a main-memory page whose count is 1. */
  ghost predicate WritableAlone(m: Mem)
    requires Shape(m)
  {
    forall d: nat, i: nat {:trigger At(m, d, i)} :: User(d, i) && At(m, d, i).Present? && At(m, d, i).rw ==>
      LOW_PAGES <= At(m, d, i).page && m.count[At(m, d, i).page - LOW_PAGES] == 1
  }

  ghost predicate Aligned(us: set<(nat, nat)>) {
    forall u, v :: u in us && v in us ==> InSlot(u.0) == InSlot(v.0) && u.1 == v.1
  }

  /** Entries sharing a main-memory page sit at the same offset of their address spaces. */
  ghost predicate SameOffset(m: Mem)
    requires Shape(m)
  {
    forall pn: PageNo {:trigger Users(m, pn)} :: LOW_PAGES <= pn ==> Aligned(Users(m, pn))
  }

  /** The conjunction is compared with `true` so that the verifier carries it as one proposition. */
  ghost predicate Inv(m: Mem, held: multiset<PageNo>) {
    true == (
      && Shape(m)
      && !m.panic
      && LOW_PAGES <= m.high <= 0x1000
      && TablesApart(m)
      && Balanced(m, held)
      && Exclusive(m, held)
      && WritableAlone(m)
      && SameOffset(m))
  }

  // ---------------------------------------------------- elementary operations

  /** `repne scasb` runs down mem_map: the last zero byte, or -1. */
  function LastZero(s: seq<nat>, n: nat): (k: int)
    requires n <= |s|
    ensures -1 <= k < n
    ensures k >= 0 ==> s[k] == 0
    ensures forall j :: k < j < n ==> s[j] != 0
  {
    if n == 0 then -1 else if s[n - 1] == 0 then n - 1 else LastZero(s, n - 1)
  }

  /** Takes the last free page and clears it; page 0 means there is none. */
  function GetFreePage(m: Mem): (r: (Mem, PageNo))
    requires Shape(m)
    ensures Shape(r.0)
  {
    var k := LastZero(m.count, PAGING_PAGES);
    if k < 0 then (m, 0)
    else
      (m.(count := m.count[k := 1], table := m.table[LOW_PAGES + k := NoEntries()],
          data := m.data[LOW_PAGES + k := Zeros()]),
       LOW_PAGES + k)
  }

  /** The pages from `lo` up to `hi` are free. */
  predicate FreeRun(m: Mem, lo: nat, hi: nat)
    requires Shape(m)
  {
    LOW_PAGES <= lo && hi <= 0x1000 && forall k :: lo - LOW_PAGES <= k < hi - LOW_PAGES ==> m.count[k] == 0
  }

  /** The last of them, or one beyond, is taken. */
  lemma FreeRunTake(m: Mem, lo: nat, hi: nat)
    requires Shape(m) && FreeRun(m, lo, hi) && lo < hi
    ensures GetFreePage(m).1 >= hi - 1 >= LOW_PAGES && FreeRun(GetFreePage(m).0, lo, hi - 1)
  {
    assert m.count[hi - 1 - LOW_PAGES] == 0;
  }

  function FreePage(m: Mem, pn: PageNo): (r: Mem)
    requires Shape(m)
    ensures Shape(r)
  {
    if pn < LOW_PAGES then m
    else if pn >= m.high || m.count[pn - LOW_PAGES] == 0 then m.(panic := true)
    else m.(count := m.count[pn - LOW_PAGES := m.count[pn - LOW_PAGES] - 1])
  }

  /** `mem_map[...]++` on an unsigned char. */
  function Share(m: Mem, pn: PageNo): (r: Mem)
    requires Shape(m) && LOW_PAGES <= pn
    ensures Shape(r)
  {
    m.(count := m.count[pn - LOW_PAGES := (m.count[pn - LOW_PAGES] + 1) % 256])
  }

  /** Stores an entry in the page table that lives in physical page `t`. */
  function Store(m: Mem, t: PageNo, i: nat, e: Entry): (r: Mem)
    requires Shape(m) && i < ENTRIES
    ensures Shape(r)
  {
    m.(table := m.table[t := m.table[t][i := e]])
  }

  // ------------------------------------------------------- facts about counts

  /** Sharers of one page sit in different tasks: there are fewer of them than task slots. */
  lemma CountBounded(m: Mem, held: multiset<PageNo>, pn: PageNo)
    requires Inv(m, held) && LOW_PAGES <= pn
    ensures held[pn] == 0 ==> m.count[pn - LOW_PAGES] < NR_TASKS
    ensures held[pn] > 0 ==> m.count[pn - LOW_PAGES] == held[pn]
  {
    var us := Users(m, pn);
    if us != {} {
      var u :| u in us;
      assert User(u.0, u.1) && At(m, u.0, u.1).Names(pn);
      assert Aligned(us);
      InjectiveCard(us, SlotNumbers(NR_TASKS), InSlot(u.0), u.1);
    }
  }

  /** The task slots 1, ..., n - 1. */
  ghost function SlotNumbers(n: nat): (s: set<nat>)
    requires n >= 1
    ensures |s| == n - 1 && forall t :: t in s <==> 1 <= t < n
  {
    if n == 1 then {} else SlotNumbers(n - 1) + {n - 1}
  }

  lemma {:induction false} InjectiveCard(us: set<(nat, nat)>, slots: set<nat>, r: nat, i: nat)
    requires forall v :: v in us ==> SlotOf(v.0) in slots && InSlot(v.0) == r && v.1 == i
    ensures |us| <= |slots|
    decreases us
  {
    if us != {} {
      var u :| u in us;
      var t := SlotOf(u.0);
      forall v | v in us - {u}
        ensures SlotOf(v.0) in slots - {t}
      {
        assert v.0 == (SlotOf(v.0)) * SLOT_DIRS + r && u.0 == t * SLOT_DIRS + r;
      }
      InjectiveCard(us - {u}, slots - {t}, r, i);
    }
  }

  /** A writable page has exactly one user. */
  lemma WritableUnique(m: Mem, held: multiset<PageNo>, d: nat, i: nat)
    requires Inv(m, held) && User(d, i) && At(m, d, i).Present? && LOW_PAGES <= At(m, d, i).page
    requires m.count[At(m, d, i).page - LOW_PAGES] == 1
    ensures Users(m, At(m, d, i).page) == {(d, i)}
  {
    var us := Users(m, At(m, d, i).page);
    assert (d, i) in us;
    assert |us| == |us - {(d, i)}| + 1;
  }

  /** What an entry's page says about the others naming it. */
  lemma UsersAligned(m: Mem, held: multiset<PageNo>, d: nat, i: nat)
    requires Inv(m, held) && User(d, i) && At(m, d, i).Present?
    ensures var pn := At(m, d, i).page;
            forall d': nat, i': nat :: User(d', i') && At(m, d', i').Names(pn) ==>
              && (LOW_PAGES <= pn ==> InSlot(d') == InSlot(d) && i' == i)
              && (At(m, d, i).rw ==> d' == d && i' == i)
              && (At(m, d', i').rw ==> d' == d && i' == i)
  {
    var pn := At(m, d, i).page;
    assert (d, i) in Users(m, pn);
    forall d': nat, i': nat | User(d', i') && At(m, d', i').Names(pn)
      ensures (LOW_PAGES <= pn ==> InSlot(d') == InSlot(d) && i' == i)
      ensures At(m, d, i).rw || At(m, d', i').rw ==> d' == d && i' == i
    {
      assert (d', i') in Users(m, pn);
      assert LOW_PAGES <= pn ==> Aligned(Users(m, pn));
      if At(m, d, i).rw || At(m, d', i').rw {
        WritableUnique(m, held, d, i);
      }
    }
  }

  // ------------------------------------------- what one elementary step keeps

  lemma StoreAt(m: Mem, d: nat, i: nat, e: Entry)
    requires Shape(m) && TablesApart(m) && User(d, i) && m.dir[d] != 0
    ensures var r := Store(m, m.dir[d], i, e);
            forall d': nat, i': nat :: User(d', i') ==> At(r, d', i') == if d' == d && i' == i then e else At(m, d', i')
  {
    forall d': nat | SLOT_DIRS <= d' < DIRS
      ensures d' != d ==> m.dir[d] != m.dir[d']
    {
      assert Apart(m, d, d');
    }
  }

  lemma SameDirApart(m: Mem, r: Mem)
    requires Shape(m) && Shape(r) && TablesApart(m) && r.dir == m.dir
    ensures TablesApart(r)
  {
    forall d: nat, d': nat | SLOT_DIRS <= d < DIRS && SLOT_DIRS <= d' < DIRS
      ensures Apart(r, d, d')
    {
      assert Apart(m, d, d');
    }
  }

  /** `r` is `m` with the entry at (d, i) changed, and perhaps counts and bytes. */
  ghost predicate OneEntry(m: Mem, r: Mem, d: nat, i: nat) {
    && Shape(m) && Shape(r) && User(d, i)
    && r.dir == m.dir && r.high == m.high && r.panic == m.panic
    && (forall d': nat, i': nat :: User(d', i') && !(d' == d && i' == i) ==> At(r, d', i') == At(m, d', i'))
  }

  /** Counts and kernel holds moved by exactly what the changed entry stopped and started naming. */
  ghost predicate Settled(m: Mem, held: multiset<PageNo>, r: Mem, held': multiset<PageNo>, d: nat, i: nat)
    requires OneEntry(m, r, d, i)
  {
    && (forall pn: PageNo :: LOW_PAGES <= pn ==>
          r.count[pn - LOW_PAGES] + held[pn] + (if At(m, d, i).Names(pn) then 1 else 0)
          == m.count[pn - LOW_PAGES] + held'[pn] + (if At(r, d, i).Names(pn) then 1 else 0))
    && (forall pn: PageNo :: held'[pn] > 0 ==>
          held[pn] > 0 || (LOW_PAGES <= pn && Users(m, pn) <= {(d, i)} && !IsTable(m, pn) && !At(r, d, i).Names(pn)))
    && (forall pn: PageNo :: m.high <= pn && LOW_PAGES <= pn ==> held'[pn] > 0)
  }

  /** The new entry `e` at (d, i) keeps pages exclusive, sharing aligned and writable pages private. */
  ghost predicate Fits(m: Mem, held': multiset<PageNo>, d: nat, i: nat, e: Entry)
    requires Shape(m) && User(d, i)
  {
    e.Present? ==>
      && (LOW_PAGES <= e.page ==> held'[e.page] == 0 && !IsTable(m, e.page))
      && (e.rw ==> LOW_PAGES <= e.page && Users(m, e.page) <= {(d, i)})
      && (forall d': nat, i': nat :: User(d', i') && !(d' == d && i' == i) && At(m, d', i').Names(e.page) ==>
            !At(m, d', i').rw && (LOW_PAGES <= e.page ==> InSlot(d') == InSlot(d) && i' == i))
  }

  lemma OneEntryUsers(m: Mem, r: Mem, d: nat, i: nat, pn: PageNo)
    requires OneEntry(m, r, d, i)
    ensures IsTable(r, pn) == IsTable(m, pn)
    ensures Users(r, pn) == if At(r, d, i).Names(pn) then Users(m, pn) + {(d, i)} else Users(m, pn) - {(d, i)}
    ensures |Users(r, pn)| + (if At(m, d, i).Names(pn) then 1 else 0)
         == |Users(m, pn)| + (if At(r, d, i).Names(pn) then 1 else 0)
  {
    assert (d, i) in Users(m, pn) <==> At(m, d, i).Names(pn);
  }

  lemma ReplaceBalanced(m: Mem, held: multiset<PageNo>, r: Mem, held': multiset<PageNo>, d: nat, i: nat)
    requires OneEntry(m, r, d, i) && Balanced(m, held) && Settled(m, held, r, held', d, i)
    ensures Balanced(r, held')
  {
    forall pn: PageNo | LOW_PAGES <= pn
      ensures r.count[pn - LOW_PAGES] == |Users(r, pn)| + (if IsTable(r, pn) then 1 else 0) + held'[pn]
    {
      OneEntryUsers(m, r, d, i, pn);
    }
  }

  lemma ReplaceExclusive(m: Mem, held: multiset<PageNo>, r: Mem, held': multiset<PageNo>, d: nat, i: nat)
    requires OneEntry(m, r, d, i) && Inv(m, held) && Settled(m, held, r, held', d, i)
    requires Fits(m, held', d, i, At(r, d, i))
    ensures Exclusive(r, held')
  {
    forall pn: PageNo
      ensures IsTable(r, pn) == IsTable(m, pn)
    {
      OneEntryUsers(m, r, d, i, pn);
    }
    forall d1: nat, i1: nat | User(d1, i1) && At(r, d1, i1).Present? && LOW_PAGES <= At(r, d1, i1).page
      ensures held'[At(r, d1, i1).page] == 0 && !IsTable(r, At(r, d1, i1).page)
    {
      var pn := At(r, d1, i1).page;
      if !(d1 == d && i1 == i) {
        assert (d1, i1) in Users(m, pn);
        assert held[pn] == 0;
      }
    }
  }

  lemma ReplaceSharing(m: Mem, held: multiset<PageNo>, r: Mem, held': multiset<PageNo>, d: nat, i: nat)
    requires OneEntry(m, r, d, i) && Inv(m, held) && Settled(m, held, r, held', d, i)
    requires Fits(m, held', d, i, At(r, d, i))
    ensures SameOffset(r)
  {
    forall pn: PageNo | LOW_PAGES <= pn
      ensures Aligned(Users(r, pn))
    {
      OneEntryUsers(m, r, d, i, pn);
      assert Aligned(Users(m, pn));
      forall u, v | u in Users(r, pn) && v in Users(r, pn)
        ensures InSlot(u.0) == InSlot(v.0) && u.1 == v.1
      {
        assert User(u.0, u.1) && User(v.0, v.1);
      }
    }
  }

  lemma ReplaceWritable(m: Mem, held: multiset<PageNo>, r: Mem, held': multiset<PageNo>, d: nat, i: nat)
    requires OneEntry(m, r, d, i) && Inv(m, held) && Settled(m, held, r, held', d, i) && Balanced(r, held')
    requires Exclusive(r, held') && Fits(m, held', d, i, At(r, d, i))
    ensures WritableAlone(r)
  {
    forall d1: nat, i1: nat | User(d1, i1) && At(r, d1, i1).Present? && At(r, d1, i1).rw
      ensures LOW_PAGES <= At(r, d1, i1).page && r.count[At(r, d1, i1).page - LOW_PAGES] == 1
    {
      var pn := At(r, d1, i1).page;
      OneEntryUsers(m, r, d, i, pn);
      if (d1, i1) == (d, i) {
        assert Users(r, pn) == {(d, i)};
      } else {
        WritableUnique(m, held, d1, i1);
        assert Users(r, pn) == {(d1, i1)};
      }
    }
  }

  /** One entry changed, the counts and holds moved with it, and the new entry fits: the invariant survives. */
  lemma Replace(m: Mem, held: multiset<PageNo>, r: Mem, held': multiset<PageNo>, d: nat, i: nat)
    requires OneEntry(m, r, d, i) && Inv(m, held) && Settled(m, held, r, held', d, i)
    requires Fits(m, held', d, i, At(r, d, i))
    ensures Inv(r, held')
  {
    SameDirApart(m, r);
    ReplaceBalanced(m, held, r, held', d, i);
    ReplaceExclusive(m, held, r, held', d, i);
    ReplaceSharing(m, held, r, held', d, i);
    ReplaceWritable(m, held, r, held', d, i);
  }

  /** Nobody uses a page whose count is zero. */
  lemma FreeIsUnused(m: Mem, held: multiset<PageNo>, pn: PageNo)
    requires Inv(m, held) && LOW_PAGES <= pn && m.count[pn - LOW_PAGES] == 0
    ensures held[pn] == 0 && Users(m, pn) == {} && !IsTable(m, pn) && pn < m.high
    ensures forall d: nat, i: nat :: User(d, i) ==> m.dir[d] != pn && !At(m, d, i).Names(pn)
  {
    assert |Users(m, pn)| == 0;
    forall d: nat, i: nat | User(d, i)
      ensures m.dir[d] != pn && !At(m, d, i).Names(pn)
    {
      assert (d, i) !in Users(m, pn);
      assert m.dir[d] != 0 ==> IsTable(m, m.dir[d]);
    }
  }

  /** Counts and holds of one unused page may move together; nobody notices. */
  lemma TakeInv(m: Mem, held: multiset<PageNo>, r: Mem, held': multiset<PageNo>, pn: PageNo)
    requires Inv(m, held) && Shape(r) && r.dir == m.dir && r.high == m.high && !r.panic
    requires LOW_PAGES <= pn < m.high && Users(m, pn) == {} && !IsTable(m, pn)
    requires forall d: nat, i: nat :: User(d, i) ==> At(r, d, i) == At(m, d, i)
    requires forall p: PageNo :: LOW_PAGES <= p && p != pn ==> held'[p] == held[p]
    requires forall p: PageNo :: LOW_PAGES <= p ==>
      r.count[p - LOW_PAGES] + held[p] == m.count[p - LOW_PAGES] + held'[p]
    ensures Inv(r, held')
  {
    SameDirApart(m, r);
    forall p: PageNo
      ensures Users(r, p) == Users(m, p)
      ensures IsTable(r, p) == IsTable(m, p)
    {
    }
    forall d: nat, i: nat | User(d, i) && At(r, d, i).Present? && LOW_PAGES <= At(r, d, i).page
      ensures held'[At(r, d, i).page] == 0
    {
      assert (d, i) !in Users(m, pn);
    }
  }

  /** A page just taken is held once, belongs to nobody, and nothing else has moved. */
  lemma GetFreePageInv(m: Mem, held: multiset<PageNo>)
    requires Inv(m, held)
    ensures var (r, pn) := GetFreePage(m);
            if pn == 0 then r == m && forall k :: 0 <= k < PAGING_PAGES ==> m.count[k] != 0
            else
              && LOW_PAGES <= pn < m.high && held[pn] == 0 && Users(m, pn) == {} && !IsTable(m, pn)
              && Inv(r, held + multiset{pn})
              && r.dir == m.dir && r.table[pn] == NoEntries() && r.data[pn] == Zeros()
              && (forall d: nat, i: nat :: User(d, i) ==> At(r, d, i) == At(m, d, i) && Look(r, d, i) == Look(m, d, i))
              && (forall p: PageNo :: p != pn ==> r.table[p] == m.table[p] && r.data[p] == m.data[p])
  {
    var (r, pn) := GetFreePage(m);
    if pn != 0 {
      FreeIsUnused(m, held, pn);
      TakeInv(m, held, r, held + multiset{pn}, pn);
    }
  }

  lemma SetDirAt(m: Mem, d: nat, pn: PageNo)
    requires Shape(m) && SLOT_DIRS <= d < DIRS && m.dir[d] == 0 && pn != 0 && m.table[pn] == NoEntries()
    ensures var r := m.(dir := m.dir[d := pn]);
            && Shape(r)
            && (forall d': nat, i': nat :: User(d', i') ==> At(r, d', i') == At(m, d', i'))
            && (forall p: PageNo :: Users(r, p) == Users(m, p))
            && (forall p: PageNo :: IsTable(r, p) == (p == pn || IsTable(m, p)))
  {
    var r := m.(dir := m.dir[d := pn]);
    assert r.dir[d] == pn;
    forall p: PageNo
      ensures IsTable(r, p) == (p == pn || IsTable(m, p))
    {
      if IsTable(m, p) {
        var d1: nat :| SLOT_DIRS <= d1 < DIRS && m.dir[d1] == p;
        assert r.dir[d1] == p;
      }
    }
  }

  /** A cleared page the kernel holds becomes the table of an empty directory entry. */
  lemma SetDirInv(m: Mem, held: multiset<PageNo>, d: nat, pn: PageNo)
    requires Inv(m, held + multiset{pn}) && held[pn] == 0
    requires SLOT_DIRS <= d < DIRS && m.dir[d] == 0 && LOW_PAGES <= pn < m.high && m.table[pn] == NoEntries()
    ensures var r := m.(dir := m.dir[d := pn]);
            && Inv(r, held)
            && (forall d': nat, i': nat :: User(d', i') ==> At(r, d', i') == At(m, d', i'))
  {
    var r := m.(dir := m.dir[d := pn]);
    var h := held + multiset{pn};
    assert h[pn] == 1 && (forall p: PageNo :: p != pn ==> h[p] == held[p]);
    assert !IsTable(m, pn);
    SetDirAt(m, d, pn);
    assert TablesApart(r) by {
      forall d1: nat, d2: nat | SLOT_DIRS <= d1 < DIRS && SLOT_DIRS <= d2 < DIRS
        ensures Apart(r, d1, d2)
      {
        assert Apart(m, d1, d2);
        assert m.dir[d1] != 0 ==> IsTable(m, m.dir[d1]);
        assert m.dir[d2] != 0 ==> IsTable(m, m.dir[d2]);
      }
    }
    assert Exclusive(r, held) by {
      forall d1: nat, i1: nat | User(d1, i1) && At(m, d1, i1).Present? && LOW_PAGES <= At(m, d1, i1).page
        ensures At(m, d1, i1).page != pn
      {
        assert h[At(m, d1, i1).page] == 0;
      }
      assert forall p: PageNo :: m.high <= p && LOW_PAGES <= p ==> h[p] > 0;
    }
  }

  lemma ClearDirAt(m: Mem, d: nat, r: Mem)
    requires Shape(m) && Shape(r) && TablesApart(m) && SLOT_DIRS <= d < DIRS && m.dir[d] != 0
    requires forall i: nat :: i < ENTRIES ==> At(m, d, i) == Absent
    requires r.dir == m.dir[d := 0] && r.table == m.table
    ensures TablesApart(r)
    ensures forall d': nat, i': nat :: User(d', i') ==> At(r, d', i') == At(m, d', i')
    ensures forall p: PageNo :: Users(r, p) == Users(m, p)
    ensures forall p: PageNo :: IsTable(r, p) == (p != m.dir[d] && IsTable(m, p))
  {
    forall d1: nat, d2: nat | SLOT_DIRS <= d1 < DIRS && SLOT_DIRS <= d2 < DIRS
      ensures Apart(r, d1, d2)
    {
      assert Apart(m, d1, d2);
    }
    forall d1: nat | SLOT_DIRS <= d1 < DIRS && d1 != d
      ensures m.dir[d1] != m.dir[d]
    {
      assert Apart(m, d, d1);
    }
    forall p: PageNo
      ensures IsTable(r, p) == (p != m.dir[d] && IsTable(m, p))
    {
      if IsTable(m, p) && p != m.dir[d] {
        var d1: nat :| SLOT_DIRS <= d1 < DIRS && m.dir[d1] == p;
        assert r.dir[d1] == p;
      }
      if IsTable(r, p) {
        var d1: nat :| SLOT_DIRS <= d1 < DIRS && r.dir[d1] == p;
        assert d1 != d;
      }
    }
  }

  /** The table of a directory entry is given back and the entry cleared. */
  function ClearDir(m: Mem, d: nat): (r: Mem)
    requires Shape(m) && d < DIRS
    ensures Shape(r)
  {
    var r := FreePage(m, m.dir[d]);
    r.(dir := r.dir[d := 0])
  }

  lemma ClearDirInv(m: Mem, held: multiset<PageNo>, d: nat)
    requires Inv(m, held) && SLOT_DIRS <= d < DIRS && m.dir[d] != 0
    requires forall i: nat :: i < ENTRIES ==> At(m, d, i) == Absent
    ensures var r := ClearDir(m, d);
            && Inv(r, held) && r.data == m.data && r.high == m.high && r.dir == m.dir[d := 0]
            && (forall d': nat, i': nat :: User(d', i') ==> At(r, d', i') == At(m, d', i'))
  {
    var pn := m.dir[d];
    var r := ClearDir(m, d);
    assert IsTable(m, pn) && |Users(m, pn)| >= 0;
    assert m.count[pn - LOW_PAGES] >= 1 && pn < m.high;
    ClearDirAt(m, d, r);
  }
}

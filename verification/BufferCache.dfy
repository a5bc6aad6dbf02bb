/**
 The buffer cache of 0.98 as a state machine. Each step is the code one process runs
 between two sleeps, one action of the disk driver, or the driver's interrupt, and
 steps interleave freely. Hash chains and the free ring are sequences of buffer heads
 here; BufferQueues gives them as the pointers they are.

 getblk grows the cache only with free pages to spare, so grow_buffers finds its page
 and the page for more buffer heads at once and does not sleep.
*/
module BufferCache {
  datatype Key = Key(dev: nat, block: nat)
  type Data = seq<nat>

  /** b_lock and what it is held for: a request being made, or one in the driver's queue. */
  datatype Io = Unlocked | Asked(write: bool, ahead: bool) | Queued(write: bool)

  /** A buffer head; size 0 while it is unused, device 0 while it caches nothing. */
  datatype Head = Head(key: Key, size: nat, count: nat, uptodate: bool, dirt: bool, io: Io, data: Data, page: nat)

  /** Where a process stands: at a sleep inside getblk, bread or shrink_buffers, or holding a buffer. */
  datatype Pc =
    | Idle
    | Start(key: Key)
    | InTable(key: Key, b: nat)
    | Victim(key: Key, b: nat)
    | NoVictim(key: Key)
    | Holding(key: Key, b: nat)
    | Reading(key: Key, b: nat)
    | Shrinking(b: nat)

  datatype State = State(
    sizes: seq<nat>,          // block size of each device
    heads: seq<Head>,
    ring: seq<nat>,           // the free list, from free_list on
    chain: seq<seq<nat>>,     // the hash queues
    unused: set<nat>,         // unused_list
    pages: nat,               // nr_free_pages
    disk: map<Key, Data>,
    task: seq<Pc>,
    fault: bool)              // "Free block list corrupted"

  /** Where grow_buffers puts its buffers: the page it got, the heads it took, and what the page held. */
  datatype Growth = Growth(page: nat, taken: seq<nat>, junk: Data)

  datatype Step =
    | Call(t: nat, key: Key)
    | Lookup(t: nat, g: Growth)
    | Woken(t: nat)
    | Claim(t: nat)
    | BufferWait(t: nat)
    | FreePages(n: nat)
    | Fetch(t: nat)
    | Fetched(t: nat)
    | ReadAhead(t: nat)
    | Modify(t: nat, data: Data)
    | Release(t: nat)
    | Write(b: nat, ahead: bool)
    | Submit(b: nat)
    | GiveUp(b: nat)
    | Complete(b: nat, torn: Data)
    | Shrink(t: nat, b: nat)
    | Shrunk(t: nat)

  datatype Found = None | Some(b: nat)

  // ---------------------------------------------------------------- lookups

  function Xor(a: nat, b: nat): nat {
    if a == 0 then b else if b == 0 then a else 2 * Xor(a / 2, b / 2) + (if a % 2 == b % 2 then 0 else 1)
  }

  const NR_HASH: nat := 997

  function HashFn(k: Key): (h: nat)
    ensures h < NR_HASH
  {
    Xor(k.dev, k.block) % 997
  }

  predicate Within(q: seq<nat>, n: nat) {
    forall i :: 0 <= i < |q| ==> q[i] < n
  }

  ghost predicate Shape(s: State) {
    && |s.chain| == NR_HASH
    && Within(s.ring, |s.heads|)
    && (forall h :: 0 <= h < NR_HASH ==> Within(s.chain[h], |s.heads|))
    && (forall b :: b in s.unused ==> b < |s.heads|)
    && (forall t :: 0 <= t < |s.task| ==> PcShape(s, s.task[t]))
  }

  /** A device with a block size grow_buffers accepts. */
  ghost predicate ValidKey(s: State, k: Key) {
    0 < k.dev < |s.sizes| && 0 < s.sizes[k.dev] <= 4096 && s.sizes[k.dev] % 512 == 0
  }

  ghost predicate PcShape(s: State, pc: Pc) {
    && (!pc.Idle? && !pc.Shrinking? ==> ValidKey(s, pc.key))
    && (pc.InTable? || pc.Victim? || pc.Holding? || pc.Reading? || pc.Shrinking? ==> pc.b < |s.heads|)
  }

  /** find_buffer along one chain. */
  function FindIn(heads: seq<Head>, c: seq<nat>, k: Key, size: nat): (r: Found)
    requires Within(c, |heads|)
    ensures r.Some? ==> r.b < |heads|
  {
    if c == [] then None
    else if heads[c[0]].key == k then if heads[c[0]].size == size then Some(c[0]) else None
    else FindIn(heads, c[1..], k, size)
  }

  function FindBuffer(s: State, k: Key): (r: Found)
    requires Shape(s) && ValidKey(s, k)
    ensures r.Some? ==> r.b < |s.heads|
  {
    FindIn(s.heads, s.chain[HashFn(k)], k, s.sizes[k.dev])
  }

  function Badness(h: Head): nat {
    (if h.dirt then 2 else 0) + (if h.io.Unlocked? then 0 else 1)
  }

  /** The scan of getblk along the free list. */
  function PickFrom(heads: seq<Head>, list: seq<nat>, size: nat, best: Found): (r: Found)
    requires Within(list, |heads|) && (best.Some? ==> best.b < |heads|)
    ensures r.Some? ==> r.b < |heads|
  {
    if list == [] then best
    else
      var tmp := list[0];
      if heads[tmp].count != 0 || heads[tmp].size != size then PickFrom(heads, list[1..], size, best)
      else if best.None? || Badness(heads[tmp]) < Badness(heads[best.b]) then
        if Badness(heads[tmp]) == 0 then Some(tmp) else PickFrom(heads, list[1..], size, Some(tmp))
      else PickFrom(heads, list[1..], size, best)
  }

  function Disk(disk: map<Key, Data>, k: Key): Data {
    if k in disk then disk[k] else []
  }

  // ------------------------------------------------------------------- queues

  function Remove(q: seq<nat>, b: nat): (r: seq<nat>)
    ensures forall x :: x in r <==> x in q && x != b
  {
    if q == [] then [] else if q[0] == b then Remove(q[1..], b) else [q[0]] + Remove(q[1..], b)
  }

  /** put_last_free. */
  function PutLast(s: State, b: nat): State {
    s.(ring := Remove(s.ring, b) + [b])
  }

  function SetHead(s: State, b: nat, h: Head): State
    requires b < |s.heads|
  {
    s.(heads := s.heads[b := h])
  }

  function SetTask(s: State, t: nat, pc: Pc): State
    requires t < |s.task|
  {
    s.(task := s.task[t := pc])
  }

  /** remove_from_hash_queue; a buffer of device 0 is in none. */
  function Unhash(s: State, b: nat): State
    requires b < |s.heads| && |s.chain| == NR_HASH
  {
    if s.heads[b].key.dev == 0 then s
    else
      var h := HashFn(s.heads[b].key);
      s.(chain := s.chain[h := Remove(s.chain[h], b)])
  }

  function Range(lo: nat, n: nat): (r: set<nat>)
    ensures forall x: nat :: x in r <==> lo <= x < lo + n
  {
    if n == 0 then {} else Range(lo, n - 1) + {lo + n - 1}
  }

  /** b_count--, an unsigned short. */
  function Dec(h: Head): Head {
    h.(count := if h.count == 0 then 0xffff else h.count - 1)
  }

  /** Unused head: memset to zero. */
  function NoHead(): Head {
    Head(Key(0, 0), 0, 0, false, false, Unlocked, [], 0)
  }

  // -------------------------------------------------------------------- steps

  /** The last lines of getblk: a free, clean buffer becomes the buffer of `k`. */
  function ReKey(s: State, t: nat, k: Key, b: nat): State
    requires Shape(s) && t < |s.task| && b < |s.heads|
  {
    var s1 := Unhash(s, b);
    var s2 := SetHead(s1, b, s.heads[b].(key := k, count := 1, dirt := false, uptodate := false));
    var h := HashFn(k);
    SetTask(s2.(ring := Remove(s.ring, b) + [b], chain := s1.chain[h := [b] + s1.chain[h]]), t, Holding(k, b))
  }

  predicate PageIdle(s: State, b: nat)
    requires b < |s.heads| && Within(s.ring, |s.heads|)
  {
    b in s.ring && forall c :: c in s.ring && s.heads[c].page == s.heads[b].page ==>
      s.heads[c].count == 0 && !s.heads[c].dirt && s.heads[c].io.Unlocked?
  }

  /** The buffers of `list` not on page `p`. */
  function OffPage(heads: seq<Head>, list: seq<nat>, p: nat): (r: seq<nat>)
    requires Within(list, |heads|)
    ensures forall x :: x in r <==> x in list && heads[x].page != p
  {
    if list == [] then []
    else if heads[list[0]].page == p then OffPage(heads, list[1..], p)
    else [list[0]] + OffPage(heads, list[1..], p)
  }

  function OffPages(heads: seq<Head>, chain: seq<seq<nat>>, p: nat): (r: seq<seq<nat>>)
    requires forall h :: 0 <= h < |chain| ==> Within(chain[h], |heads|)
    ensures |r| == |chain| && forall h :: 0 <= h < |chain| ==> r[h] == OffPage(heads, chain[h], p)
  {
    seq(|chain|, h requires 0 <= h < |chain| => OffPage(heads, chain[h], p))
  }

  /** put_unused_buffer_head for all of `page`. */
  function Wipe(heads: seq<Head>, page: set<nat>): (r: seq<Head>)
    ensures |r| == |heads| && forall c :: 0 <= c < |heads| ==> r[c] == if c in page then NoHead() else heads[c]
  {
    seq(|heads|, c requires 0 <= c < |heads| => if c in page then NoHead() else heads[c])
  }

  /** try_to_free: nothing happens unless every buffer on the page is idle. */
  function TryToFree(s: State, b: nat): State
    requires Shape(s) && b < |s.heads|
  {
    if !PageIdle(s, b) then s
    else
      var p := s.heads[b].page;
      var page := set c | c in s.ring && s.heads[c].page == p;
      s.(heads := Wipe(s.heads, page), ring := OffPage(s.heads, s.ring, p), chain := OffPages(s.heads, s.chain, p),
         unused := s.unused + page)
  }

  /** At least two buffers stay on the ring when the page of `b` is given up. */
  predicate TwoLeft(s: State, b: nat)
    requires b < |s.heads| && Within(s.ring, |s.heads|)
  {
    PageIdle(s, b) ==> |OffPage(s.heads, s.ring, s.heads[b].page)| >= 2
  }

  // ------------------------------------------------------------------ growing

  const HEADS_PER_PAGE: nat := 85      // 4096 / sizeof(struct buffer_head)

  /** get_more_buffer_heads; with a free page get_free_page does not sleep. */
  function MoreHeads(s: State): State
    requires s.pages > 0
  {
    s.(heads := s.heads + seq(HEADS_PER_PAGE, _ => NoHead()), unused := s.unused + Range(|s.heads|, HEADS_PER_PAGE),
        pages := s.pages - 1)
  }

  /** The page is taken, and more heads if there are not enough. */
  function Prepared(s: State, size: nat): State
    requires s.pages > 1 && size > 0
  {
    var s1 := s.(pages := s.pages - 1);
    if |s.unused| < 4096 / size then MoreHeads(s1) else s1
  }

  /** Enough different unused heads for a page that no other buffers lie on. */
  ghost predicate GrowthOk(s: State, size: nat, g: Growth)
    requires Shape(s)
  {
    && size > 0 && |g.taken| == 4096 / size
    && (forall i, j :: 0 <= i < j < |g.taken| ==> g.taken[i] != g.taken[j])
    && (forall b :: b in g.taken ==> b in s.unused && b < |s.heads|)
    && (forall b :: b in s.ring ==> s.heads[b].page != g.page)
  }

  /** The heads taken, made buffers of the page. */
  function Filled(heads: seq<Head>, taken: seq<nat>, h: Head): (r: seq<Head>)
    ensures |r| == |heads| && forall c: nat :: c < |heads| ==> r[c] == if c in taken then h else heads[c]
  {
    seq(|heads|, c requires 0 <= c < |heads| => if c in taken then h else heads[c])
  }

  /** The page's buffers go in front of the free list. */
  function LinkPage(s: State, size: nat, g: Growth): State {
    s.(heads := Filled(s.heads, g.taken, NoHead().(size := size, page := g.page, data := g.junk)),
       ring := g.taken + s.ring, unused := set b | b in s.unused && b !in g.taken)
  }

  /** grow_buffers, called with free pages to spare. */
  function Grown(s: State, size: nat, g: Growth): State
    requires s.pages > 5 && size > 0
  {
    LinkPage(Prepared(s, size), size, g)
  }

  ghost predicate CanGrow(s: State, size: nat, g: Growth)
    requires Shape(s)
  {
    s.pages > 5 && size > 0 ==> Shape(Prepared(s, size)) && GrowthOk(Prepared(s, size), size, g)
  }

  ghost predicate Enabled(s: State, step: Step)
    requires Shape(s)
  {
    && !s.fault
    && match step
       case Call(t, key) => t < |s.task| && s.task[t].Idle? && ValidKey(s, key)
       case Lookup(t, g) => t < |s.task| && s.task[t].Start? && CanGrow(s, s.sizes[s.task[t].key.dev], g)
       case Woken(t) => t < |s.task| && s.task[t].InTable? && s.heads[s.task[t].b].io.Unlocked?
       case Claim(t) => t < |s.task| && s.task[t].Victim? && s.heads[s.task[t].b].io.Unlocked?
       case BufferWait(t) => t < |s.task| && s.task[t].NoVictim?
       case FreePages(_) => true
       case Fetch(t) => t < |s.task| && s.task[t].Holding? && s.heads[s.task[t].b].io.Unlocked?
       case Fetched(t) => t < |s.task| && s.task[t].Reading? && s.heads[s.task[t].b].io.Unlocked?
       case ReadAhead(t) => t < |s.task| && s.task[t].Holding?
       case Modify(t, _) => t < |s.task| && s.task[t].Holding?
       case Release(t) => t < |s.task| && s.task[t].Holding? && s.heads[s.task[t].b].io.Unlocked?
       case Write(b, _) => b in s.ring && s.heads[b].io.Unlocked? && s.heads[b].dirt
       case Submit(b) => b in s.ring && s.heads[b].io.Asked?
       case GiveUp(b) => b in s.ring && s.heads[b].io.Asked? && s.heads[b].io.ahead
       case Complete(b, _) => b in s.ring && s.heads[b].io.Queued?
       case Shrink(t, b) => t < |s.task| && s.task[t].Idle? && b in s.ring && s.heads[b].count == 0 && TwoLeft(s, b)
       case Shrunk(t) =>
         && t < |s.task| && s.task[t].Shrinking?
         && s.heads[s.task[t].b].io.Unlocked? && TwoLeft(s, s.task[t].b)
  }

  /** The last tests of getblk on its victim, which is unlocked, and the claim. */
  function DoClaim(s: State, t: nat, k: Key, b: nat): State
    requires Shape(s) && t < |s.task| && ValidKey(s, k) && b < |s.heads|
  {
    if s.heads[b].count != 0 || s.heads[b].size != s.sizes[k.dev] then SetTask(s, t, Start(k))
    else if s.heads[b].dirt then SetTask(s, t, Start(k))
    else if FindBuffer(s, k).Some? then SetTask(s, t, Start(k))
    else if b !in s.ring || |s.ring| < 2 then s.(fault := true)
    else ReKey(s, t, k, b)
  }

  /** getblk's scan, and the claim at once unless the victim is locked. */
  function DoScan(s: State, t: nat, k: Key, g: Growth): State
    requires Shape(s) && t < |s.task| && ValidKey(s, k)
  {
    var size := s.sizes[k.dev];
    var f := PickFrom(s.heads, s.ring, size, None);
    if f.Some? then if s.heads[f.b].io.Unlocked? then DoClaim(s, t, k, f.b) else SetTask(s, t, Victim(k, f.b))
    else if s.pages > 5 then SetTask(Grown(s, size, g), t, Start(k))
    else SetTask(s, t, NoVictim(k))
  }

  /** get_hash_table from the top of getblk, up to its sleep; if it finds nothing, the rest of getblk up to a sleep. */
  ghost function DoLookup(s: State, t: nat, g: Growth): State
    requires Shape(s) && t < |s.task| && s.task[t].Start? && CanGrow(s, s.sizes[s.task[t].key.dev], g)
  {
    var k := s.task[t].key;
    var f := FindBuffer(s, k);
    if f.Some? then
      var s1 := SetHead(s, f.b, s.heads[f.b].(count := s.heads[f.b].count + 1));
      if s.heads[f.b].io.Unlocked? then SetTask(PutLast(s1, f.b), t, Holding(k, f.b))
          else SetTask(s1, t, InTable(k, f.b))
    else if s.pages > 30 then
      GrownShape(s, s.sizes[k.dev], g);
      DoScan(Grown(s, s.sizes[k.dev], g), t, k, g)
    else DoScan(s, t, k, g)
  }

  lemma GrownShape(s: State, size: nat, g: Growth)
    requires Shape(s) && s.pages > 5 && size > 0 && CanGrow(s, size, g)
    ensures Shape(Grown(s, size, g)) && Grown(s, size, g).sizes == s.sizes && Grown(s, size, g).task == s.task
  {
    var s1, s2 := Prepared(s, size), Grown(s, size, g);
    forall i | 0 <= i < |s2.ring|
      ensures s2.ring[i] < |s2.heads|
    {
      assert s2.ring[i] in g.taken || s2.ring[i] in s1.ring;
    }
    forall t | 0 <= t < |s2.task|
      ensures PcShape(s2, s2.task[t])
    {
      assert PcShape(s1, s1.task[t]);
    }
  }

  ghost function Next(s: State, step: Step): State
    requires Shape(s) && Enabled(s, step)
  {
    match step
    case Call(t, key) => SetTask(s, t, Start(key))
    case Lookup(t, g) => DoLookup(s, t, g)
    case Woken(t) =>
      var (k, b) := (s.task[t].key, s.task[t].b);
      if s.heads[b].key == k && s.heads[b].size == s.sizes[k.dev] then SetTask(PutLast(s, b), t, Holding(k, b))
      else SetTask(SetHead(s, b, Dec(s.heads[b])), t, Start(k))
    case Claim(t) => DoClaim(s, t, s.task[t].key, s.task[t].b)
    case BufferWait(t) => SetTask(s, t, Start(s.task[t].key))
    case FreePages(n) => s.(pages := n)
    case Fetch(t) =>
      var (k, b) := (s.task[t].key, s.task[t].b);
      if s.heads[b].uptodate then s
      else SetTask(SetHead(s, b, s.heads[b].(io := Asked(false, false))), t, Reading(k, b))
    case Fetched(t) =>
      var (k, b) := (s.task[t].key, s.task[t].b);
      if s.heads[b].uptodate then SetTask(s, t, Holding(k, b))
      else SetTask(SetHead(s, b, Dec(s.heads[b])), t, Idle)
    case ReadAhead(t) =>
      var b := s.task[t].b;
      var h := Dec(s.heads[b]);
      SetTask(SetHead(s, b, if !h.uptodate && h.io.Unlocked? then h.(io := Asked(false, true)) else h), t, Idle)
    case Modify(t, data) =>
      var b := s.task[t].b;
      SetHead(s, b, s.heads[b].(data := data, uptodate := true, dirt := true))
    case Release(t) =>
      var b := s.task[t].b;
      SetTask(SetHead(s, b, Dec(s.heads[b])), t, Idle)
    case Write(b, ahead) => SetHead(s, b, s.heads[b].(io := Asked(true, ahead)))
    case Submit(b) => SetHead(s, b, s.heads[b].(io := Queued(s.heads[b].io.write), dirt := false))
    case GiveUp(b) => SetHead(s, b, s.heads[b].(io := Unlocked))
    case Complete(b, torn) =>
      var h := s.heads[b];
      if h.io.write then
        SetHead(s, b, h.(io := Unlocked, uptodate := true)).(disk := s.disk[h.key := if h.dirt then torn else h.data])
      else SetHead(s, b, h.(io := Unlocked, uptodate := true, data := Disk(s.disk, h.key)))
    case Shrink(t, b) =>
      if !s.heads[b].io.Unlocked? then SetTask(s, t, Shrinking(b))
      else if s.heads[b].dirt then s else TryToFree(s, b)
    case Shrunk(t) =>
      var b := s.task[t].b;
      SetTask(if s.heads[b].dirt then s else TryToFree(s, b), t, Idle)
  }
}

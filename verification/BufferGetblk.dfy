/**
 What getblk gets: which buffer each of its stretches ends with, and when it sleeps or starts again instead.
*/
module BufferGetblk {
  import opened BufferCache
  import opened BufferSafety

  // ------------------------------------------------------------------ the scan

  /** What the scan looks for. */
  predicate Candidate(h: Head, size: nat) {
    h.count == 0 && h.size == size
  }

  /** A clean buffer is better than a dirty one, locked or not; of two alike an unlocked one is better. */
  predicate Better(h: Head, h': Head) {
    if h.dirt == h'.dirt then h.io.Unlocked? && !h'.io.Unlocked? else h'.dirt
  }

  /** No candidate of the list is better than place i, and those before it are all worse. */
  predicate Best(heads: seq<Head>, list: seq<nat>, size: nat, i: nat) {
    && Within(list, |heads|) && i < |list| && Candidate(heads[list[i]], size)
    && (forall j :: 0 <= j < |list| && Candidate(heads[list[j]], size) ==>
        !Better(heads[list[j]], heads[list[i]]) && (j < i ==> Better(heads[list[i]], heads[list[j]])))
  }

  lemma BestLater(heads: seq<Head>, list: seq<nat>, size: nat, i: nat)
    requires list != [] && Within(list, |heads|) && Best(heads, list[1..], size, i)
    requires Candidate(heads[list[0]], size) ==> Better(heads[list[1..][i]], heads[list[0]])
    ensures Best(heads, list, size, i + 1)
  {
    assert forall j :: 0 <= j < |list[1..]| ==> list[1..][j] == list[j + 1];
  }

  lemma BestFirst(heads: seq<Head>, list: seq<nat>, size: nat)
    requires list != [] && Within(list, |heads|) && Candidate(heads[list[0]], size)
    requires forall b :: b in list[1..] && Candidate(heads[b], size) ==> !Better(heads[b], heads[list[0]])
    ensures Best(heads, list, size, 0)
  {
    forall j | 0 < j < |list|
      ensures list[j] in list[1..]
    {
      assert list[1..][j - 1] == list[j];
    }
  }

  /** The scan from a buffer already picked: it keeps that unless the list has a better one. */
  lemma {:induction false} PickFromExact(heads: seq<Head>, list: seq<nat>, size: nat, best: nat)
    requires Within(list, |heads|) && best < |heads|
    ensures var f := PickFrom(heads, list, size, Some(best));
            && f.Some?
            && (if forall b :: b in list && Candidate(heads[b], size) ==> !Better(heads[b], heads[best])
                then f.b == best
                else Better(heads[f.b], heads[best]) && exists i: nat :: Best(heads, list, size, i) && list[i] == f.b)
  {
    if list == [] {
      return;
    }
    hide Best;
    var tmp, rest := list[0], list[1..];
    assert forall x :: x in list <==> x == tmp || x in rest;
    var pick := Candidate(heads[tmp], size) && Better(heads[tmp], heads[best]);
    if pick && Badness(heads[tmp]) == 0 {
      BestFirst(heads, list, size);
      return;
    }
    var best1 := if pick then tmp else best;
    PickFromExact(heads, rest, size, best1);
    if forall b :: b in rest && Candidate(heads[b], size) ==> !Better(heads[b], heads[best1]) {
      if pick {
        BestFirst(heads, list, size);
      }
    } else {
      var f := PickFrom(heads, rest, size, Some(best1));
      var i: nat :| Best(heads, rest, size, i) && rest[i] == f.b;
      BestLater(heads, list, size, i);
    }
  }

  /** The scan picks the first of the best candidates: a clean locked buffer before a dirty unlocked one, and of
      equals the one longest on the free list. */
  lemma {:induction false} PickExact(heads: seq<Head>, list: seq<nat>, size: nat)
    requires Within(list, |heads|)
    ensures var f := PickFrom(heads, list, size, None);
            if f.None? then forall b :: b in list ==> !Candidate(heads[b], size)
            else exists i: nat :: Best(heads, list, size, i) && list[i] == f.b
  {
    if list == [] {
      return;
    }
    hide Best;
    var tmp, rest := list[0], list[1..];
    assert forall x :: x in list <==> x == tmp || x in rest;
    if !Candidate(heads[tmp], size) {
      PickExact(heads, rest, size);
      var f := PickFrom(heads, rest, size, None);
      if f.Some? {
        var i: nat :| Best(heads, rest, size, i) && rest[i] == f.b;
        BestLater(heads, list, size, i);
      }
    } else if Badness(heads[tmp]) == 0 {
      BestFirst(heads, list, size);
    } else {
      PickFromExact(heads, rest, size, tmp);
      if forall b :: b in rest && Candidate(heads[b], size) ==> !Better(heads[b], heads[tmp]) {
        BestFirst(heads, list, size);
      } else {
        var f := PickFrom(heads, rest, size, Some(tmp));
        var i: nat :| Best(heads, rest, size, i) && rest[i] == f.b;
        BestLater(heads, list, size, i);
      }
    }
  }

  // ----------------------------------------------------------------- the claim

  /** The sequence `q` with `b` taken out of its place and put at the end. */
  ghost predicate MovedLast(q: seq<nat>, b: nat, r: seq<nat>) {
    exists i :: 0 <= i < |q| && q[i] == b && r == q[..i] + q[i + 1..] + [b]
  }

  lemma {:induction false} RemoveAt(q: seq<nat>, b: nat, i: nat)
    requires i < |q| && q[i] == b && NoDup(q)
    ensures Remove(q, b) == q[..i] + q[i + 1..]
  {
    if i == 0 {
      RemoveNone(q[1..], b);
      assert q[..0] + q[1..] == q[1..];
    } else {
      RemoveAt(q[1..], b, i - 1);
      assert q[..i] + q[i + 1..] == [q[0]] + (q[1..][..i - 1] + q[1..][i..]);
    }
  }

  lemma {:induction false} RemoveNone(q: seq<nat>, b: nat)
    requires b !in q
    ensures Remove(q, b) == q
  {
    if q != [] {
      RemoveNone(q[1..], b);
    }
  }

  lemma RemovedLast(q: seq<nat>, b: nat)
    requires b in q && NoDup(q)
    ensures MovedLast(q, b, Remove(q, b) + [b])
  {
    var i :| 0 <= i < |q| && q[i] == b;
    RemoveAt(q, b, i);
  }

  /** Buffer `b` has become the buffer of `k`: used once, clean, its data not valid yet, last on the free list and
      first in the hash queue; the other buffers are as they were. */
  ghost predicate Claimed(s: State, t: nat, k: Key, b: nat, r: State) {
    && t < |s.task| && b < |s.heads| == |r.heads| && |r.chain| == NR_HASH
    && r.task == s.task[t := Holding(k, b)]
    && r.heads[b].key == k && r.heads[b].count == 1 && !r.heads[b].dirt && !r.heads[b].uptodate
    && r.heads[b].io.Unlocked? && r.heads[b].size == s.heads[b].size && r.heads[b].page == s.heads[b].page
    && (forall c: nat :: c < |s.heads| && c != b ==> r.heads[c] == s.heads[c])
    && MovedLast(s.ring, b, r.ring) && r.chain[HashFn(k)] != [] && r.chain[HashFn(k)][0] == b
    && r.sizes == s.sizes && r.disk == s.disk && r.unused == s.unused && r.pages == s.pages && !r.fault
  }

  /** No buffer caches the block. */
  ghost predicate Uncached(s: State, k: Key)
    requires Shape(s)
  {
    forall c :: c in s.ring ==> s.heads[c].key != k
  }

  /** The last tests of getblk: the victim becomes the buffer of `k` if it is on the free list, unused, clean and of
      the right size, and nobody has cached the block meanwhile; in every other case getblk starts again. */
  lemma ClaimExact(s: State, t: nat, k: Key, b: nat)
    requires Claims(s, t, k, b)
    ensures var r := DoClaim(s, t, k, b);
            if b in s.ring && Chosen(s, k, b) && Uncached(s, k) then Claimed(s, t, k, b, r)
            else r == SetTask(s, t, Start(k))
  {
    ClaimNeverFaults(s, t, k, b);
    FindBufferExact(s, k);
    ClaimFacts(s, t, k, b);
    if b in s.ring {
      RemovedLast(s.ring, b);
    }
    hide FindBuffer, Placed, Hashed, Unique, Counted, HeadOk, PcOk, MovedLast;
  }

  lemma ClaimFacts(s: State, t: nat, k: Key, b: nat)
    requires Claims(s, t, k, b)
    ensures NoDup(s.ring) && |s.ring| >= 2 && !s.fault
  {
  }

  // ---------------------------------------------------------------- the lookup

  ghost predicate Has(s: State, k: Key, b: nat)
    requires Shape(s)
  {
    b in s.ring && s.heads[b].key == k
  }

  /** A cached block: its buffer is used once more; unlocked it is the caller's and goes to the end of the free list,
      else the caller waits for it. */
  ghost predicate Hit(s: State, t: nat, k: Key, b: nat, r: State) {
    && t < |s.task| && b < |s.heads|
    && r == s.(heads := s.heads[b := s.heads[b].(count := s.heads[b].count + 1)], task := r.task, ring := r.ring)
    && (if s.heads[b].io.Unlocked? then r.task == s.task[t := Holding(k, b)] && MovedLast(s.ring, b, r.ring)
        else r.task == s.task[t := InTable(k, b)] && r.ring == s.ring)
  }

  lemma LookupHit(s: State, t: nat, g: Growth, b: nat)
    requires Inv(s) && Enabled(s, Lookup(t, g)) && Has(s, s.task[t].key, b)
    ensures Hit(s, t, s.task[t].key, b, Next(s, Lookup(t, g)))
  {
    var k := s.task[t].key;
    FindBufferExact(s, k);
    SameBuffer(s, k, b, FindBuffer(s, k).b);
    RemovedLast(s.ring, b);
    hide FindBuffer, MovedLast, CanGrow, Placed, Hashed, Unique, Counted, HeadOk, PcOk, DoScan, Grown;
  }

  lemma SameBuffer(s: State, k: Key, b: nat, c: nat)
    requires Inv(s) && ValidKey(s, k) && Has(s, k, b) && Has(s, k, c)
    ensures b == c && NoDup(s.ring)
  {
  }

  /** What getblk does when no buffer caches the block. */
  ghost predicate Scanned(s: State, t: nat, k: Key, g: Growth, r: State)
    requires Shape(s) && t < |s.task| && ValidKey(s, k)
  {
    var size := s.sizes[k.dev];
    if exists b :: b in s.ring && Candidate(s.heads[b], size) then
      exists i: nat :: Best(s.heads, s.ring, size, i) && Taken(s, t, k, s.ring[i], r)
    else if s.pages > 5 then r == SetTask(Grown(s, size, g), t, Start(k))
    else r == SetTask(s, t, NoVictim(k))
  }

  /** What getblk does with the buffer its scan picked. */
  ghost predicate Taken(s: State, t: nat, k: Key, b: nat, r: State) {
    && t < |s.task| && b < |s.heads|
    && (if !s.heads[b].io.Unlocked? then r == SetTask(s, t, Victim(k, b))
        else if s.heads[b].dirt then r == SetTask(s, t, Start(k))
        else Claimed(s, t, k, b, r))
  }

  lemma ScanExact(s: State, t: nat, k: Key, g: Growth)
    requires Inv(s) && t < |s.task| && Quiet(s.task[t]) && ValidKey(s, k) && Uncached(s, k)
    ensures Scanned(s, t, k, g, DoScan(s, t, k, g))
  {
    var size := s.sizes[k.dev];
    var f := PickFrom(s.heads, s.ring, size, None);
    PickExact(s.heads, s.ring, size);
    if f.None? {
      return;
    }
    var i: nat :| Best(s.heads, s.ring, size, i) && s.ring[i] == f.b;
    hide Best, Claimed, Placed, Hashed, Unique, Counted, HeadOk, PcOk;
    if s.heads[f.b].io.Unlocked? {
      ClaimExact(s, t, k, f.b);
    }
    BestIs(s.heads, s.ring, size, i);
    assert Taken(s, t, k, s.ring[i], DoScan(s, t, k, g));
  }

  lemma BestIs(heads: seq<Head>, list: seq<nat>, size: nat, i: nat)
    requires Best(heads, list, size, i)
    ensures list[i] in list && list[i] < |heads| && Candidate(heads[list[i]], size)
  {
  }

  /** A stretch of getblk from its top: the cached buffer, or with many free pages one of a new page, or the best
      candidate there is. */
  lemma LookupExact(s: State, t: nat, g: Growth)
    requires Inv(s) && Enabled(s, Lookup(t, g))
    ensures var k, r := s.task[t].key, Next(s, Lookup(t, g));
            if exists b: nat :: Has(s, k, b) then exists b: nat :: Has(s, k, b) && Hit(s, t, k, b, r)
            else if s.pages > 30 then Fresh(s, t, k, g, r)
            else Scanned(s, t, k, g, r)
  {
    var k := s.task[t].key;
    if b: nat :| Has(s, k, b) {
      LookupHit(s, t, g, b);
    } else {
      LookupMiss(s, t, g);
    }
  }

  /** grow_buffers first, then the first buffer of the new page. */
  ghost predicate Fresh(s: State, t: nat, k: Key, g: Growth, r: State)
    requires Shape(s) && ValidKey(s, k) && s.pages > 5
  {
    g.taken != [] && Claimed(Grown(s, s.sizes[k.dev], g), t, k, g.taken[0], r)
  }

  lemma LookupMiss(s: State, t: nat, g: Growth)
    requires Inv(s) && Enabled(s, Lookup(t, g)) && forall b: nat :: !Has(s, s.task[t].key, b)
    ensures var k, r := s.task[t].key, Next(s, Lookup(t, g));
            if s.pages > 30 then Fresh(s, t, k, g, r) else Scanned(s, t, k, g, r)
  {
    var k := s.task[t].key;
    FindBufferExact(s, k);
    hide Scanned, Claimed, Placed, Hashed, Unique, Counted, HeadOk, PcOk, FindBuffer, Grown, DoScan, CanGrow;
    MissIs(s, k);
    if s.pages > 30 {
      GrownScan(s, t, k, g);
    } else {
      ScanExact(s, t, k, g);
    }
  }

  lemma MissIs(s: State, k: Key)
    requires Shape(s) && forall b: nat :: !Has(s, k, b)
    ensures Uncached(s, k)
  {
    forall c | c in s.ring
      ensures s.heads[c].key != k
    {
      assert !Has(s, k, c);
    }
  }

  lemma GrownScan(s: State, t: nat, k: Key, g: Growth)
    requires Inv(s) && t < |s.task| && Quiet(s.task[t]) && ValidKey(s, k) && Uncached(s, k) && s.pages > 5
    requires CanGrow(s, s.sizes[k.dev], g)
    ensures var s1 := Grown(s, s.sizes[k.dev], g);
            Shape(s1) && ValidKey(s1, k) && t < |s1.task| && Fresh(s, t, k, g, DoScan(s1, t, k, g))
  {
    var size := s.sizes[k.dev];
    TakenSome(s, size, g);
    GrownInv(s, size, g);
    var s1 := Grown(s, size, g);
    hide Claimed, Placed, Hashed, Unique, Counted, HeadOk, PcOk, Grown, CanGrow;
    assert s1.ring[0] == g.taken[0] && g.taken[0] in g.taken;
    assert Uncached(s1, k) by {
      assert forall c :: c in s1.ring ==> c in g.taken || c in s.ring;
    }
    assert PickFrom(s1.heads, s1.ring, size, None) == Some(g.taken[0]);
    ClaimExact(s1, t, k, g.taken[0]);
  }

  lemma TakenSome(s: State, size: nat, g: Growth)
    requires Shape(s) && s.pages > 5 && 0 < size <= 4096 && CanGrow(s, size, g)
    ensures g.taken != []
  {
  }

  /** When getblk has a buffer after one stretch: the block is cached and unlocked, or it is not cached and either
      pages are plentiful or an unused, clean, unlocked buffer of its size is there. */
  lemma LookupGets(s: State, t: nat, g: Growth)
    requires Inv(s) && Enabled(s, Lookup(t, g))
    ensures var k, r := s.task[t].key, Next(s, Lookup(t, g));
            (t < |r.task| && r.task[t].Holding?) <==>
              if exists b: nat :: Has(s, k, b) then exists b: nat :: Has(s, k, b) && s.heads[b].io.Unlocked?
              else s.pages > 30 || exists b :: b in s.ring && Chosen(s, k, b)
  {
    var k, r := s.task[t].key, Next(s, Lookup(t, g));
    LookupExact(s, t, g);
    if b: nat :| Has(s, k, b) {
      forall c: nat | Has(s, k, c)
        ensures c == b
      {
        SameBuffer(s, k, b, c);
      }
    } else if s.pages <= 30 {
      ScanGets(s, t, k, g, r);
    }
  }

  lemma ScanGets(s: State, t: nat, k: Key, g: Growth, r: State)
    requires Shape(s) && t < |s.task| && ValidKey(s, k) && Scanned(s, t, k, g, r)
    ensures t < |r.task|
    ensures r.task[t].Holding? <==> exists b :: b in s.ring && Chosen(s, k, b)
  {
    hide Taken;
    var size := s.sizes[k.dev];
    if exists b :: b in s.ring && Candidate(s.heads[b], size) {
      var i: nat :| Best(s.heads, s.ring, size, i) && Taken(s, t, k, s.ring[i], r);
      BestIs(s.heads, s.ring, size, i);
      TakenGets(s, t, k, s.ring[i], r);
      if exists b :: b in s.ring && Chosen(s, k, b) {
        BestChosen(s, k, i);
      }
    }
    if b :| b in s.ring && Chosen(s, k, b) {
      assert Candidate(s.heads[b], size);
    }
  }

  lemma TakenGets(s: State, t: nat, k: Key, b: nat, r: State)
    requires Taken(s, t, k, b, r)
    ensures t < |r.task| && b < |s.heads|
    ensures r.task[t].Holding? <==> s.heads[b].io.Unlocked? && !s.heads[b].dirt
  {
  }

  /** If any candidate may be claimed at once, so may the best. */
  lemma BestChosen(s: State, k: Key, i: nat)
    requires Shape(s) && k.dev < |s.sizes| && Best(s.heads, s.ring, s.sizes[k.dev], i)
    requires exists b :: b in s.ring && Chosen(s, k, b)
    ensures Chosen(s, k, s.ring[i])
  {
    var b :| b in s.ring && Chosen(s, k, b);
    var j :| 0 <= j < |s.ring| && s.ring[j] == b;
    assert Candidate(s.heads[s.ring[j]], s.sizes[k.dev]);
  }

  // ------------------------------------------------- after the sleeps, and I/O

  /** The waiter for a cached buffer finds it still there, and gets it. */
  lemma WokenExact(s: State, t: nat)
    requires Inv(s) && Enabled(s, Woken(t))
    ensures var (k, b, r) := (s.task[t].key, s.task[t].b, Next(s, Woken(t)));
            && r == s.(task := s.task[t := Holding(k, b)], ring := r.ring) && MovedLast(s.ring, b, r.ring)
  {
    var b := s.task[t].b;
    HeldCounts(s, t);
    SameBuffer(s, s.task[t].key, b, b);
    RemovedLast(s.ring, b);
  }

  /** bread from a held buffer: done at once if its data are valid, else it has asked for a read of the block. */
  lemma FetchExact(s: State, t: nat)
    requires Inv(s) && Enabled(s, Fetch(t))
    ensures var (b, r) := (s.task[t].b, Next(s, Fetch(t)));
            if s.heads[b].uptodate then r == s
            else && BeingRead(r.heads[b]) && r.task == s.task[t := Reading(s.task[t].key, b)]
                 && r == s.(heads := s.heads[b := s.heads[b].(io := r.heads[b].io)], task := r.task)
  {
  }

  /** A dirty buffer that is written, with no store meanwhile, ends clean and unlocked, and the disk has its data. */
  lemma WriteBack(s: State, b: nat, ahead: bool, torn: Data)
    requires Inv(s) && Enabled(s, Write(b, ahead))
    ensures var s1 := Next(s, Write(b, ahead));
            && Inv(s1) && Enabled(s1, Submit(b))
            && var s2 := Next(s1, Submit(b));
            && Inv(s2) && Enabled(s2, Complete(b, torn))
            && var r := Next(s2, Complete(b, torn));
            && Disk(r.disk, s.heads[b].key) == s.heads[b].data
            && r == s.(heads := s.heads[b := s.heads[b].(dirt := false)], disk := r.disk)
            && (forall k :: k != s.heads[b].key ==> Disk(r.disk, k) == Disk(s.disk, k))
  {
    NextInv(s, Write(b, ahead));
    var s1 := Next(s, Write(b, ahead));
    NextInv(s1, Submit(b));
    var s2 := Next(s1, Submit(b));
    assert HeadOk(s.sizes, s.disk, s.heads[b]);
    hide Placed, Hashed, Unique, Counted, PcOk, PcShape;
  }

  /** try_to_free, called on an unlocked clean buffer of the free list: if every buffer on its page is unused, clean
      and unlocked, the page's buffers and no others are gone from the free list and the hash queues and their heads
      are unused; else nothing happens. */
  lemma TryToFreeExact(s: State, b: nat)
    requires Inv(s) && b in s.ring
    ensures var r, p := TryToFree(s, b), s.heads[b].page;
            if exists c :: c in s.ring && s.heads[c].page == p && !(s.heads[c].count == 0 && !s.heads[c].dirt
                && s.heads[c].io.Unlocked?)
            then r == s
            else && |r.heads| == |s.heads| && |r.chain| == NR_HASH
                 && (forall c: nat :: c < |s.heads| ==>
                      var gone := c in s.ring && s.heads[c].page == p;
                      && (c in r.ring <==> c in s.ring && !gone) && (c in r.unused <==> c in s.unused || gone)
                      && r.heads[c] == (if gone then NoHead() else s.heads[c])
                      && (forall h :: 0 <= h < NR_HASH ==> (c in r.chain[h] <==> c in s.chain[h] && !gone)))
                 && r.disk == s.disk && r.task == s.task && r.sizes == s.sizes
  {
    forall h: nat, c: nat | h < NR_HASH && c in s.chain[h]
      ensures c in s.ring
    {
      assert Chained(s, h, c);
    }
  }
}

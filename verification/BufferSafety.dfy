/**
 What every interleaving of the buffer cache keeps: one buffer for each block, counts
 that match the holders, and clean buffers that agree with the disk.
*/
module BufferSafety {
  import opened BufferCache

  // ---------------------------------------------------------------- invariant

  predicate NoDup(q: seq<nat>) {
    forall i, j :: 0 <= i < j < |q| ==> q[i] != q[j]
  }

  predicate Holds(pc: Pc, b: nat) {
    (pc.InTable? || pc.Holding? || pc.Reading?) && pc.b == b
  }

  /** How many processes hold buffer `b`. */
  function Holders(task: seq<Pc>, b: nat): nat {
    if task == [] then 0 else Holders(task[..|task| - 1], b) + (if Holds(task[|task| - 1], b) then 1 else 0)
  }

  predicate BeingRead(h: Head) {
    h.io == Asked(false, false) || h.io == Queued(false)
  }

  /** A buffer on the ring: idle if it caches nothing; dirty only with data; the disk's data if clean. */
  predicate HeadOk(sizes: seq<nat>, disk: map<Key, Data>, h: Head) {
    && h.size > 0
    && (h.key.dev != 0 ==> h.key.dev < |sizes| && h.size == sizes[h.key.dev])
    && (h.key.dev == 0 ==> h.count == 0 && !h.uptodate && h.io.Unlocked?)
    && (h.dirt ==> h.uptodate)
    && (!h.io.Unlocked? && h.io.write ==> h.uptodate)
    && (h.io.Asked? && h.uptodate ==> h.dirt)
    && (h.uptodate && !h.dirt && h.io.Unlocked? ==> h.data == Disk(disk, h.key))
  }

  /** A buffer that caches nothing. */
  predicate Blank(h: Head) {
    h.key == Key(0, 0) && h.count == 0 && !h.uptodate && !h.dirt && h.io.Unlocked?
  }

  /** Every head is on the ring or on the unused list, and not on both. */
  ghost predicate Placed(s: State)
    requires Shape(s)
  {
    && NoDup(s.ring) && |s.ring| >= 2
    && (forall b: nat :: b < |s.heads| ==> (b in s.ring <==> b !in s.unused))
    && (forall b :: b in s.unused ==> s.heads[b] == NoHead())
  }

  ghost predicate Chained(s: State, h: nat, b: nat)
    requires Shape(s) && h < NR_HASH
  {
    b in s.chain[h]
  }

  /** The hash queues hold exactly the buffers that cache something, each in its own queue. */
  ghost predicate Hashed(s: State)
    requires Shape(s)
  {
    && (forall h :: 0 <= h < NR_HASH ==> NoDup(s.chain[h]))
    && (forall h: nat, b: nat {:trigger Chained(s, h, b)} :: h < NR_HASH && b < |s.heads| ==>
          (Chained(s, h, b) <==> b in s.ring && s.heads[b].key.dev != 0 && HashFn(s.heads[b].key) == h))
  }

  /** No two buffers for one block. */
  ghost predicate Unique(s: State)
    requires Shape(s)
  {
    forall b, c :: b in s.ring && c in s.ring && s.heads[b].key == s.heads[c].key && s.heads[b].key.dev != 0 ==> b == c
  }

  ghost predicate PcOk(s: State, pc: Pc)
    requires Shape(s) && PcShape(s, pc)
  {
    && (pc.InTable? || pc.Holding? || pc.Reading? ==> pc.b in s.ring && s.heads[pc.b].key == pc.key)
    && (pc.Reading? ==> s.heads[pc.b].uptodate || BeingRead(s.heads[pc.b]))
  }

  ghost predicate Counted(s: State) {
    forall b: nat {:trigger Holders(s.task, b)} :: b < |s.heads| ==> s.heads[b].count == Holders(s.task, b)
  }

  ghost predicate Inv(s: State) {
    true == (
      && Shape(s) && !s.fault && Placed(s) && Hashed(s) && Unique(s) && Counted(s)
      && (forall b :: b in s.ring ==> HeadOk(s.sizes, s.disk, s.heads[b]))
      && (forall t :: 0 <= t < |s.task| ==> PcOk(s, s.task[t])))
  }

  // -------------------------------------------------------------- sequences

  lemma NoDupCons(x: nat, q: seq<nat>)
    requires NoDup(q) && x !in q
    ensures NoDup([x] + q)
  {
  }

  lemma NoDupTail(q: seq<nat>)
    requires NoDup(q) && q != []
    ensures NoDup(q[1..]) && q[0] !in q[1..]
    ensures forall x :: x in q <==> x == q[0] || x in q[1..]
  {
  }

  lemma {:induction false} RemoveNoDup(q: seq<nat>, b: nat)
    requires NoDup(q)
    ensures NoDup(Remove(q, b))
    ensures |Remove(q, b)| == if b in q then |q| - 1 else |q|
  {
    if q != [] {
      NoDupTail(q);
      RemoveNoDup(q[1..], b);
      hide NoDup;
      if q[0] != b {
        NoDupCons(q[0], Remove(q[1..], b));
      }
    }
  }

  lemma {:induction false} OffPageNoDup(heads: seq<Head>, q: seq<nat>, p: nat)
    requires Within(q, |heads|) && NoDup(q)
    ensures NoDup(OffPage(heads, q, p))
  {
    if q != [] {
      NoDupTail(q);
      OffPageNoDup(heads, q[1..], p);
      hide NoDup;
      if heads[q[0]].page != p {
        NoDupCons(q[0], OffPage(heads, q[1..], p));
      }
    }
  }

  lemma {:induction false} HoldersChange(task: seq<Pc>, t: nat, pc: Pc, b: nat)
    requires t < |task|
    ensures Holders(task[t := pc], b) + (if Holds(task[t], b) then 1 else 0) == Holders(task, b) +
        (if Holds(pc, b) then 1 else 0)
  {
    var task' := task[t := pc];
    var n := |task| - 1;
    if t == n {
      assert task'[..n] == task[..n];
    } else {
      assert task'[..n] == task[..n][t := pc];
      HoldersChange(task[..n], t, pc, b);
    }
  }

  lemma {:induction false} HoldersPositive(task: seq<Pc>, t: nat, b: nat)
    requires t < |task| && Holds(task[t], b)
    ensures Holders(task, b) > 0
  {
    var n := |task| - 1;
    if t < n {
      HoldersPositive(task[..n], t, b);
    }
  }

  lemma {:induction false} FindInSound(heads: seq<Head>, c: seq<nat>, k: Key, size: nat)
    requires Within(c, |heads|)
    ensures var f := FindIn(heads, c, k, size);
            && (f.Some? ==> f.b in c && heads[f.b].key == k && heads[f.b].size == size)
            && (f.None? ==> forall b :: b in c && heads[b].key == k ==>
                exists d :: d in c && heads[d].key == k && heads[d].size != size)
  {
    if c != [] && heads[c[0]].key != k {
      FindInSound(heads, c[1..], k, size);
      assert forall x :: x in c <==> x == c[0] || x in c[1..];
    }
  }

  /** find_buffer finds the buffer of a block exactly if there is one. */
  lemma FindBufferExact(s: State, k: Key)
    requires Inv(s) && ValidKey(s, k)
    ensures FindBuffer(s, k).Some? ==> FindBuffer(s, k).b in s.ring && s.heads[FindBuffer(s, k).b].key == k
    ensures FindBuffer(s, k).None? ==> forall b :: b in s.ring ==> s.heads[b].key != k
  {
    var h := HashFn(k);
    FindInSound(s.heads, s.chain[h], k, s.sizes[k.dev]);
    if FindBuffer(s, k).Some? {
      assert Chained(s, h, FindBuffer(s, k).b);
      return;
    }
    forall d: nat | d in s.chain[h] && s.heads[d].key == k
      ensures s.heads[d].size == s.sizes[k.dev]
    {
      assert Chained(s, h, d);
    }
    assert forall b: nat :: b in s.ring && s.heads[b].key == k ==> Chained(s, h, b);
  }

  /** The scan takes an unused buffer of the right size whenever there is one, and none is less bad. */
  lemma {:induction false} PickIsBest(heads: seq<Head>, list: seq<nat>, size: nat, best: Found)
    requires Within(list, |heads|) && (best.Some? ==> best.b < |heads|)
    ensures var f := PickFrom(heads, list, size, best);
            && (f.None? <==> best.None? && forall b :: b in list ==> heads[b].count != 0 || heads[b].size != size)
            && (f.Some? ==> f == best || (f.b in list && heads[f.b].count == 0 && heads[f.b].size == size))
            && (f.Some? ==> forall b :: b in list && heads[b].count == 0 && heads[b].size == size ==>
                Badness(heads[f.b]) <= Badness(heads[b]))
            && (f.Some? && best.Some? ==> Badness(heads[f.b]) <= Badness(heads[best.b]))
  {
    if list == [] {
      return;
    }
    assert forall x :: x in list <==> x == list[0] || x in list[1..];
    var tmp := list[0];
    if heads[tmp].count != 0 || heads[tmp].size != size {
      PickIsBest(heads, list[1..], size, best);
    } else if best.None? || Badness(heads[tmp]) < Badness(heads[best.b]) {
      if Badness(heads[tmp]) != 0 {
        PickIsBest(heads, list[1..], size, Some(tmp));
      }
    } else {
      PickIsBest(heads, list[1..], size, best);
    }
  }

  // ---------------------------------------------------- changes of one kind

  /** A change of one buffer's flags, count and data, of the disk's copy of its block, and of what processes wait
      for. */
  ghost predicate HeadChange(s: State, b: nat, h: Head, disk: map<Key, Data>, task: seq<Pc>) {
    true == (
      && Shape(s) && b in s.ring && h.key == s.heads[b].key && h.size == s.heads[b].size && HeadOk(s.sizes, disk, h)
      && (forall c :: c in s.ring && c != b && s.heads[c].key.dev != 0 ==>
          Disk(disk, s.heads[c].key) == Disk(s.disk, s.heads[c].key))
      && (s.heads[b].uptodate || BeingRead(s.heads[b]) ==> h.uptodate || BeingRead(h))
      && |task| == |s.task|
      && (forall t :: 0 <= t < |task| ==> TaskChange(s, b, h, s.task[t], task[t]))
      && (forall c: nat {:trigger Holders(task, c)} :: c < |s.heads| ==>
            Holders(task, c) == if c == b then h.count else s.heads[c].count))
  }

  ghost predicate TaskChange(s: State, b: nat, h: Head, pc: Pc, pc': Pc)
    requires Shape(s)
  {
    pc' == pc || (
      && PcShape(s, pc')
      && (pc'.InTable? || pc'.Holding? || pc'.Reading? ==> pc'.b in s.ring && s.heads[pc'.b].key == pc'.key)
      && (pc'.Reading? ==> pc'.b == b && (h.uptodate || BeingRead(h))))
  }

  lemma HeadInv(s: State, b: nat, h: Head, disk: map<Key, Data>, task: seq<Pc>)
    requires Inv(s) && HeadChange(s, b, h, disk, task)
    ensures Inv(s.(heads := s.heads[b := h], disk := disk, task := task))
  {
    var s' := s.(heads := s.heads[b := h], disk := disk, task := task);
    HeadTasks(s, b, h, disk, task);
    hide PcShape, PcOk, TaskChange;
    HeadHeads(s, b, h, disk, task);
    PlacedSame(s, s');
    hide Placed;
    HashedSame(s, s');
  }

  lemma HeadTasks(s: State, b: nat, h: Head, disk: map<Key, Data>, task: seq<Pc>)
    requires Inv(s) && HeadChange(s, b, h, disk, task)
    ensures var s' := s.(heads := s.heads[b := h], disk := disk, task := task);
            Shape(s') && forall t :: 0 <= t < |task| ==> PcOk(s', task[t])
  {
    hide Placed, Hashed, Unique, Counted, HeadOk;
    var s' := s.(heads := s.heads[b := h], disk := disk, task := task);
    forall t | 0 <= t < |task|
      ensures PcShape(s', task[t])
    {
      assert PcShape(s, s.task[t]) && TaskChange(s, b, h, s.task[t], task[t]);
    }
    forall t | 0 <= t < |task|
      ensures PcOk(s', task[t])
    {
      assert PcOk(s, s.task[t]) && TaskChange(s, b, h, s.task[t], task[t]);
    }
  }

  lemma HeadHeads(s: State, b: nat, h: Head, disk: map<Key, Data>, task: seq<Pc>)
    requires Inv(s) && HeadChange(s, b, h, disk, task)
    ensures var s' := s.(heads := s.heads[b := h], disk := disk, task := task);
            Counted(s') && forall c :: c in s'.ring ==> HeadOk(s'.sizes, s'.disk, s'.heads[c])
  {
    hide Placed, Hashed, Unique, PcOk, PcShape, TaskChange;
  }

  lemma HashedSame(s: State, s': State)
    requires Shape(s) && Hashed(s) && Unique(s) && Shape(s') && s'.ring == s.ring && s'.chain == s.chain
        && |s'.heads| == |s.heads|
    requires forall c :: 0 <= c < |s.heads| ==> s'.heads[c].key == s.heads[c].key
    ensures Hashed(s') && Unique(s')
  {
    forall g: nat, c: nat | g < NR_HASH && c < |s.heads|
      ensures Chained(s', g, c) == Chained(s, g, c)
    {
    }
  }

  lemma PlacedSame(s: State, s': State)
    requires Shape(s) && Placed(s) && Shape(s') && s'.unused == s.unused
    requires s'.ring == s.ring || (NoDup(s'.ring) && |s'.ring| == |s.ring| && forall b :: b in s'.ring <==> b in s.ring)
    requires |s'.heads| == |s.heads|
    requires forall c :: 0 <= c < |s.heads| && c !in s.ring ==> s'.heads[c] == s.heads[c]
    ensures Placed(s')
  {
  }

  lemma HoldersMove(s: State, t: nat, pc: Pc, b: nat, h: Head)
    requires Inv(s) && t < |s.task| && b < |s.heads|
    requires forall c: nat :: c != b ==> Holds(pc, c) == Holds(s.task[t], c)
    requires h.count + (if Holds(s.task[t], b) then 1 else 0) == s.heads[b].count + (if Holds(pc, b) then 1 else 0)
    ensures forall c: nat {:trigger Holders(s.task[t := pc], c)} :: c < |s.heads| ==>
              Holders(s.task[t := pc], c) == if c == b then h.count else s.heads[c].count
  {
    forall c: nat | c < |s.heads|
      ensures Holders(s.task[t := pc], c) == if c == b then h.count else s.heads[c].count
    {
      HoldersChange(s.task, t, pc, c);
      assert s.heads[c].count == Holders(s.task, c);
    }
  }

  /** A process moves on, and the one buffer it gains or gives up changes with it. */
  lemma MoveInv(s: State, t: nat, pc: Pc, b: nat, h: Head)
    requires Inv(s) && t < |s.task| && b in s.ring && h.key == s.heads[b].key && h.size == s.heads[b].size
    requires HeadOk(s.sizes, s.disk, h)
    requires s.heads[b].uptodate || BeingRead(s.heads[b]) ==> h.uptodate || BeingRead(h)
    requires PcShape(s, pc)
    requires pc.InTable? || pc.Holding? || pc.Reading? ==> pc.b in s.ring && s.heads[pc.b].key == pc.key
    requires pc.Reading? ==> pc.b == b && (h.uptodate || BeingRead(h))
    requires forall c: nat :: c != b ==> Holds(pc, c) == Holds(s.task[t], c)
    requires h.count + (if Holds(s.task[t], b) then 1 else 0) == s.heads[b].count + (if Holds(pc, b) then 1 else 0)
    ensures Inv(SetTask(SetHead(s, b, h), t, pc))
  {
    HoldersMove(s, t, pc, b, h);
    var task := s.task[t := pc];
    hide Placed, Hashed, Unique, Counted, HeadOk, PcOk;
    assert HeadChange(s, b, h, s.disk, task) by {
      forall u | 0 <= u < |task|
        ensures TaskChange(s, b, h, s.task[u], task[u])
      {
      }
    }
    HeadInv(s, b, h, s.disk, task);
  }

  /** A process moves on and nothing else changes. */
  lemma TaskInv(s: State, t: nat, pc: Pc)
    requires Inv(s) && t < |s.task| && PcShape(s, pc) && PcOk(s, pc)
    requires forall c: nat :: Holds(pc, c) == Holds(s.task[t], c)
    ensures Inv(SetTask(s, t, pc))
  {
    var b := if pc.Reading? then pc.b else s.ring[0];
    assert s.heads[b := s.heads[b]] == s.heads;
    MoveInv(s, t, pc, b, s.heads[b]);
  }

  lemma OnlyHeadInv(s: State, b: nat, h: Head, disk: map<Key, Data>)
    requires Inv(s) && b in s.ring && h.key == s.heads[b].key && h.size == s.heads[b].size
        && h.count == s.heads[b].count
    requires HeadOk(s.sizes, disk, h)
    requires forall k {:trigger Disk(disk, k)} :: k != h.key ==> Disk(disk, k) == Disk(s.disk, k)
    requires s.heads[b].uptodate || BeingRead(s.heads[b]) ==> h.uptodate || BeingRead(h)
    ensures Inv(SetHead(s, b, h).(disk := disk))
  {
    assert forall c: nat {:trigger Holders(s.task, c)} :: c < |s.heads| ==> s.heads[c].count == Holders(s.task, c);
    assert forall c :: c in s.ring && c != b && s.heads[c].key.dev != 0 ==> s.heads[c].key != h.key;
    hide Placed, Hashed, Unique, Counted, HeadOk, PcOk;
    assert HeadChange(s, b, h, disk, s.task);
    HeadInv(s, b, h, disk, s.task);
  }

  /** The order of the ring is nobody's business. */
  lemma RingInv(s: State, ring: seq<nat>)
    requires Inv(s) && NoDup(ring) && |ring| == |s.ring| && forall b :: b in ring <==> b in s.ring
    ensures Inv(s.(ring := ring))
  {
    var s' := s.(ring := ring);
    assert Within(ring, |s.heads|) by {
      forall i | 0 <= i < |ring|
        ensures ring[i] < |s.heads|
      {
        assert ring[i] in s.ring;
      }
    }
    assert Shape(s') by {
      assert forall t :: 0 <= t < |s.task| ==> PcShape(s', s.task[t]);
    }
    PlacedSame(s, s');
    RingHashed(s, s');
    hide Placed, Hashed, Unique, HeadOk, NoDup, Within;
    assert forall t :: 0 <= t < |s.task| ==> PcOk(s, s.task[t]) ==> PcOk(s', s.task[t]);
  }

  lemma RingHashed(s: State, s': State)
    requires Shape(s) && Hashed(s) && Unique(s) && Shape(s') && s' == s.(ring := s'.ring)
    requires forall b :: b in s'.ring <==> b in s.ring
    ensures Hashed(s') && Unique(s')
  {
    forall g: nat, c: nat | g < NR_HASH && c < |s.heads|
      ensures Chained(s', g, c) == Chained(s, g, c)
    {
    }
  }

  lemma PutLastInv(s: State, b: nat)
    requires Inv(s) && b in s.ring
    ensures Inv(PutLast(s, b))
  {
    RemoveNoDup(s.ring, b);
    RingInv(s, Remove(s.ring, b) + [b]);
  }

  // ------------------------------------------------------ one step after another

  lemma FoundInv(s: State, t: nat, k: Key, b: nat, g: Growth)
    requires Inv(s) && t < |s.task| && s.task[t] == Start(k) && ValidKey(s, k) && FindBuffer(s, k) == Some(b)
    requires CanGrow(s, s.sizes[k.dev], g)
    requires b in s.ring && s.heads[b].key == k
    ensures Inv(DoLookup(s, t, g))
  {
    hide FindBuffer, Within, PcShape, Placed, Hashed, Unique, Counted, PcOk, HeadOk, Remove;
    if s.heads[b].io.Unlocked? {
      HitInv(s, t, k, b);
      assert DoLookup(s, t, g) == SetTask(PutLast(SetHead(s, b, s.heads[b].(count := s.heads[b].count + 1)), b), t,
          Holding(k, b));
    } else {
      HitBusyInv(s, t, k, b);
      assert DoLookup(s, t, g) == SetTask(SetHead(s, b, s.heads[b].(count := s.heads[b].count + 1)), t, InTable(k, b));
    }
  }

  lemma HitInv(s: State, t: nat, k: Key, b: nat)
    requires Inv(s) && t < |s.task| && s.task[t] == Start(k) && b in s.ring && s.heads[b].key == k
    ensures Inv(SetTask(PutLast(SetHead(s, b, s.heads[b].(count := s.heads[b].count + 1)), b), t, Holding(k, b)))
  {
    var h := s.heads[b].(count := s.heads[b].count + 1);
    assert HeadOk(s.sizes, s.disk, s.heads[b]);
    hide Placed, Hashed, Unique, Counted, PcOk;
    MoveInv(s, t, Holding(k, b), b, h);
    PutLastInv(SetTask(SetHead(s, b, h), t, Holding(k, b)), b);
  }

  lemma HitBusyInv(s: State, t: nat, k: Key, b: nat)
    requires Inv(s) && t < |s.task| && s.task[t] == Start(k) && b in s.ring && s.heads[b].key == k
    ensures Inv(SetTask(SetHead(s, b, s.heads[b].(count := s.heads[b].count + 1)), t, InTable(k, b)))
  {
    assert HeadOk(s.sizes, s.disk, s.heads[b]);
    hide Placed, Hashed, Unique, Counted, PcOk;
    MoveInv(s, t, InTable(k, b), b, s.heads[b].(count := s.heads[b].count + 1));
  }

  lemma WokenInv(s: State, t: nat)
    requires Inv(s) && Enabled(s, Woken(t))
    ensures Inv(Next(s, Woken(t)))
  {
    var pc := s.task[t];
    assert PcOk(s, pc) && HeadOk(s.sizes, s.disk, s.heads[pc.b]);
    TaskInv(s, t, Holding(pc.key, pc.b));
    PutLastInv(SetTask(s, t, Holding(pc.key, pc.b)), pc.b);
  }

  // -------------------------------------------------------------- the claim

  predicate Quiet(pc: Pc) {
    !pc.InTable? && !pc.Holding? && !pc.Reading?
  }

  /** What getblk knows of its victim once all its tests have passed. */
  predicate Chosen(s: State, k: Key, b: nat)
    requires b < |s.heads| && k.dev < |s.sizes|
  {
    s.heads[b].io.Unlocked? && s.heads[b].count == 0 && s.heads[b].size == s.sizes[k.dev] && !s.heads[b].dirt
  }

  /** A process that waits for no buffer, and a block: getblk about to make its last tests. */
  ghost predicate Claims(s: State, t: nat, k: Key, b: nat) {
    Inv(s) && t < |s.task| && Quiet(s.task[t]) && ValidKey(s, k) && b < |s.heads| && s.heads[b].io.Unlocked?
  }

  /** The victim is on the free list, whatever happened to its page while getblk slept on it: if its head lies
      on no page now, its size is 0 and getblk starts again. */
  lemma ClaimNeverFaults(s: State, t: nat, k: Key, b: nat)
    requires Claims(s, t, k, b)
    ensures !DoClaim(s, t, k, b).fault
    ensures b !in s.ring ==> DoClaim(s, t, k, b) == SetTask(s, t, Start(k))
  {
    hide Hashed, Unique, Counted, HeadOk, PcOk, FindBuffer;
  }

  /** When getblk gives its victim a new block: unused, unlocked, clean, on the free list, and no other
      buffer caches that block. */
  lemma ClaimIsSafe(s: State, t: nat, k: Key, b: nat)
    requires Claims(s, t, k, b) && DoClaim(s, t, k, b).task[t].Holding?
    ensures b in s.ring && Chosen(s, k, b)
    ensures forall u :: 0 <= u < |s.task| ==> !Holds(s.task[u], b)
    ensures forall c :: c in s.ring ==> s.heads[c].key != k
  {
    FindBufferExact(s, k);
    hide FindBuffer;
    assert s.heads[b].count == Holders(s.task, b);
    forall u | 0 <= u < |s.task| && Holds(s.task[u], b)
      ensures false
    {
      HoldersPositive(s.task, u, b);
    }
  }

  ghost predicate ReKeyable(s: State, t: nat, k: Key, b: nat) {
    true == (
      && Inv(s) && t < |s.task| && Quiet(s.task[t]) && ValidKey(s, k) && b in s.ring
      && s.heads[b].io.Unlocked? && s.heads[b].count == 0 && s.heads[b].size == s.sizes[k.dev] && !s.heads[b].dirt
      && (forall u :: 0 <= u < |s.task| ==> !Holds(s.task[u], b))
      && (forall c :: c in s.ring ==> s.heads[c].key != k))
  }

  lemma ReKeyShape(s: State, t: nat, k: Key, b: nat)
    requires ReKeyable(s, t, k, b)
    ensures Shape(ReKey(s, t, k, b))
  {
    hide Placed, Hashed, Unique, Counted, HeadOk, PcOk;
    var s' := ReKey(s, t, k, b);
    forall h | 0 <= h < NR_HASH
      ensures Within(s'.chain[h], |s.heads|)
    {
      WithinRemove(s.chain[h], b, |s.heads|);
    }
    WithinRemove(s.ring, b, |s.heads|);
    forall u | 0 <= u < |s'.task|
      ensures PcShape(s', s'.task[u])
    {
      assert PcShape(s, s.task[u]);
    }
  }

  lemma WithinRemove(q: seq<nat>, b: nat, n: nat)
    requires Within(q, n)
    ensures Within(Remove(q, b), n)
  {
    var r := Remove(q, b);
    forall i | 0 <= i < |r|
      ensures r[i] < n
    {
      assert r[i] in q;
    }
  }

  lemma ReKeyPlaced(s: State, t: nat, k: Key, b: nat)
    requires ReKeyable(s, t, k, b) && Shape(ReKey(s, t, k, b))
    ensures Placed(ReKey(s, t, k, b))
  {
    RemoveNoDup(s.ring, b);
    var s' := ReKey(s, t, k, b);
    assert NoDup(s'.ring) && |s'.ring| == |s.ring| && forall c :: c in s'.ring <==> c in s.ring;
    hide Placed, NoDup, Hashed, Unique, Counted, HeadOk, PcOk, PcShape;
    PlacedSame(s, s');
  }

  lemma ReKeyHashed(s: State, t: nat, k: Key, b: nat)
    requires ReKeyable(s, t, k, b) && Shape(ReKey(s, t, k, b))
    ensures Hashed(ReKey(s, t, k, b)) && Unique(ReKey(s, t, k, b))
  {
    hide Placed, Counted, HeadOk, PcOk, PcShape;
    var s' := ReKey(s, t, k, b);
    assert forall c :: c in s'.ring <==> c in s.ring;
    forall h: nat | h < NR_HASH
      ensures NoDup(s'.chain[h])
    {
      RemoveNoDup(s.chain[h], b);
      assert Chained(s, h, b) ==> h == HashFn(s.heads[b].key);
    }
    forall h: nat, c: nat | h < NR_HASH && c < |s.heads|
      ensures Chained(s', h, c) <==> c in s'.ring && s'.heads[c].key.dev != 0 && HashFn(s'.heads[c].key) == h
    {
      assert Chained(s, h, c) <==> c in s.ring && s.heads[c].key.dev != 0 && HashFn(s.heads[c].key) == h;
    }
  }

  lemma ReKeyRest(s: State, t: nat, k: Key, b: nat)
    requires ReKeyable(s, t, k, b) && Shape(ReKey(s, t, k, b))
    ensures var s' := ReKey(s, t, k, b);
            && Counted(s')
            && (forall c :: c in s'.ring ==> HeadOk(s'.sizes, s'.disk, s'.heads[c]))
            && (forall u :: 0 <= u < |s'.task| ==> PcOk(s', s'.task[u]))
  {
    hide Placed, Hashed, Unique;
    var s' := ReKey(s, t, k, b);
    assert forall c :: c in s'.ring <==> c in s.ring;
    HoldersMove(s, t, Holding(k, b), b, s'.heads[b]);
    forall u | 0 <= u < |s'.task|
      ensures PcOk(s', s'.task[u])
    {
      assert PcOk(s, s.task[u]) && !Holds(s.task[u], b);
    }
  }

  lemma ClaimInv(s: State, t: nat, k: Key, b: nat)
    requires Claims(s, t, k, b)
    ensures Inv(DoClaim(s, t, k, b))
  {
    ClaimNeverFaults(s, t, k, b);
    if b !in s.ring || !Chosen(s, k, b) || FindBuffer(s, k).Some? {
      TaskInv(s, t, Start(k));
      return;
    }
    ClaimIsSafe(s, t, k, b);
    hide FindBuffer, Placed, Hashed, Unique, Counted, HeadOk, PcOk;
    ReKeyShape(s, t, k, b);
    ReKeyPlaced(s, t, k, b);
    ReKeyHashed(s, t, k, b);
    ReKeyRest(s, t, k, b);
  }

  // ------------------------------------------------- growing and shrinking

  lemma {:induction false} HoldersQuiet(task: seq<Pc>, task': seq<Pc>, b: nat)
    requires |task'| == |task| && forall t :: 0 <= t < |task| ==>
        task'[t] == task[t] || (Quiet(task[t]) && Quiet(task'[t]))
    ensures Holders(task', b) == Holders(task, b)
  {
    if task != [] {
      HoldersQuiet(task[..|task| - 1], task'[..|task| - 1], b);
    }
  }

  lemma {:induction false} HoldersNone(task: seq<Pc>, b: nat)
    requires forall t :: 0 <= t < |task| ==> !Holds(task[t], b)
    ensures Holders(task, b) == 0
  {
    if task != [] {
      HoldersNone(task[..|task| - 1], b);
    }
  }

  /** More unused heads; the processes are as they were. */
  lemma MoreHeadsInv(s: State)
    requires Inv(s) && s.pages > 0
    ensures Inv(MoreHeads(s))
  {
    var s' := MoreHeads(s);
    assert forall b: nat :: |s.heads| <= b < |s'.heads| ==> b !in s.ring && b !in s.unused;
    assert forall u :: 0 <= u < |s.task| ==> PcShape(s, s.task[u]) && PcOk(s, s.task[u]);
    assert Shape(s');
    forall b: nat | b < |s'.heads|
      ensures s'.heads[b].count == Holders(s'.task, b)
    {
      if b < |s.heads| {
        assert s.heads[b].count == Holders(s.task, b);
      } else {
        HoldersNone(s.task, b);
      }
    }
    forall g: nat, c: nat | g < NR_HASH && c < |s'.heads|
      ensures Chained(s', g, c) <==> c in s'.ring && s'.heads[c].key.dev != 0 && HashFn(s'.heads[c].key) == g
    {
      assert c < |s.heads| ==> Chained(s', g, c) == Chained(s, g, c);
    }
  }

  lemma NoDupAppend(q: seq<nat>, r: seq<nat>)
    requires NoDup(q) && NoDup(r) && forall x :: x in q ==> x !in r
    ensures NoDup(q + r)
  {
    forall i, j | 0 <= i < j < |q + r|
      ensures (q + r)[i] != (q + r)[j]
    {
      assert i < |q| ==> q[i] in q;
    }
  }

  lemma LinkPageShape(s: State, size: nat, g: Growth)
    requires Inv(s) && GrowthOk(s, size, g)
    ensures var s' := LinkPage(s, size, g);
            && Shape(s') && (forall c :: c in s'.ring <==> c in g.taken || c in s.ring)
            && (forall c :: c in g.taken ==> c < |s.heads| && c !in s.ring && s.heads[c] == NoHead())
  {
    hide Hashed, Unique, Counted, HeadOk, PcOk;
    var s' := LinkPage(s, size, g);
    forall i | 0 <= i < |s'.ring|
      ensures s'.ring[i] < |s'.heads|
    {
      assert s'.ring[i] in g.taken || s'.ring[i] in s.ring;
    }
    forall t | 0 <= t < |s'.task|
      ensures PcShape(s', s'.task[t])
    {
      assert PcShape(s, s.task[t]);
    }
  }

  lemma LinkPagePlaced(s: State, size: nat, g: Growth)
    requires Inv(s) && GrowthOk(s, size, g)
    ensures Shape(LinkPage(s, size, g)) && Placed(LinkPage(s, size, g))
  {
    LinkPageShape(s, size, g);
    NoDupAppend(g.taken, s.ring);
    hide Hashed, Unique, Counted, HeadOk, PcOk, NoDup, PcShape;
  }

  lemma LinkPageHashed(s: State, size: nat, g: Growth)
    requires Inv(s) && GrowthOk(s, size, g)
    ensures var s' := LinkPage(s, size, g); Shape(s') && Hashed(s') && Unique(s')
  {
    LinkPageShape(s, size, g);
    hide Placed, Counted, HeadOk, PcOk, PcShape;
    var s' := LinkPage(s, size, g);
    forall h: nat, c: nat | h < NR_HASH && c < |s'.heads|
      ensures Chained(s', h, c) <==> c in s'.ring && s'.heads[c].key.dev != 0 && HashFn(s'.heads[c].key) == h
    {
      assert Chained(s', h, c) == Chained(s, h, c);
    }
  }

  lemma LinkPageInv(s: State, size: nat, g: Growth)
    requires Inv(s) && GrowthOk(s, size, g)
    ensures Inv(LinkPage(s, size, g))
  {
    LinkPageShape(s, size, g);
    LinkPagePlaced(s, size, g);
    LinkPageHashed(s, size, g);
    hide Placed, Hashed, Unique, PcShape;
    var s' := LinkPage(s, size, g);
    forall b: nat | b < |s'.heads|
      ensures s'.heads[b].count == Holders(s'.task, b)
    {
      assert s.heads[b].count == Holders(s.task, b);
    }
    forall u | 0 <= u < |s.task|
      ensures PcOk(s', s'.task[u])
    {
      assert PcOk(s, s.task[u]);
    }
  }

  lemma PagesInv(s: State, n: nat)
    requires Inv(s)
    ensures Inv(s.(pages := n))
  {
    var s' := s.(pages := n);
    assert forall u :: 0 <= u < |s.task| ==> PcShape(s, s.task[u]) && PcOk(s, s.task[u]);
    assert Shape(s');
    HashedSame(s, s');
  }

  lemma PreparedInv(s: State, size: nat)
    requires Inv(s) && s.pages > 5 && size > 0
    ensures var s' := Prepared(s, size);
            && Inv(s') && s'.ring == s.ring && s'.task == s.task && s'.sizes == s.sizes && s'.disk == s.disk
            && s'.chain == s.chain && s'.pages >= s.pages - 2 && |s'.heads| >= |s.heads|
            && (forall c :: c in s.ring ==> s'.heads[c] == s.heads[c])
  {
    PagesInv(s, s.pages - 1);
    MoreHeadsInv(s.(pages := s.pages - 1));
    hide Placed, Hashed, Unique, Counted, HeadOk, PcOk, PcShape;
  }

  /** grow_buffers: new buffers of the right size in front, none of them on a page in use; it takes no more than
      two pages, so with more than five to spare it never has to wait for one. */
  lemma GrownInv(s: State, size: nat, g: Growth)
    requires Inv(s) && s.pages > 5 && CanGrow(s, size, g) && size > 0
    ensures Inv(Grown(s, size, g))
    ensures var s' := Grown(s, size, g);
            && s'.ring == g.taken + s.ring && s'.task == s.task && s'.sizes == s.sizes && s'.disk == s.disk
            && s'.chain == s.chain
            && s'.pages >= s.pages - 2 && |s'.heads| >= |s.heads|
            && (forall c :: c in s.ring ==> c !in g.taken && s'.heads[c] == s.heads[c])
            && (forall c :: c in g.taken ==> Blank(s'.heads[c]) && s'.heads[c].size == size)
  {
    hide Placed, Hashed, Unique, Counted, HeadOk, PcOk, PcShape, Prepared;
    PreparedInv(s, size);
    var s2 := Prepared(s, size);
    LinkPageShape(s2, size, g);
    LinkPageInv(s2, size, g);
  }

  /** A page given up: its heads were idle, so nobody holds any of them. */
  lemma TryToFreeShape(s: State, b: nat)
    requires Inv(s) && b < |s.heads|
    ensures Shape(TryToFree(s, b))
  {
    hide Placed, Hashed, Unique, Counted, HeadOk, PcOk;
    if PageIdle(s, b) {
      var s', p := TryToFree(s, b), s.heads[b].page;
      forall h | 0 <= h < NR_HASH
        ensures Within(s'.chain[h], |s.heads|)
      {
        WithinOffPage(s.heads, s.chain[h], p);
      }
      WithinOffPage(s.heads, s.ring, p);
      forall u | 0 <= u < |s'.task|
        ensures PcShape(s', s'.task[u])
      {
        assert PcShape(s, s.task[u]);
      }
    }
  }

  lemma WithinOffPage(heads: seq<Head>, q: seq<nat>, p: nat)
    requires Within(q, |heads|)
    ensures Within(OffPage(heads, q, p), |heads|)
  {
    var r := OffPage(heads, q, p);
    forall i | 0 <= i < |r|
      ensures r[i] < |heads|
    {
      assert r[i] in q;
    }
  }

  lemma TryToFreePlaced(s: State, b: nat)
    requires Inv(s) && b < |s.heads| && PageIdle(s, b) && TwoLeft(s, b) && Shape(TryToFree(s, b))
    ensures Placed(TryToFree(s, b))
  {
    hide Hashed, Unique, Counted, HeadOk, PcOk;
    OffPageNoDup(s.heads, s.ring, s.heads[b].page);
    hide NoDup;
    var s' := TryToFree(s, b);
    assert forall c: nat :: c < |s.heads| ==>
      s'.heads[c] == if c in s.ring && c !in s'.ring then NoHead() else s.heads[c];
  }

  lemma TryToFreeHashed(s: State, b: nat)
    requires Inv(s) && b < |s.heads| && PageIdle(s, b) && Shape(TryToFree(s, b))
    ensures Hashed(TryToFree(s, b)) && Unique(TryToFree(s, b))
  {
    hide Placed, Counted, HeadOk, PcOk, PcShape;
    var s', p := TryToFree(s, b), s.heads[b].page;
    forall h: nat | h < NR_HASH
      ensures NoDup(s'.chain[h])
    {
      OffPageNoDup(s.heads, s.chain[h], p);
    }
    forall h: nat, c: nat | h < NR_HASH && c < |s.heads|
      ensures Chained(s', h, c) <==> c in s'.ring && s'.heads[c].key.dev != 0 && HashFn(s'.heads[c].key) == h
    {
      assert Chained(s, h, c) <==> c in s.ring && s.heads[c].key.dev != 0 && HashFn(s.heads[c].key) == h;
    }
  }

  lemma TryToFreeRest(s: State, b: nat)
    requires Inv(s) && b < |s.heads| && PageIdle(s, b) && Shape(TryToFree(s, b))
    ensures var s' := TryToFree(s, b);
            && Counted(s')
            && (forall c :: c in s'.ring ==> HeadOk(s'.sizes, s'.disk, s'.heads[c]))
            && (forall u :: 0 <= u < |s'.task| ==> PcOk(s', s'.task[u]))
  {
    hide Placed, Hashed, Unique;
    var s' := TryToFree(s, b);
    forall c: nat | c < |s'.heads|
      ensures s'.heads[c].count == Holders(s'.task, c)
    {
      assert s.heads[c].count == Holders(s.task, c);
    }
    forall u | 0 <= u < |s'.task|
      ensures PcOk(s', s'.task[u])
    {
      var pc := s.task[u];
      assert PcOk(s, pc);
      if !Quiet(pc) {
        HoldersPositive(s.task, u, pc.b);
        assert s.heads[pc.b].count == Holders(s.task, pc.b);
      }
    }
  }

  lemma TryToFreeInv(s: State, b: nat)
    requires Inv(s) && b < |s.heads| && TwoLeft(s, b)
    ensures Inv(TryToFree(s, b))
  {
    if PageIdle(s, b) {
      TryToFreeShape(s, b);
      TryToFreePlaced(s, b);
      TryToFreeHashed(s, b);
      TryToFreeRest(s, b);
      hide Placed, Hashed, Unique, Counted, HeadOk, PcOk;
    }
  }

  // --------------------------------------------------- using a buffer, and I/O

  /** A process that holds a buffer is counted in it. */
  lemma HeldCounts(s: State, t: nat)
    requires Inv(s) && t < |s.task| && !Quiet(s.task[t])
    ensures var pc := s.task[t];
            && pc.b in s.ring && s.heads[pc.b].key == pc.key && s.heads[pc.b].count > 0
            && HeadOk(s.sizes, s.disk, s.heads[pc.b]) && s.heads[pc.b].key.dev != 0
  {
    var pc := s.task[t];
    HoldersPositive(s.task, t, pc.b);
    assert PcOk(s, pc) && s.heads[pc.b].count == Holders(s.task, pc.b);
  }

  lemma FetchInv(s: State, t: nat)
    requires Inv(s) && Enabled(s, Fetch(t))
    ensures Inv(Next(s, Fetch(t)))
  {
    HeldCounts(s, t);
    hide Placed, Hashed, Unique, Counted, PcOk;
    var (k, b) := (s.task[t].key, s.task[t].b);
    if !s.heads[b].uptodate {
      MoveInv(s, t, Reading(k, b), b, s.heads[b].(io := Asked(false, false)));
    }
  }

  /** bread never comes back without its block. */
  lemma FetchedInv(s: State, t: nat)
    requires Inv(s) && Enabled(s, Fetched(t))
    ensures Inv(Next(s, Fetched(t))) && Next(s, Fetched(t)).task[t] == Holding(s.task[t].key, s.task[t].b)
  {
    HeldCounts(s, t);
    assert PcOk(s, s.task[t]);
    TaskInv(s, t, Holding(s.task[t].key, s.task[t].b));
  }

  lemma DropInv(s: State, t: nat, h: Head)
    requires Inv(s) && t < |s.task| && s.task[t].Holding?
    requires h == Dec(s.heads[s.task[t].b]) ||
      (!s.heads[s.task[t].b].uptodate && s.heads[s.task[t].b].io.Unlocked?
          && h == Dec(s.heads[s.task[t].b]).(io := Asked(false, true)))
    ensures Inv(SetTask(SetHead(s, s.task[t].b, h), t, Idle))
  {
    HeldCounts(s, t);
    hide Placed, Hashed, Unique, Counted, PcOk;
    MoveInv(s, t, Idle, s.task[t].b, h);
  }

  lemma ModifyInv(s: State, t: nat, data: Data)
    requires Inv(s) && Enabled(s, Modify(t, data))
    ensures Inv(Next(s, Modify(t, data)))
  {
    HeldCounts(s, t);
    hide Placed, Hashed, Unique, Counted, PcOk;
    var b := s.task[t].b;
    OnlyHeadInv(s, b, s.heads[b].(data := data, uptodate := true, dirt := true), s.disk);
  }

  lemma DriverInv(s: State, step: Step)
    requires Inv(s) && Enabled(s, step) && (step.Write? || step.Submit? || step.GiveUp? || step.Complete?)
    ensures Inv(Next(s, step))
  {
    var b := step.b;
    assert HeadOk(s.sizes, s.disk, s.heads[b]);
    hide Placed, Hashed, Unique, Counted, PcOk;
    var s' := Next(s, step);
    OnlyHeadInv(s, b, s'.heads[b], s'.disk);
  }

  lemma CallInv(s: State, t: nat, pc: Pc)
    requires Inv(s) && t < |s.task| && Quiet(s.task[t]) && (pc.Idle? || pc.Start? || pc.Shrinking?) && PcShape(s, pc)
    ensures Inv(SetTask(s, t, pc))
  {
    hide Placed, Hashed, Unique, Counted, HeadOk;
    TaskInv(s, t, pc);
  }

  lemma ShrinkInv(s: State, step: Step)
    requires Inv(s) && Enabled(s, step) && (step.Shrink? || step.Shrunk?)
    ensures Inv(Next(s, step))
  {
    hide Placed, Hashed, Unique, Counted, HeadOk, PcOk;
    var t := step.t;
    match step {
      case Shrink(_, b) =>
        if !s.heads[b].io.Unlocked? {
          CallInv(s, t, Shrinking(b));
        } else if !s.heads[b].dirt {
          TryToFreeInv(s, b);
        }
      case Shrunk(_) =>
        var b := s.task[t].b;
        if !s.heads[b].dirt {
          TryToFreeInv(s, b);
          TryToFreeShape(s, b);
          CallInv(TryToFree(s, b), t, Idle);
        } else {
          CallInv(s, t, Idle);
        }
    }
  }

  // ---------------------------------------------------------------- any run

  /** The rest of getblk once the block is not found: a victim is found, or the cache grows, or getblk sleeps. */
  lemma ScanInv(s: State, t: nat, k: Key, g: Growth)
    requires Inv(s) && t < |s.task| && Quiet(s.task[t]) && ValidKey(s, k)
    requires PickFrom(s.heads, s.ring, s.sizes[k.dev], None).Some? || CanGrow(s, s.sizes[k.dev], g)
    ensures Inv(DoScan(s, t, k, g))
  {
    var f := PickFrom(s.heads, s.ring, s.sizes[k.dev], None);
    PickIsBest(s.heads, s.ring, s.sizes[k.dev], None);
    if f.None? && s.pages > 5 {
      GrownInv(s, s.sizes[k.dev], g);
      CallInv(Grown(s, s.sizes[k.dev], g), t, Start(k));
      return;
    }
    hide Placed, Hashed, Unique, Counted, HeadOk, PcOk;
    if f.None? {
      TaskInv(s, t, NoVictim(k));
    } else if s.heads[f.b].io.Unlocked? {
      ClaimInv(s, t, k, f.b);
    } else {
      TaskInv(s, t, Victim(k, f.b));
    }
  }

  /** After growing, the scan does find a victim. */
  lemma GrownIsFound(s: State, size: nat, g: Growth)
    requires Inv(s) && s.pages > 5 && 0 < size <= 4096 && CanGrow(s, size, g)
    ensures var s' := Grown(s, size, g); Shape(s') && PickFrom(s'.heads, s'.ring, size, None).Some?
  {
    GrownInv(s, size, g);
    var s' := Grown(s, size, g);
    PickIsBest(s'.heads, s'.ring, size, None);
    assert g.taken[0] in s'.ring;
  }

  lemma LookupInv(s: State, t: nat, g: Growth)
    requires Inv(s) && Enabled(s, Lookup(t, g))
    ensures Inv(Next(s, Lookup(t, g)))
  {
    var k := s.task[t].key;
    FindBufferExact(s, k);
    if FindBuffer(s, k).Some? {
      FoundInv(s, t, k, FindBuffer(s, k).b, g);
    } else if s.pages > 30 {
      GrownInv(s, s.sizes[k.dev], g);
      GrownIsFound(s, s.sizes[k.dev], g);
      ScanInv(Grown(s, s.sizes[k.dev], g), t, k, g);
    } else {
      ScanInv(s, t, k, g);
    }
  }

  /** Every step keeps the invariant; in particular no getblk finds the free list corrupted. */
  lemma NextInv(s: State, step: Step)
    requires Inv(s) && Enabled(s, step)
    ensures Inv(Next(s, step)) && !Next(s, step).fault
  {
    match step {
      case Call(t, key) => CallInv(s, t, Start(key));
      case Lookup(t, g) => LookupInv(s, t, g);
      case Woken(t) => WokenInv(s, t);
      case Claim(t) => ClaimInv(s, t, s.task[t].key, s.task[t].b);
      case BufferWait(t) => CallInv(s, t, Start(s.task[t].key));
      case FreePages(n) => PagesInv(s, n);
      case Fetch(t) => FetchInv(s, t);
      case Fetched(t) => FetchedInv(s, t);
      case ReadAhead(t) =>
        var h := Dec(s.heads[s.task[t].b]);
        DropInv(s, t, if !h.uptodate && h.io.Unlocked? then h.(io := Asked(false, true)) else h);
      case Modify(t, data) => ModifyInv(s, t, data);
      case Release(t) => DropInv(s, t, Dec(s.heads[s.task[t].b]));
      case Write(b, ahead) => DriverInv(s, step);
      case Submit(b) => DriverInv(s, step);
      case GiveUp(b) => DriverInv(s, step);
      case Complete(b, torn) => DriverInv(s, step);
      case Shrink(t, b) => ShrinkInv(s, step);
      case Shrunk(t) => ShrinkInv(s, step);
    }
  }
}

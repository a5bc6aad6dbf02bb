/**
 The buffer cache as a disk: over any run, what it holds for each block is what plain
 writes to an array of blocks would have left there.
*/
module BufferContent {
  import opened BufferCache
  import opened BufferSafety

  // ---------------------------------------------------------- logical content

  ghost predicate Caches(s: State, k: Key, b: nat)
    requires Shape(s)
  {
    b in s.ring && s.heads[b].key == k && s.heads[b].uptodate
  }

  ghost predicate Cached(s: State, k: Key)
    requires Shape(s)
  {
    exists b: nat :: Caches(s, k, b)
  }

  /** What a block holds: its buffer's data if one is up to date, else what is on the disk. */
  ghost function Content(s: State, k: Key): Data
    requires Shape(s)
  {
    if Cached(s, k) then var b: nat :| Caches(s, k, b); s.heads[b].data else Disk(s.disk, k)
  }

  lemma ContentCached(s: State, k: Key, b: nat)
    requires Inv(s) && Caches(s, k, b)
    ensures Cached(s, k) && Content(s, k) == s.heads[b].data
  {
    assert forall c: nat :: Caches(s, k, c) ==> HeadOk(s.sizes, s.disk, s.heads[c]) && c == b;
  }

  /** bread returns the logical content, whether it found the block in memory or waited for the disk. */
  lemma BreadReturnsContent(s: State, t: nat)
    requires Inv(s) && t < |s.task| && (s.task[t].Holding? || s.task[t].Reading?)
    ensures var (k, b) := (s.task[t].key, s.task[t].b);
            && s.heads[b].key == k
            && (s.heads[b].uptodate ==> s.heads[b].data == Content(s, k))
            && (s.task[t].Reading? && s.heads[b].io.Unlocked? ==> s.heads[b].uptodate)
  {
    HeldCounts(s, t);
    assert PcOk(s, s.task[t]);
    var (k, b) := (s.task[t].key, s.task[t].b);
    if s.heads[b].uptodate {
      ContentCached(s, k, b);
    }
  }

  // ------------------------------------------------------- what a step changes

  ghost predicate SameCache(s: State, s': State) {
    true == (
      && Shape(s) && Shape(s') && s'.disk == s.disk
      && (forall k, b: nat {:trigger Caches(s', k, b)} {:trigger Caches(s, k, b)} ::
            Caches(s', k, b) == Caches(s, k, b) && (Caches(s, k, b) ==> s'.heads[b].data == s.heads[b].data)))
  }

  /** Nothing cached comes or goes: the content is the same. */
  lemma SameCacheContent(s: State, s': State, k: Key)
    requires Inv(s) && Inv(s') && SameCache(s, s')
    ensures Content(s', k) == Content(s, k)
  {
    if b: nat :| Caches(s, k, b) {
      assert Caches(s', k, b);
      ContentCached(s, k, b);
      ContentCached(s', k, b);
    } else {
      assert forall b: nat :: !Caches(s', k, b);
    }
  }

  /** Buffers that leave the cache are clean: what they held is on the disk. */
  lemma EvictContent(s: State, s': State, k: Key)
    requires Inv(s) && Inv(s') && s'.disk == s.disk
    requires forall b: nat {:trigger Caches(s', k, b)} :: Caches(s', k, b) ==>
        Caches(s, k, b) && s'.heads[b].data == s.heads[b].data
    requires forall b: nat {:trigger Caches(s, k, b)} :: Caches(s, k, b) && !Caches(s', k, b) ==>
        !s.heads[b].dirt && s.heads[b].io.Unlocked?
    ensures Content(s', k) == Content(s, k)
  {
    if b: nat :| Caches(s', k, b) {
      ContentCached(s, k, b);
      ContentCached(s', k, b);
    } else if b: nat :| Caches(s, k, b) {
      ContentCached(s, k, b);
      assert HeadOk(s.sizes, s.disk, s.heads[b]);
    }
  }

  lemma ReKeyContent(s: State, t: nat, key: Key, b: nat, k: Key)
    requires ReKeyable(s, t, key, b) && Inv(ReKey(s, t, key, b))
    ensures Content(ReKey(s, t, key, b), k) == Content(s, k)
  {
    hide Placed, Hashed, Unique, Counted, HeadOk, PcOk, HashFn, PcShape;
    var s' := ReKey(s, t, key, b);
    assert forall c :: c in s'.ring <==> c in s.ring;
    hide Remove, Unhash;
    EvictContent(s, s', k);
  }

  lemma ClaimContent(s: State, t: nat, key: Key, b: nat, k: Key)
    requires Claims(s, t, key, b) && Inv(DoClaim(s, t, key, b))
    ensures Content(DoClaim(s, t, key, b), k) == Content(s, k)
  {
    var s' := DoClaim(s, t, key, b);
    ClaimNeverFaults(s, t, key, b);
    if s'.task[t].Start? {
      hide Placed, Hashed, Unique, Counted, HeadOk, PcOk, FindBuffer;
      SameCacheContent(s, s', k);
      return;
    }
    ClaimIsSafe(s, t, key, b);
    hide Placed, Hashed, Unique, Counted, HeadOk, PcOk, FindBuffer, ReKey, PcShape, Holds;
    ReKeyContent(s, t, key, b, k);
  }

  /** New buffers cache nothing. */
  lemma GrownContent(s: State, size: nat, g: Growth, k: Key)
    requires Inv(s) && s.pages > 5 && size > 0 && CanGrow(s, size, g)
    ensures Inv(Grown(s, size, g)) && Content(Grown(s, size, g), k) == Content(s, k)
  {
    GrownInv(s, size, g);
    hide Placed, Hashed, Unique, Counted, HeadOk, PcOk, PcShape, Grown, CanGrow;
    SameCacheContent(s, Grown(s, size, g), k);
  }

  lemma TaskContent(s: State, t: nat, pc: Pc, k: Key)
    requires Inv(s) && t < |s.task| && Inv(SetTask(s, t, pc))
    ensures Content(SetTask(s, t, pc), k) == Content(s, k)
  {
    hide Placed, Hashed, Unique, Counted, HeadOk, PcOk, PcShape;
    SameCacheContent(s, SetTask(s, t, pc), k);
  }

  lemma ScanContent(s: State, t: nat, key: Key, g: Growth, k: Key)
    requires Inv(s) && t < |s.task| && Quiet(s.task[t]) && ValidKey(s, key)
    requires PickFrom(s.heads, s.ring, s.sizes[key.dev], None).Some? || CanGrow(s, s.sizes[key.dev], g)
    ensures Inv(DoScan(s, t, key, g)) && Content(DoScan(s, t, key, g), k) == Content(s, k)
  {
    ScanInv(s, t, key, g);
    hide Placed, Hashed, Unique, Counted, HeadOk, PcOk, PcShape, Grown, CanGrow, DoClaim;
    var f := PickFrom(s.heads, s.ring, s.sizes[key.dev], None);
    if f.Some? && s.heads[f.b].io.Unlocked? {
      ClaimContent(s, t, key, f.b, k);
    } else if f.None? && s.pages > 5 {
      GrownContent(s, s.sizes[key.dev], g, k);
      TaskContent(Grown(s, s.sizes[key.dev], g), t, Start(key), k);
    } else {
      TaskContent(s, t, if f.Some? then Victim(key, f.b) else NoVictim(key), k);
    }
  }

  lemma LookupContent(s: State, t: nat, g: Growth, k: Key)
    requires Inv(s) && Enabled(s, Lookup(t, g)) && Inv(Next(s, Lookup(t, g)))
    ensures Content(Next(s, Lookup(t, g)), k) == Content(s, k)
  {
    var key := s.task[t].key;
    var size := s.sizes[key.dev];
    if FindBuffer(s, key).Some? {
      FoundContent(s, t, g, k);
    } else if s.pages > 30 {
      GrownContent(s, size, g, k);
      GrownInv(s, size, g);
      GrownIsFound(s, size, g);
      hide Placed, Hashed, Unique, Counted, HeadOk, PcOk, PcShape, Grown, CanGrow, FindBuffer, DoScan;
      ScanContent(Grown(s, size, g), t, key, g, k);
    } else {
      ScanContent(s, t, key, g, k);
    }
  }

  lemma FoundContent(s: State, t: nat, g: Growth, k: Key)
    requires Inv(s) && Enabled(s, Lookup(t, g)) && Inv(Next(s, Lookup(t, g))) && FindBuffer(s, s.task[t].key).Some?
    ensures Content(Next(s, Lookup(t, g)), k) == Content(s, k)
  {
    FindBufferExact(s, s.task[t].key);
    hide Placed, Hashed, Unique, Counted, HeadOk, PcOk, FindBuffer, PcShape, HashFn, CanGrow, Grown, DoScan;
    SameCacheContent(s, Next(s, Lookup(t, g)), k);
  }

  lemma TryToFreeContent(s: State, b: nat, k: Key)
    requires Inv(s) && b < |s.heads| && TwoLeft(s, b) && Inv(TryToFree(s, b))
    ensures Content(TryToFree(s, b), k) == Content(s, k)
  {
    hide Placed, Hashed, Unique, Counted, HeadOk, PcOk;
    EvictContent(s, TryToFree(s, b), k);
  }

  /** A finished read replaces what was stored in the buffer while it was under way. */
  ghost predicate Overwrites(s: State, step: Step) {
    step.Complete? && step.b < |s.heads| && !s.heads[step.b].io.Unlocked? && !s.heads[step.b].io.write
        && s.heads[step.b].uptodate
  }

  /** Then the block is back to what the disk has: the store is lost, unless it changed nothing. */
  lemma OverwriteLosesStore(s: State, b: nat, torn: Data)
    requires Inv(s) && Enabled(s, Complete(b, torn)) && Overwrites(s, Complete(b, torn))
    ensures var k, s' := s.heads[b].key, Next(s, Complete(b, torn));
            && Content(s, k) == s.heads[b].data && Content(s', k) == Disk(s.disk, k)
            && (Content(s', k) == Content(s, k) <==> s.heads[b].data == Disk(s.disk, k))
  {
    NextInv(s, Complete(b, torn));
    ContentCached(s, s.heads[b].key, b);
    ContentCached(Next(s, Complete(b, torn)), s.heads[b].key, b);
  }

  lemma CompleteContent(s: State, b: nat, torn: Data, k: Key)
    requires Inv(s) && Enabled(s, Complete(b, torn)) && Inv(Next(s, Complete(b, torn)))
        && !Overwrites(s, Complete(b, torn))
    ensures Content(Next(s, Complete(b, torn)), k) == Content(s, k)
  {
    var s' := Next(s, Complete(b, torn));
    var h := s.heads[b];
    assert HeadOk(s.sizes, s.disk, h);
    if k == h.key {
      ContentCached(s', k, b);
      if h.io.write {
        ContentCached(s, k, b);
      } else {
        assert forall c: nat :: !Caches(s, k, c);
      }
      return;
    }
    if c: nat :| Caches(s, k, c) {
      ContentCached(s, k, c);
      ContentCached(s', k, c);
    } else {
      forall c: nat | Caches(s', k, c)
        ensures false
      {
        assert Caches(s, k, c);
      }
    }
  }

  lemma ModifyContent(s: State, t: nat, data: Data, k: Key)
    requires Inv(s) && Enabled(s, Modify(t, data)) && Inv(Next(s, Modify(t, data)))
    ensures Content(Next(s, Modify(t, data)), k) == if k == s.task[t].key then data else Content(s, k)
  {
    var s' := Next(s, Modify(t, data));
    HeldCounts(s, t);
    if k == s.task[t].key {
      ContentCached(s', k, s.task[t].b);
    } else if c: nat :| Caches(s, k, c) {
      ContentCached(s, k, c);
      ContentCached(s', k, c);
    } else {
      forall c: nat | Caches(s', k, c)
        ensures false
      {
        assert Caches(s, k, c);
      }
    }
  }

  lemma ShrinkContent(s: State, step: Step, k: Key)
    requires Inv(s) && Enabled(s, step) && (step.Shrink? || step.Shrunk?) && Inv(Next(s, step))
    ensures Content(Next(s, step), k) == Content(s, k)
  {
    var b := if step.Shrink? then step.b else s.task[step.t].b;
    TryToFreeInv(s, b);
    TryToFreeContent(s, b, k);
    hide Placed, Hashed, Unique, Counted, HeadOk, PcOk, TryToFree;
    if s.heads[b].dirt || !s.heads[b].io.Unlocked? {
      SameCacheContent(s, Next(s, step), k);
    } else {
      SameCacheContent(TryToFree(s, b), Next(s, step), k);
    }
  }

  /** Steps that leave the ring's blocks, flags and data alone. */
  ghost predicate QuietStep(step: Step) {
    !step.Lookup? && !step.Claim? && !step.Complete? && !step.Modify? && !step.Shrink? && !step.Shrunk?
  }

  lemma QuietContent(s: State, step: Step, k: Key)
    requires Inv(s) && Enabled(s, step) && Inv(Next(s, step)) && QuietStep(step)
    ensures Content(Next(s, step), k) == Content(s, k)
  {
    var s' := Next(s, step);
    assert SameRing(s, s') by {
      QuietRing(s, step);
    }
    hide Next, Placed, Hashed, Unique, Counted, HeadOk, PcOk;
    SameCacheContent(s, s', k);
  }

  ghost predicate SameRing(s: State, s': State) {
    true == (
      && Shape(s) && Shape(s') && s'.disk == s.disk && |s'.heads| >= |s.heads|
      && (forall b :: b in s'.ring <==> b in s.ring)
      && (forall b :: b in s.ring ==>
            s'.heads[b].key == s.heads[b].key && s'.heads[b].uptodate == s.heads[b].uptodate
                && s'.heads[b].data == s.heads[b].data))
  }

  lemma QuietRing(s: State, step: Step)
    requires Inv(s) && Enabled(s, step) && Inv(Next(s, step)) && QuietStep(step)
    ensures SameRing(s, Next(s, step))
  {
    if step.Woken? {
      HeldCounts(s, step.t);
      hide Placed, Hashed, Unique, Counted, HeadOk;
    } else if step.ReadAhead? || step.Release? || step.Write? || step.Submit? || step.GiveUp? {
      HolderRing(s, step);
    } else {
      BreadRing(s, step);
    }
  }

  lemma BreadRing(s: State, step: Step)
    requires Inv(s) && Enabled(s, step) && Inv(Next(s, step))
    requires step.Call? || step.BufferWait? || step.FreePages? || step.Fetch? || step.Fetched?
    ensures SameRing(s, Next(s, step))
  {
    hide Placed, Hashed, Unique, Counted, HeadOk, PcOk, PickFrom, TwoLeft;
  }

  lemma HolderRing(s: State, step: Step)
    requires Inv(s) && Enabled(s, step) && Inv(Next(s, step))
    requires step.ReadAhead? || step.Release? || step.Write? || step.Submit? || step.GiveUp?
    ensures SameRing(s, Next(s, step))
  {
    hide Placed, Hashed, Unique, Counted, HeadOk, PcOk, PickFrom, TwoLeft;
  }

  /** No step but a write by a holder changes what any block holds: not eviction, not the reclaim of a page,
      not a disk write, nor a disk read unless it ends in a buffer that was stored into meanwhile. */
  lemma StepContent(s: State, step: Step, k: Key)
    requires Inv(s) && Enabled(s, step)
    ensures Inv(Next(s, step))
    ensures !Overwrites(s, step) ==>
              Content(Next(s, step), k) ==
              if step.Modify? && k == s.task[step.t].key then step.data else Content(s, k)
  {
    NextInv(s, step);
    if Overwrites(s, step) {
      return;
    }
    hide Next, Inv;
    match step {
      case Lookup(t, g) => LookupContent(s, t, g, k);
      case Claim(t) => ClaimStepContent(s, t, k);
      case Complete(b, torn) => CompleteContent(s, b, torn, k);
      case Modify(t, data) => ModifyContent(s, t, data, k);
      case Shrink(_, _) => ShrinkContent(s, step, k);
      case Shrunk(_) => ShrinkContent(s, step, k);
      case _ => QuietContent(s, step, k);
    }
  }

  lemma ClaimStepContent(s: State, t: nat, k: Key)
    requires Inv(s) && Enabled(s, Claim(t)) && Inv(Next(s, Claim(t)))
    ensures Content(Next(s, Claim(t)), k) == Content(s, k)
  {
    ClaimContent(s, t, s.task[t].key, s.task[t].b, k);
  }

  // ------------------------------------------------------------------ any run

  ghost predicate Legal(s: State, steps: seq<Step>)
    decreases |steps|
  {
    steps == [] || (Shape(s) && Enabled(s, steps[0]) && Legal(Next(s, steps[0]), steps[1..]))
  }

  ghost function Run(s: State, steps: seq<Step>): State
    requires Legal(s, steps)
    decreases |steps|
  {
    if steps == [] then s else Run(Next(s, steps[0]), steps[1..])
  }

  /** The same run on a plain array of blocks, of which block `k` starts as `d`: only the writes matter. */
  ghost function Plain(s: State, steps: seq<Step>, k: Key, d: Data): Data
    requires Legal(s, steps)
    decreases |steps|
  {
    if steps == [] then d
    else
      var d1 := if steps[0].Modify? && k == s.task[steps[0].t].key then steps[0].data else d;
      Plain(Next(s, steps[0]), steps[1..], k, d1)
  }

  /** No buffer that is being read has had anything stored in it. */
  ghost predicate Calm(s: State) {
    forall b: nat {:trigger s.heads[b]} :: b < |s.heads| && !s.heads[b].io.Unlocked? && !s.heads[b].io.write ==>
        !s.heads[b].uptodate
  }

  /** A holder that stores into its buffer finds no read of it under way. */
  ghost predicate StoreWaits(s: State, step: Step)
    requires Shape(s) && Enabled(s, step)
  {
    step.Modify? ==> s.heads[s.task[step.t].b].io.Unlocked? || s.heads[s.task[step.t].b].io.write
  }

  ghost predicate StoresWait(s: State, steps: seq<Step>)
    requires Legal(s, steps)
    decreases |steps|
  {
    steps == [] || (StoreWaits(s, steps[0]) && StoresWait(Next(s, steps[0]), steps[1..]))
  }

  lemma CalmClaim(s: State, t: nat, k: Key, b: nat)
    requires Shape(s) && t < |s.task| && ValidKey(s, k) && b < |s.heads| && Calm(s) && s.heads[b].io.Unlocked?
    ensures Calm(DoClaim(s, t, k, b))
  {
    hide FindBuffer, HashFn;
  }

  lemma CalmGrown(s: State, size: nat, g: Growth)
    requires Calm(s) && s.pages > 5 && size > 0
    ensures Calm(Grown(s, size, g))
  {
    var s1 := Prepared(s, size);
    assert Calm(s1);
  }

  lemma CalmScan(s: State, t: nat, k: Key, g: Growth)
    requires Shape(s) && t < |s.task| && ValidKey(s, k) && Calm(s)
    ensures Calm(DoScan(s, t, k, g))
  {
    var f := PickFrom(s.heads, s.ring, s.sizes[k.dev], None);
    hide PickFrom, Grown, DoClaim;
    if f.Some? && s.heads[f.b].io.Unlocked? {
      CalmClaim(s, t, k, f.b);
    } else if f.None? && s.pages > 5 {
      CalmGrown(s, s.sizes[k.dev], g);
    }
  }

  lemma CalmLookup(s: State, t: nat, g: Growth)
    requires Shape(s) && t < |s.task| && s.task[t].Start? && CanGrow(s, s.sizes[s.task[t].key.dev], g) && Calm(s)
    ensures Calm(DoLookup(s, t, g))
  {
    var k := s.task[t].key;
    hide FindBuffer, DoScan, Grown, GrowthOk;
    if FindBuffer(s, k).None? {
      if s.pages > 30 {
        GrownShape(s, s.sizes[k.dev], g);
        CalmGrown(s, s.sizes[k.dev], g);
        CalmScan(Grown(s, s.sizes[k.dev], g), t, k, g);
      } else {
        CalmScan(s, t, k, g);
      }
    }
  }

  /** Only such a store makes a read overwrite anything. */
  lemma CalmNext(s: State, step: Step)
    requires Inv(s) && Enabled(s, step) && Calm(s) && StoreWaits(s, step)
    ensures Calm(Next(s, step)) && !Overwrites(s, step)
  {
    hide Placed, Hashed, Unique, Counted, HeadOk, PcOk, PickFrom, TwoLeft, FindBuffer, DoLookup, DoClaim, TryToFree,
        CanGrow;
    match step {
      case Lookup(t, g) => CalmLookup(s, t, g);
      case Claim(t) => CalmClaim(s, t, s.task[t].key, s.task[t].b);
      case Shrink(_, b) => CalmFree(s, b);
      case Shrunk(t) => CalmFree(s, s.task[t].b);
      case _ =>
    }
  }

  lemma CalmFree(s: State, b: nat)
    requires Shape(s) && b < |s.heads| && Calm(s)
    ensures Calm(TryToFree(s, b))
  {
    hide OffPage, OffPages;
  }

  /** Any run of any processes: no block ever has two buffers and the free list is never found corrupted. If no
      holder stores into a buffer while it is being read, the cache refines the plain array of blocks. */
  lemma {:induction false} CacheRefinesDisk(s: State, steps: seq<Step>, k: Key)
    requires Inv(s) && Legal(s, steps)
    ensures var s' := Run(s, steps);
            && Inv(s') && !s'.fault
            && (Calm(s) && StoresWait(s, steps) ==> Calm(s') && Content(s', k) == Plain(s, steps, k, Content(s, k)))
    decreases |steps|
  {
    if steps == [] {
      return;
    }
    StepContent(s, steps[0], k);
    if Calm(s) && StoresWait(s, steps) {
      CalmNext(s, steps[0]);
    }
    hide Next, Inv, Enabled, Content, Calm;
    CacheRefinesDisk(Next(s, steps[0]), steps[1..], k);
  }

  /** At most one buffer is hashed for a block. */
  lemma OneBufferPerBlock(s: State, steps: seq<Step>, b: nat, c: nat, h: nat)
    requires Inv(s) && Legal(s, steps)
    ensures var s' := Run(s, steps);
            Inv(s') && (h < NR_HASH && b in s'.chain[h] && c in s'.chain[h] && s'.heads[b].key == s'.heads[c].key ==>
                b == c)
  {
    CacheRefinesDisk(s, steps, Key(0, 0));
    var s' := Run(s, steps);
    if h < NR_HASH && b in s'.chain[h] && c in s'.chain[h] {
      assert Chained(s', h, b) && Chained(s', h, c);
    }
  }

  // ----------------------------------------------------------------- at boot

  /** buffer_init: the buffers of one page on the ring, the other heads unused, nothing cached, nobody at work. */
  ghost predicate Boot(s: State) {
    && !s.fault && |s.heads| == HEADS_PER_PAGE && s.ring == [0, 1, 2, 3] && s.unused == Range(4, HEADS_PER_PAGE - 4)
    && (forall b :: 0 <= b < 4 ==> s.heads[b] == NoHead().(size := 1024, page := s.heads[0].page,
        data := s.heads[b].data))
    && (forall b :: 4 <= b < HEADS_PER_PAGE ==> s.heads[b] == NoHead())
    && |s.chain| == NR_HASH && (forall h :: 0 <= h < NR_HASH ==> s.chain[h] == [])
    && (forall t :: 0 <= t < |s.task| ==> s.task[t].Idle?)
  }

  lemma BootInv(s: State)
    requires Boot(s)
    ensures Inv(s) && Calm(s) && forall k :: Content(s, k) == Disk(s.disk, k)
  {
    forall b: nat | b < |s.heads|
      ensures s.heads[b].count == Holders(s.task, b)
    {
      HoldersNone(s.task, b);
    }
    assert forall b: nat :: b in s.ring <==> b < 4;
    assert forall g: nat, c: nat {:trigger Chained(s, g, c)} :: g < NR_HASH && c < |s.heads| ==> !Chained(s, g, c);
    forall k
      ensures Content(s, k) == Disk(s.disk, k)
    {
      assert forall b: nat :: b < |s.heads| ==> !s.heads[b].uptodate;
      assert forall b: nat :: !Caches(s, k, b);
    }
  }

  /** From boot on, whatever the processes do. */
  lemma CacheFromBoot(s: State, steps: seq<Step>, k: Key)
    requires Boot(s) && Legal(s, steps)
    ensures Inv(Run(s, steps)) && !Run(s, steps).fault
    ensures StoresWait(s, steps) ==> Content(Run(s, steps), k) == Plain(s, steps, k, Disk(s.disk, k))
  {
    BootInv(s);
    hide Inv, Boot;
    CacheRefinesDisk(s, steps, k);
  }
}

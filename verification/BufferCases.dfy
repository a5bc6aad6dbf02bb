/**
 A run of the buffer cache from boot in which a store into a buffer is lost: one process sleeps in
 bread, another gets the same buffer from getblk and fills it, and then the read ends.
*/
module BufferCases {
  import opened BufferCache
  import opened BufferSafety
  import opened BufferContent

  const DISK_HAS: Data := [7]
  const STORED: Data := [9]

  /** buffer_init's cache with one device of 1 kB blocks, two processes, and no page to spare. */
  function FirstCache(): State {
    State(
      [0, 1024],
      seq(HEADS_PER_PAGE, b => if b < 4 then NoHead().(size := 1024, page := 1) else NoHead()),
      [0, 1, 2, 3], seq(NR_HASH, _ => []), Range(4, HEADS_PER_PAGE - 4), 0,
      map[Block() := DISK_HAS], [Idle, Idle], false)
  }

  function Block(): Key { Key(1, 0) }

  function NoGrowth(): Growth { Growth(0, [], []) }

  lemma FirstCacheBoot()
    ensures Boot(FirstCache()) && Shape(FirstCache())
  {
    BootInv(FirstCache());
  }

  lemma BlockHash()
    ensures HashFn(Block()) == 1
  {
    assert Xor(1, 0) == 1;
  }

  /** The block has buffer 0, which is not up to date, and these are the processes. */
  ghost predicate Has0(s: State, h: Head, task: seq<Pc>) {
    && Shape(s) && !s.fault && s.sizes == [0, 1024] && s.pages == 0 && s.disk == map[Block() := DISK_HAS]
    && |s.heads| == HEADS_PER_PAGE && 0 in s.ring && s.chain[1] == [0] && s.heads[0] == h && s.task == task
    && h.key == Block() && h.size == 1024
  }

  function Fresh0(): Head {
    Head(Block(), 1024, 1, false, false, Unlocked, [], 1)
  }

  function Asking(): State { FirstCache().(task := [Start(Block()), Idle]) }

  /** What getblk finds: no buffer of the block, and a free one first on the list. */
  lemma FirstFinds()
    ensures Shape(Asking()) && FindBuffer(Asking(), Block()) == None
    ensures PickFrom(Asking().heads, Asking().ring, 1024, None) == Some(0)
  {
    BlockHash();
    hide Xor;
    assert Asking().chain[1] == [];
    assert Asking().ring[0] == 0 && Asking().heads[0] == NoHead().(size := 1024, page := 1);
    assert Badness(Asking().heads[0]) == 0;
  }

  lemma FirstClaims()
    ensures Shape(Asking())
    ensures DoScan(Asking(), 0, Block(), NoGrowth()) == ReKey(Asking(), 0, Block(), 0)
  {
    FirstFinds();
    hide PickFrom, FindBuffer, HashFn, ReKey;
    assert Asking().heads[0] == NoHead().(size := 1024, page := 1);
  }

  lemma FirstKeyed()
    ensures Shape(Asking())
    ensures Has0(ReKey(Asking(), 0, Block(), 0), Fresh0(), [Holding(Block(), 0), Idle])
  {
    FirstFinds();
    BlockHash();
    hide PickFrom, FindBuffer, HashFn, Xor;
    var s := Asking();
    assert s.heads[0] == NoHead().(size := 1024, page := 1);
    var s' := ReKey(s, 0, Block(), 0);
    assert s'.heads[0] == Fresh0();
    assert s'.chain[1] == [0];
    assert Within(s'.ring, |s'.heads|);
  }

  lemma FirstGets()
    ensures Shape(FirstCache()) && Enabled(FirstCache(), Call(0, Block()))
    ensures var s1 := Next(FirstCache(), Call(0, Block()));
            && Shape(s1) && Enabled(s1, Lookup(0, NoGrowth()))
            && Has0(Next(s1, Lookup(0, NoGrowth())), Fresh0(), [Holding(Block(), 0), Idle])
  {
    FirstCacheBoot();
    FirstFinds();
    FirstClaims();
    FirstKeyed();
    assert Next(FirstCache(), Call(0, Block())) == Asking();
    hide FirstCache, PickFrom, FindBuffer, ReKey, DoScan, HashFn, Has0, Within;
  }

  /** The second process asks for it and gets the same buffer. */
  lemma SecondGets(s: State)
    requires Has0(s, Fresh0(), [Holding(Block(), 0), Idle])
    ensures Enabled(s, Call(1, Block()))
    ensures var s1 := Next(s, Call(1, Block()));
            && Shape(s1) && Enabled(s1, Lookup(1, NoGrowth()))
            && Has0(Next(s1, Lookup(1, NoGrowth())), Fresh0().(count := 2), [Holding(Block(), 0), Holding(Block(), 0)])
  {
    BlockHash();
    hide Xor, HashFn;
    var s1 := Next(s, Call(1, Block()));
    assert FindIn(s1.heads, s1.chain[1], Block(), 1024) == Some(0);
    assert FindBuffer(s1, Block()) == Some(0);
    hide FindBuffer, DoScan, Grown;
    var s2 := Next(s1, Lookup(1, NoGrowth()));
    assert s2 == SetTask(PutLast(SetHead(s1, 0, Fresh0().(count := 2)), 0), 1, Holding(Block(), 0));
    forall i | 0 <= i < |s2.ring|
      ensures s2.ring[i] < |s2.heads|
    {
      assert s2.ring[i] in s2.ring;
      assert s2.ring[i] in s.ring;
    }
  }

  /** The first reads the block; while it sleeps, the second stores into the buffer. */
  lemma StoreMeetsRead(s: State)
    requires Has0(s, Fresh0().(count := 2), [Holding(Block(), 0), Holding(Block(), 0)])
    ensures Enabled(s, Fetch(0))
    ensures var s1 := Next(s, Fetch(0));
            && Shape(s1) && Enabled(s1, Submit(0))
            && (var s2 := Next(s1, Submit(0));
                && Shape(s2) && Enabled(s2, Modify(1, STORED))
                && Has0(Next(s2, Modify(1, STORED)),
                        Fresh0().(count := 2, io := Queued(false), data := STORED, uptodate := true, dirt := true),
                        [Reading(Block(), 0), Holding(Block(), 0)]))
  {
    hide HashFn;
    var s1 := Next(s, Fetch(0));
    assert Shape(s1);
    var s2 := Next(s1, Submit(0));
    assert Shape(s2);
  }

  function LostSteps(): seq<Step> {
    [Call(0, Block()), Lookup(0, NoGrowth()), Call(1, Block()), Lookup(1, NoGrowth()), Fetch(0), Submit(0),
     Modify(1, STORED)]
  }

  lemma RunFirst(s: State, step: Step, rest: seq<Step>)
    requires Shape(s) && Enabled(s, step) && Legal(Next(s, step), rest)
    ensures Legal(s, [step] + rest) && Run(s, [step] + rest) == Run(Next(s, step), rest)
  {
    assert ([step] + rest)[1..] == rest;
  }

  lemma {:induction false} LegalConcat(s: State, a: seq<Step>, b: seq<Step>)
    requires Legal(s, a) && Legal(Run(s, a), b)
    ensures Legal(s, a + b) && Run(s, a + b) == Run(Run(s, a), b)
    decreases |a|
  {
    hide Next, Enabled, Shape;
    if a == [] {
      assert a + b == b;
    } else {
      LegalConcat(Next(s, a[0]), a[1..], b);
      RunFirst(s, a[0], a[1..] + b);
      assert [a[0]] + (a[1..] + b) == a + b;
    }
  }

  /** The state before the read ends. */
  lemma LostRun()
    ensures Legal(FirstCache(), LostSteps())
    ensures var s := Run(FirstCache(), LostSteps());
            Has0(s, Fresh0().(count := 2, io := Queued(false), data := STORED, uptodate := true, dirt := true),
                 [Reading(Block(), 0), Holding(Block(), 0)])
  {
    hide Next, Enabled, Shape, FirstCache, Legal, Run;
    FirstGets();
    var s0 := FirstCache();
    var s1 := Next(s0, Call(0, Block()));
    var s2 := Next(s1, Lookup(0, NoGrowth()));
    SecondGets(s2);
    var s3 := Next(s2, Call(1, Block()));
    var s4 := Next(s3, Lookup(1, NoGrowth()));
    StoreMeetsRead(s4);
    var s5 := Next(s4, Fetch(0));
    var s6 := Next(s5, Submit(0));
    Two(s0, Call(0, Block()), Lookup(0, NoGrowth()));
    Two(s2, Call(1, Block()), Lookup(1, NoGrowth()));
    Two(s4, Fetch(0), Submit(0));
    One(s6, Modify(1, STORED));
    LegalConcat(s4, [Fetch(0), Submit(0)], [Modify(1, STORED)]);
    LegalConcat(s2, [Call(1, Block()), Lookup(1, NoGrowth())], [Fetch(0), Submit(0)] + [Modify(1, STORED)]);
    LegalConcat(s0, [Call(0, Block()), Lookup(0, NoGrowth())],
        [Call(1, Block()), Lookup(1, NoGrowth())] + ([Fetch(0), Submit(0)] + [Modify(1, STORED)]));
    assert [Call(0, Block()), Lookup(0, NoGrowth())]
           + ([Call(1, Block()), Lookup(1, NoGrowth())] + ([Fetch(0), Submit(0)] + [Modify(1, STORED)])) == LostSteps();
  }

  lemma One(s: State, a: Step)
    requires Shape(s) && Enabled(s, a)
    ensures Legal(s, [a]) && Run(s, [a]) == Next(s, a)
  {
    var s1 := Next(s, a);
    assert Legal(s1, []) && Run(s1, []) == s1 && [a][1..] == [];
  }

  lemma Two(s: State, a: Step, b: Step)
    requires Shape(s) && Enabled(s, a)
    requires var s1 := Next(s, a); Shape(s1) && Enabled(s1, b)
    ensures Legal(s, [a, b]) && Run(s, [a, b]) == Next(Next(s, a), b)
  {
    hide Next, Enabled, Shape;
    One(Next(s, a), b);
    RunFirst(s, a, [b]);
    assert [a] + [b] == [a, b];
  }

  /** The end of the read. */
  lemma LostEnd(s: State)
    requires Inv(s)
    requires Has0(s, Fresh0().(count := 2, io := Queued(false), data := STORED, uptodate := true, dirt := true),
                  [Reading(Block(), 0), Holding(Block(), 0)])
    ensures Enabled(s, Complete(0, [])) && Overwrites(s, Complete(0, [])) && Inv(Next(s, Complete(0, [])))
    ensures Content(s, Block()) == STORED && Content(Next(s, Complete(0, [])), Block()) == DISK_HAS
  {
    hide Inv, Content, Next;
    OverwriteLosesStore(s, 0, []);
    NextInv(s, Complete(0, []));
  }

  /** From boot: the block holds what the second process stored, and once the read of the first ends, what the disk
      had before. */
  lemma StoreIsLost()
    ensures Boot(FirstCache()) && Legal(FirstCache(), LostSteps())
    ensures Legal(FirstCache(), LostSteps() + [Complete(0, [])])
    ensures var s, s' := Run(FirstCache(), LostSteps()), Run(FirstCache(), LostSteps() + [Complete(0, [])]);
            && Inv(s) && Inv(s') && Overwrites(s, Complete(0, []))
            && Content(s, Block()) == STORED && Content(s', Block()) == DISK_HAS != STORED
  {
    hide Inv, Legal, Run, FirstCache, LostSteps, Content, Has0, Next, Enabled, Overwrites, Boot, Shape;
    FirstCacheBoot();
    LostRun();
    var s := Run(FirstCache(), LostSteps());
    CacheFromBoot(FirstCache(), LostSteps(), Block());
    LostEnd(s);
    InvHasShape(s);
    One(s, Complete(0, []));
    LegalConcat(FirstCache(), LostSteps(), [Complete(0, [])]);
  }

  lemma InvHasShape(s: State)
    requires Inv(s)
    ensures Shape(s)
  {
    hide Placed, Hashed, Unique, Counted, HeadOk, PcOk;
  }
}

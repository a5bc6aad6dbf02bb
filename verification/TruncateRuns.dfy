/**
 Whole truncates: what one pass, and any number of them, keep and conserve.
*/
module TruncateRuns {
  import opened MinixFs
  import opened Truncate

  /** The blocks reachable from an inode. */
  ghost function Blocks(fs: Fs, ino: nat): set<nat>
    requires Shape(fs) && ino < |fs.inode|
  {
    set b: nat | 0 < b < fs.zones && Reaches(fs, ino, b)
  }

  ghost predicate Reaches(fs: Fs, ino: nat, b: nat)
    requires Shape(fs) && ino < |fs.inode|
  {
    exists s: Slot :: ValidSlot(s) && Ptr(fs, ino, s) == b
  }

  /** What a truncate must keep at every step: blocks owned at the start are still reachable with their
      bit set, or unreachable with their bit clear; all other bits and all other files are as they were. */
  ghost predicate Conserved(fs: Fs, ino: nat, fs': Fs) {
    true == (
      && Shape(fs) && Shape(fs') && ino < |fs.inode| == |fs'.inode| && fs'.first == fs.first && fs'.zones == fs.zones
      && Blocks(fs', ino) <= Blocks(fs, ino)
      && (forall b {:trigger Bit(fs', b)} :: fs.first <= b < fs.zones ==>
            Bit(fs', b) == if b in Blocks(fs, ino) then b in Blocks(fs', ino) else Bit(fs, b))
      && (forall i: nat :: i < |fs.inode| && i != ino ==> fs'.inode[i] == fs.inode[i])
      && (forall i: nat, lb: nat, o: nat {:trigger ByteAt(fs', i, lb, o)} ::
          i < |fs.inode| && i != ino && lb < MAX_BLOCKS && o < BLOCK_SIZE ==>
            ByteAt(fs', i, lb, o) == ByteAt(fs, i, lb, o)))
  }

  lemma BlocksAreOwned(fs: Fs, own: Owners, ino: nat)
    requires Inv(fs, own) && ino < |fs.inode|
    ensures Blocks(fs, ino) == set b | b in own && own[b].0 == ino
  {
    forall b | b in Blocks(fs, ino)
      ensures b in own && own[b].0 == ino
    {
      var s: Slot :| ValidSlot(s) && Ptr(fs, ino, s) == b;
    }
  }

  lemma TrimmedBlocks(fs: Fs, own: Owners, ino: nat, gone: iset<Slot>, fs': Fs)
    requires Inv(fs, own) && Trimmed(fs, ino, gone, fs', own)
    ensures Shape(fs) && Shape(fs') && ino < |fs.inode| == |fs'.inode|
    ensures Blocks(fs', ino) == Blocks(fs, ino) - set b | b in own && Freed(own, ino, gone, b)
    ensures forall b {:trigger Bit(fs', b)} :: fs.first <= b < fs.zones ==>
              Bit(fs', b) == if b in Blocks(fs, ino) then b in Blocks(fs', ino) else Bit(fs, b)
  {
    hide Ptr, ZeroTails;
    var own' := Rest(own, ino, gone);
    BlocksAreOwned(fs, own, ino);
    BlocksAreOwned(fs', own', ino);
    hide Inv, Blocks;
  }

  /** The inode of another file, when every slot keeps what it kept. */
  lemma SameInode(fs: Fs, ino: nat, gone: iset<Slot>, fs': Fs, own: Owners, i: nat)
    requires Trimmed(fs, ino, gone, fs', own) && i < |fs.inode| && i != ino
    ensures fs'.inode[i] == fs.inode[i]
  {
    forall n: nat | n < 9
      ensures fs'.inode[i].zone[n] == fs.inode[i].zone[n]
    {
      assert ValidSlot(Zone(n)) && Ptr(fs', i, Zone(n)) == Ptr(fs, i, Zone(n));
    }
    assert fs'.inode[i].zone == fs.inode[i].zone;
  }

  lemma TrimmedConserved(fs: Fs, own: Owners, ino: nat, gone: iset<Slot>, fs': Fs)
    requires Inv(fs, own) && Trimmed(fs, ino, gone, fs', own)
    ensures Conserved(fs, ino, fs')
  {
    TrimmedBlocks(fs, own, ino, gone, fs');
    forall i: nat | i < |fs.inode| && i != ino
      ensures fs'.inode[i] == fs.inode[i]
    {
      SameInode(fs, ino, gone, fs', own, i);
    }
    hide Ptr, Blocks, Inv;
    forall i: nat, lb: nat, o: nat | i < |fs.inode| && i != ino && lb < MAX_BLOCKS && o < BLOCK_SIZE
      ensures ByteAt(fs', i, lb, o) == ByteAt(fs, i, lb, o)
    {
    }
  }

  /** Setting the size of a file without blocks is seen by nobody else. */
  lemma SizeConserved(fs: Fs, own: Owners, ino: nat, fs': Fs)
    requires Conserved(fs, ino, fs') && Inv(fs', own) && Blocks(fs', ino) == {}
    ensures Conserved(fs, ino, SetSize(fs', ino, 0)) && Inv(SetSize(fs', ino, 0), own)
        && Blocks(SetSize(fs', ino, 0), ino) == {}
    ensures forall s: Slot :: ValidSlot(s) ==> Ptr(SetSize(fs', ino, 0), ino, s) == 0
  {
    var fs'' := SetSize(fs', ino, 0);
    NoBlocks(fs', ino);
    SetSizeInv(fs', own, ino);
    assert Blocks(fs'', ino) == {};
    hide Ptr, Blocks, Inv;
    assert forall b {:trigger Bit(fs'', b)} :: fs.first <= b < fs.zones ==> Bit(fs'', b) == Bit(fs', b);
    forall i: nat, lb: nat, o: nat | i < |fs.inode| && i != ino && lb < MAX_BLOCKS && o < BLOCK_SIZE
      ensures ByteAt(fs'', i, lb, o) == ByteAt(fs, i, lb, o)
    {
      assert ByteAt(fs', i, lb, o) == ByteAt(fs, i, lb, o);
      assert ByteAt(fs'', i, lb, o) == ByteAt(fs', i, lb, o);
    }
  }

  lemma NoBlocks(fs: Fs, ino: nat)
    requires Shape(fs) && ino < |fs.inode| && Blocks(fs, ino) == {}
    ensures forall s: Slot :: ValidSlot(s) ==> Ptr(fs, ino, s) == 0
  {
    forall s: Slot | ValidSlot(s)
      ensures Ptr(fs, ino, s) == 0
    {
      assert Reaches(fs, ino, Ptr(fs, ino, s));
      assert Ptr(fs, ino, s) !in Blocks(fs, ino);
    }
  }

  /** A slot survives only because some block of the file is busy, and then the inode slot above it survives too. */
  lemma StaysBusy(fs: Fs, ino: nat, s: Slot, busy: set<nat>) returns (n: nat, t: Slot)
    requires Shape(fs) && ino < |fs.inode| && ValidSlot(s) && Stays(fs, ino, s, busy)
    ensures n < 9 && Stays(fs, ino, Zone(n), busy)
    ensures ValidSlot(t) && Ptr(fs, ino, t) != 0 && Ptr(fs, ino, t) in busy
  {
    n := StaysTopmost(fs, ino, s, busy);
    t := s;
    if t == Zone(8) && Ptr(fs, ino, t) !in busy {
      var i: nat :| i < ZONES_PER_BLOCK && ValidSlot(Child(t, i)) && StaysMid(fs, ino, Child(t, i), busy);
      t := Child(t, i);
    }
    if !StaysLow(fs, ino, t, busy) {
      var i: nat :| i < ZONES_PER_BLOCK && ValidSlot(Child(t, i)) && StaysLow(fs, ino, Child(t, i), busy);
      t := Child(t, i);
    }
  }

  lemma StaysTopmost(fs: Fs, ino: nat, s: Slot, busy: set<nat>) returns (n: nat)
    requires Shape(fs) && ino < |fs.inode| && ValidSlot(s) && Stays(fs, ino, s, busy)
    ensures n < 9 && Stays(fs, ino, Zone(n), busy)
  {
    match s {
      case Zone(m) => n := m;
      case Ind(k) =>
        n := 7;
        assert Child(Zone(7), k) == s;
      case Dind(k) =>
        n := 8;
        assert Child(Zone(8), k) == s;
      case Leaf(k, l) =>
        n := 8;
        assert Child(Dind(k), l) == s && StaysMid(fs, ino, Dind(k), busy);
        assert Child(Zone(8), k) == Dind(k);
    }
  }

  /** Which blocks are left after a pass, and when there are any. */
  lemma PassBlocksLeft(fs: Fs, own: Owners, ino: nat, busy: set<nat>, fs': Fs, again: bool)
    requires Inv(fs, own) && PassDone(fs, own, ino, busy, fs', again)
    ensures Shape(fs') && ino < |fs'.inode|
    ensures busy * Blocks(fs, ino) <= Blocks(fs', ino)
    ensures again <==> Blocks(fs', ino) != {}
    ensures again <==> busy * Blocks(fs, ino) != {}
  {
    var gone := Gone(fs, ino, busy, iset t: Slot | ValidSlot(t));
    forall b | b in busy * Blocks(fs, ino)
      ensures b in Blocks(fs', ino)
    {
      var s: Slot :| ValidSlot(s) && Ptr(fs, ino, s) == b;
      assert Stays(fs, ino, s, busy);
      assert Ptr(fs', ino, s) == b;
    }
    if b :| b in Blocks(fs', ino) {
      var s: Slot :| ValidSlot(s) && Ptr(fs', ino, s) == b;
      assert s !in gone && Stays(fs, ino, s, busy);
      var n, t := StaysBusy(fs, ino, s, busy);
    }
    if again {
      var n: nat :| n < 9 && Stays(fs, ino, Zone(n), busy);
      var m, t := StaysBusy(fs, ino, Zone(n), busy);
      assert Reaches(fs, ino, Ptr(fs, ino, t));
      assert Ptr(fs, ino, t) in busy * Blocks(fs, ino);
    }
  }

  /** A file with nothing in it. */
  ghost predicate Empty(fs: Fs, ino: nat) {
    && Shape(fs) && ino < |fs.inode| && fs.inode[ino].size == 0
    && (forall s: Slot :: ValidSlot(s) ==> Ptr(fs, ino, s) == 0)
  }

  /** One pass, whatever is busy: the invariant (so no block is freed twice), conservation, no busy block
      freed, and another pass exactly when something busy is left. */
  ghost predicate PassKeeps(fs: Fs, ino: nat, busy: set<nat>, fs': Fs, again: bool, own': Owners) {
    true == (
      && Inv(fs', own') && Conserved(fs, ino, fs')
      && busy * Blocks(fs, ino) <= Blocks(fs', ino)
      && (again <==> Blocks(fs', ino) != {})
      && (again <==> busy * Blocks(fs, ino) != {})
      && (!again ==> Empty(fs', ino)))
  }

  lemma PassInv(fs: Fs, own: Owners, ino: nat, busy: set<nat>) returns (own': Owners)
    requires Inv(fs, own) && ino < |fs.inode|
    ensures var (fs', again) := Pass(fs, ino, busy);
            PassKeeps(fs, ino, busy, fs', again, own')
  {
    var (fs1, again) := PassBlocks(fs, ino, busy);
    PassBlocksInv(fs, own, ino, busy);
    PassBlocksLeft(fs, own, ino, busy, fs1, again);
    own' := FinishPass(fs, own, ino, busy, fs1, again);
  }

  lemma FinishPass(fs: Fs, own: Owners, ino: nat, busy: set<nat>, fs1: Fs, again: bool) returns (own': Owners)
    requires Inv(fs, own) && PassDone(fs, own, ino, busy, fs1, again)
    requires Shape(fs1) && ino < |fs1.inode|
    requires busy * Blocks(fs, ino) <= Blocks(fs1, ino)
    requires (again <==> Blocks(fs1, ino) != {}) && (again <==> busy * Blocks(fs, ino) != {})
    ensures PassKeeps(fs, ino, busy, if again then fs1 else SetSize(fs1, ino, 0), again, own')
  {
    hide Ptr, Blocks, Stays, Gone, Owned, Marked, ZeroTails, Conserved;
    var gone := Gone(fs, ino, busy, iset t: Slot | ValidSlot(t));
    own' := Rest(own, ino, gone);
    TrimmedInv(fs, own, ino, gone, fs1);
    TrimmedConserved(fs, own, ino, gone, fs1);
    if !again {
      SizeConserved(fs, own', ino, fs1);
    }
  }

  /** A pass that frees any block leaves strictly fewer. */
  lemma PassProgress(fs: Fs, own: Owners, ino: nat, busy: set<nat>)
    requires Inv(fs, own) && ino < |fs.inode|
    ensures var fs' := Pass(fs, ino, busy).0;
            (exists b :: b in Blocks(fs, ino) && fs.first <= b < fs.zones && b < fs'.zones && fs'.first <= b
                && !Bit(fs', b)) ==>
              |Blocks(fs', ino)| < |Blocks(fs, ino)|
  {
    var own' := PassInv(fs, own, ino, busy);
    var fs' := Pass(fs, ino, busy).0;
    hide Ptr, Inv, Blocks;
    if b :| b in Blocks(fs, ino) && fs.first <= b < fs.zones && b < fs'.zones && fs'.first <= b && !Bit(fs', b) {
      assert b !in Blocks(fs', ino);
      SmallerSet(Blocks(fs', ino), Blocks(fs, ino), b);
    }
  }

  lemma SmallerSet(a: set<nat>, b: set<nat>, x: nat)
    requires a <= b && x in b && x !in a
    ensures |a| < |b|
  {
    assert b == a + (b - a) && x in b - a;
  }

  lemma ConservedTwice(fs: Fs, ino: nat, fs1: Fs, fs2: Fs)
    requires Conserved(fs, ino, fs1) && Conserved(fs1, ino, fs2)
    ensures Conserved(fs, ino, fs2)
  {
    hide Blocks, ByteAt;
    forall b | fs.first <= b < fs.zones
      ensures Bit(fs2, b) == if b in Blocks(fs, ino) then b in Blocks(fs2, ino) else Bit(fs, b)
    {
      assert Bit(fs1, b) == if b in Blocks(fs, ino) then b in Blocks(fs1, ino) else Bit(fs, b);
    }
    forall i: nat, lb: nat, o: nat | i < |fs.inode| && i != ino && lb < MAX_BLOCKS && o < BLOCK_SIZE
      ensures ByteAt(fs2, i, lb, o) == ByteAt(fs, i, lb, o)
    {
      assert ByteAt(fs1, i, lb, o) == ByteAt(fs, i, lb, o);
    }
  }

  lemma ConservedSelf(fs: Fs, ino: nat)
    requires Shape(fs) && ino < |fs.inode| && exists own :: Inv(fs, own)
    ensures Conserved(fs, ino, fs)
  {
    var own :| Inv(fs, own);
    BlocksAreOwned(fs, own, ino);
  }

  ghost predicate RunKeeps(fs: Fs, ino: nat, fs': Fs, going: bool, own': Owners) {
    true == (Inv(fs', own') && Conserved(fs, ino, fs') && (!going ==> Empty(fs', ino)))
  }

  /** Truncate is restartable: after any number of passes, whatever was busy in each, no block has been freed
      twice, every block owned at the start is either still reachable with its bit set or unreachable with its
      bit clear, and no other file has noticed; once it stops, the file is empty. */
  lemma {:induction false} TruncateRun(fs: Fs, own: Owners, ino: nat, busy: seq<set<nat>>) returns (own': Owners)
    requires Inv(fs, own) && ino < |fs.inode|
    ensures var (fs', going) := Truncated(fs, ino, busy);
            RunKeeps(fs, ino, fs', going, own')
    decreases |busy|
  {
    if busy == [] {
      ConservedSelf(fs, ino);
      return own;
    }
    var own1 := PassInv(fs, own, ino, busy[0]);
    var (fs1, again) := Pass(fs, ino, busy[0]);
    if !again {
      return own1;
    }
    hide Pass, Owned, Marked, ZeroTails, Ptr, Empty, Blocks;
    own' := TruncateRun(fs1, own1, ino, busy[1..]);
    hide Conserved;
    ConservedTwice(fs, ino, fs1, Truncated(fs1, ino, busy[1..]).0);
  }

  /** With nothing of the file busy, one pass empties it. */
  lemma TruncateIdle(fs: Fs, own: Owners, ino: nat, busy: set<nat>)
    requires Inv(fs, own) && ino < |fs.inode| && busy * Blocks(fs, ino) == {}
    ensures var (fs', again) := Pass(fs, ino, busy);
            !again && Empty(fs', ino)
            && forall b :: b in Blocks(fs, ino) ==> fs'.first <= b < fs'.zones && !Bit(fs', b)
  {
    var own' := PassInv(fs, own, ino, busy);
    BlocksAreOwned(fs, own, ino);
    hide Ptr, Owned, ZeroTails;
  }
}

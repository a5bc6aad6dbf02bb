/**
 truncate of 0.12: passes over the block map that free what is not busy and go
 round again while something was. `busy` is the set of blocks some buffer of which
 is in use when the pass asks for them; it may be any set, and another one in each pass.
*/
module Truncate {
  import opened MinixFs

  // ------------------------------------------------------------------ the code

  /** free_block; false if the block is busy. Clearing a clear bit, or a block outside the data zones, is a fault. */
  function FreeBlock(fs: Fs, b: nat, busy: set<nat>): (r: (Fs, bool))
    requires Shape(fs)
    ensures Shape(r.0) && r.0.index == fs.index && r.0.inode == fs.inode && r.0.zones == fs.zones
  {
    if b < fs.first || b >= fs.zones then (fs.(fault := true), false)
    else if b in busy then (fs, false)
    else (fs.(bits := fs.bits[b - fs.first + 1 := false], fault := fs.fault || !Bit(fs, b)), true)
  }

  /** The loop of free_ind over the index block `h`; true if some block was busy. */
  function FreeEntries(fs: Fs, h: nat, i: nat, busy: set<nat>): (r: (Fs, bool))
    requires Shape(fs) && h < fs.zones && i <= ZONES_PER_BLOCK
    ensures Shape(r.0) && r.0.inode == fs.inode && r.0.zones == fs.zones
    decreases |fs.index[h]| - i
  {
    if i == ZONES_PER_BLOCK then (fs, false)
    else if fs.index[h][i] == 0 then FreeEntries(fs, h, i + 1, busy)
    else
      var (fs1, ok) := FreeBlock(fs, fs.index[h][i], busy);
      if ok then FreeEntries(SetEntry(fs1, h, i, 0), h, i + 1, busy)
      else (FreeEntries(fs1, h, i + 1, busy).0, true)
  }

  /** free_ind; true if the block and everything in it is gone. */
  function FreeInd(fs: Fs, z: nat, busy: set<nat>): (r: (Fs, bool))
    requires Shape(fs) && z < fs.zones
    ensures Shape(r.0) && r.0.inode == fs.inode && r.0.zones == fs.zones
  {
    if z == 0 then (fs, true)
    else
      var (fs1, anyBusy) := FreeEntries(fs, z, 0, busy);
      if anyBusy then (fs1, false) else FreeBlock(fs1, z, busy)
  }

  /** The loop of free_dind over the index block `h`. */
  function FreeIndEntries(fs: Fs, h: nat, i: nat, busy: set<nat>): (r: (Fs, bool))
    requires Shape(fs) && h < fs.zones && i <= ZONES_PER_BLOCK
    ensures Shape(r.0) && r.0.inode == fs.inode && r.0.zones == fs.zones
    decreases |fs.index[h]| - i
  {
    if i == ZONES_PER_BLOCK then (fs, false)
    else if fs.index[h][i] == 0 then FreeIndEntries(fs, h, i + 1, busy)
    else
      var (fs1, ok) := FreeInd(fs, fs.index[h][i], busy);
      if ok then FreeIndEntries(SetEntry(fs1, h, i, 0), h, i + 1, busy)
      else (FreeIndEntries(fs1, h, i + 1, busy).0, true)
  }

  function FreeDind(fs: Fs, z: nat, busy: set<nat>): (r: (Fs, bool))
    requires Shape(fs) && z < fs.zones
    ensures Shape(r.0) && r.0.inode == fs.inode && r.0.zones == fs.zones
  {
    if z == 0 then (fs, true)
    else
      var (fs1, anyBusy) := FreeIndEntries(fs, z, 0, busy);
      if anyBusy then (fs1, false) else FreeBlock(fs1, z, busy)
  }

  /** The direct zones i..7. */
  function FreeZones(fs: Fs, ino: nat, i: nat, busy: set<nat>): (r: (Fs, bool))
    requires Shape(fs) && ino < |fs.inode| && i <= 7
    ensures Shape(r.0) && |r.0.inode| == |fs.inode| && r.0.zones == fs.zones
    decreases |fs.inode[ino].zone| - i
  {
    if i == 7 then (fs, false)
    else if fs.inode[ino].zone[i] == 0 then FreeZones(fs, ino, i + 1, busy)
    else
      var (fs1, ok) := FreeBlock(fs, fs.inode[ino].zone[i], busy);
      if ok then FreeZones(SetPtr(fs1, ino, Zone(i), 0), ino, i + 1, busy)
      else (FreeZones(fs1, ino, i + 1, busy).0, true)
  }

  /** One pass of truncate; true if something was busy. The size goes to zero after a pass without busy blocks. */
  function Pass(fs: Fs, ino: nat, busy: set<nat>): (r: (Fs, bool))
    requires Shape(fs) && ino < |fs.inode|
    ensures Shape(r.0) && |r.0.inode| == |fs.inode|
  {
    var (fs1, busy1) := FreeZones(fs, ino, 0, busy);
    var (fs2, ok2) := FreeInd(fs1, fs1.inode[ino].zone[7], busy);
    var fs3 := if ok2 then SetPtr(fs2, ino, Zone(7), 0) else fs2;
    var (fs4, ok4) := FreeDind(fs3, fs3.inode[ino].zone[8], busy);
    var fs5 := if ok4 then SetPtr(fs4, ino, Zone(8), 0) else fs4;
    var again := busy1 || !ok2 || !ok4;
    (if again then fs5 else SetSize(fs5, ino, 0), again)
  }

  function SetSize(fs: Fs, ino: nat, size: nat): (fs': Fs)
    requires Shape(fs) && ino < |fs.inode|
    ensures Shape(fs')
  {
    fs.(inode := fs.inode[ino := fs.inode[ino].(size := size)])
  }

  /** truncate, going round as long as something is busy; busy[k] is what is busy in pass k.
      The second result says that it is still going round. */
  function Truncated(fs: Fs, ino: nat, busy: seq<set<nat>>): (r: (Fs, bool))
    requires Shape(fs) && ino < |fs.inode|
    ensures Shape(r.0) && |r.0.inode| == |fs.inode|
    decreases |busy|
  {
    if busy == [] then (fs, true)
    else
      var (fs1, again) := Pass(fs, ino, busy[0]);
      if again then Truncated(fs1, ino, busy[1..]) else (fs1, false)
  }

  // ------------------------------------------------------------ what is left

  function Child(s: Slot, i: nat): Slot {
    match s
    case Zone(n) => if n == 7 then Ind(i) else Dind(i)
    case Dind(k) => Leaf(k, i)
    case _ => s
  }

  /** The slot survives a pass: its block is busy, or something below it survives. */
  ghost predicate StaysLow(fs: Fs, ino: nat, s: Slot, busy: set<nat>)
    requires Shape(fs) && ino < |fs.inode| && ValidSlot(s)
  {
    Ptr(fs, ino, s) != 0 && Ptr(fs, ino, s) in busy
  }

  ghost predicate StaysMid(fs: Fs, ino: nat, s: Slot, busy: set<nat>)
    requires Shape(fs) && ino < |fs.inode| && ValidSlot(s)
  {
    Ptr(fs, ino, s) != 0 &&
    (Ptr(fs, ino, s) in busy || exists i: nat ::
        i < ZONES_PER_BLOCK && ValidSlot(Child(s, i)) && StaysLow(fs, ino, Child(s, i), busy))
  }

  ghost predicate StaysTop(fs: Fs, ino: nat, s: Slot, busy: set<nat>)
    requires Shape(fs) && ino < |fs.inode| && ValidSlot(s)
  {
    Ptr(fs, ino, s) != 0 &&
    (Ptr(fs, ino, s) in busy || exists i: nat ::
        i < ZONES_PER_BLOCK && ValidSlot(Child(s, i)) && StaysMid(fs, ino, Child(s, i), busy))
  }

  ghost predicate Stays(fs: Fs, ino: nat, s: Slot, busy: set<nat>)
    requires Shape(fs) && ino < |fs.inode| && ValidSlot(s)
  {
    match s
    case Zone(n) => if n == 7 then StaysMid(fs, ino, s, busy) else if n == 8 then StaysTop(fs, ino, s, busy)
        else StaysLow(fs, ino, s, busy)
    case Ind(k) => StaysLow(fs, ino, s, busy)
    case Dind(k) => StaysMid(fs, ino, s, busy)
    case Leaf(k, l) => StaysLow(fs, ino, s, busy)
  }

  /** `fs'` is `fs` with exactly the slots in `gone` of file `ino` emptied and exactly their blocks freed. */
  ghost predicate Trimmed(fs: Fs, ino: nat, gone: iset<Slot>, fs': Fs, own: Owners) {
    true == (
      && Shape(fs) && Shape(fs') && ino < |fs.inode| == |fs'.inode| && Owned(fs, own)
      && fs'.first == fs.first && fs'.zones == fs.zones && fs'.data == fs.data
      && (forall i: nat :: i < |fs.inode| ==> fs'.inode[i].size == fs.inode[i].size)
      && Inv(fs', Rest(own, ino, gone))
      && (forall i: nat, t: Slot {:trigger Ptr(fs', i, t)} :: i < |fs.inode| && ValidSlot(t) ==>
            Ptr(fs', i, t) == if i == ino && t in gone then 0 else Ptr(fs, i, t))
      && (forall b {:trigger Bit(fs', b)} :: fs.first <= b < fs.zones ==>
          Bit(fs', b) == (Bit(fs, b) && !Freed(own, ino, gone, b))))
  }

  ghost predicate Freed(own: Owners, ino: nat, gone: iset<Slot>, b: nat) {
    b in own && own[b].0 == ino && own[b].1 in gone
  }

  ghost function Rest(own: Owners, ino: nat, gone: iset<Slot>): Owners {
    map b | b in own && !Freed(own, ino, gone, b) :: own[b]
  }

  lemma TrimNothing(fs: Fs, own: Owners, ino: nat)
    requires Inv(fs, own) && ino < |fs.inode|
    ensures Trimmed(fs, ino, iset{}, fs, own)
  {
    assert Rest(own, ino, iset{}) == own;
  }

  lemma TrimTwice(fs: Fs, own: Owners, ino: nat, a: iset<Slot>, fs1: Fs, b: iset<Slot>, fs2: Fs)
    requires Trimmed(fs, ino, a, fs1, own) && Trimmed(fs1, ino, b, fs2, Rest(own, ino, a))
    ensures Trimmed(fs, ino, a + b, fs2, own)
  {
    hide Ptr, Inv;
    assert Rest(Rest(own, ino, a), ino, b) == Rest(own, ino, a + b);
  }

  lemma FreeSlotPtr(fs: Fs, own: Owners, ino: nat, s: Slot, fs1: Fs)
    requires Inv(fs, own) && Shape(fs1) && fs1 == fs.(bits := fs1.bits, fault := fs1.fault) && ino < |fs.inode|
        && ValidSlot(s)
    requires Ptr(fs, ino, s) != 0 && Bare(fs, ino, s)
    ensures forall i: nat, t: Slot {:trigger Ptr(SetPtr(fs1, ino, s, 0), i, t)} :: i < |fs.inode| && ValidSlot(t) ==>
              Ptr(SetPtr(fs1, ino, s, 0), i, t) == if i == ino && t == s then 0 else Ptr(fs, i, t)
  {
    forall i: nat, t: Slot | i < |fs.inode| && ValidSlot(t)
      ensures Ptr(fs1, i, t) == Ptr(fs, i, t)
    {
    }
    forall i: nat, t: Slot | i < |fs.inode| && ValidSlot(t)
      ensures Ptr(SetPtr(fs1, ino, s, 0), i, t) == if i == ino && t == s then 0 else Ptr(fs, i, t)
    {
      SetPtrPtr(fs1, own, ino, s, 0, i, t);
    }
  }

  /** Emptied slots, everything else in place: the invariant of what is left. */
  lemma FreeSlotInv(fs: Fs, own: Owners, ino: nat, s: Slot, fs': Fs)
    requires Inv(fs, own) && Shape(fs') && ino < |fs.inode| == |fs'.inode| && ValidSlot(s) && Ptr(fs, ino, s) != 0
    requires fs'.first == fs.first && fs'.zones == fs.zones && fs'.data == fs.data && !fs'.fault
    requires forall i: nat :: i < |fs.inode| ==> fs'.inode[i].size == fs.inode[i].size
    requires fs'.bits == fs.bits[Ptr(fs, ino, s) - fs.first + 1 := false]
    requires forall i: nat, t: Slot {:trigger Ptr(fs', i, t)} :: i < |fs.inode| && ValidSlot(t) ==>
               Ptr(fs', i, t) == if i == ino && t == s then 0 else Ptr(fs, i, t)
    ensures Inv(fs', Rest(own, ino, iset{s}))
  {
    hide Ptr;
    var own' := Rest(own, ino, iset{s});
    forall i: nat, t: Slot | i < |fs'.inode| && ValidSlot(t) && Ptr(fs', i, t) != 0
      ensures Ptr(fs', i, t) in own' && own'[Ptr(fs', i, t)] == (i, t)
    {
      assert Ptr(fs, i, t) in own;
    }
    forall i: nat, lb: nat, o: nat | i < |fs.inode| && lb < MAX_BLOCKS && o < BLOCK_SIZE
        && fs'.inode[i].size <= 1024 * lb + o
      ensures ByteAt(fs', i, lb, o) == 0
    {
      assert ByteAt(fs, i, lb, o) == 0;
    }
  }

  /** Freeing the block of one slot with nothing below it. */
  lemma FreeSlot(fs: Fs, own: Owners, ino: nat, s: Slot, busy: set<nat>)
    requires Inv(fs, own) && ino < |fs.inode| && ValidSlot(s) && Ptr(fs, ino, s) != 0 && Bare(fs, ino, s)
    ensures var (fs1, ok) := FreeBlock(fs, Ptr(fs, ino, s), busy);
            && ok == (Ptr(fs, ino, s) !in busy)
            && (!ok ==> fs1 == fs)
            && (ok ==> Trimmed(fs, ino, iset{s}, SetPtr(fs1, ino, s, 0), own))
  {
    var b := Ptr(fs, ino, s);
    assert b in own && own[b] == (ino, s);
    var (fs1, ok) := FreeBlock(fs, b, busy);
    if !ok {
      return;
    }
    var fs' := SetPtr(fs1, ino, s, 0);
    FreeSlotPtr(fs, own, ino, s, fs1);
    hide Ptr;
    FreeSlotInv(fs, own, ino, s, fs');
  }

  // ---------------------------------------------- what each loop takes away

  /** The slots kept in the block of `s`, from number `i` on. */
  ghost function Entries(s: Slot, i: nat): iset<Slot> {
    iset t: Slot | ValidSlot(t) && Parent(t) == s && t != s && Key(t) >= i
  }

  ghost function Zones(i: nat): iset<Slot> {
    iset t: Slot | t.Zone? && i <= t.n < 7
  }

  /** The entries of the double indirect block from number `i` on, and all below them. */
  ghost function Deep(i: nat): iset<Slot> {
    iset t: Slot | ValidSlot(t) && ((t.Dind? && t.k >= i) || (t.Leaf? && t.k >= i))
  }

  /** The slots of a region that do not survive. */
  ghost function Gone(fs: Fs, ino: nat, busy: set<nat>, region: iset<Slot>): iset<Slot>
    requires Shape(fs) && ino < |fs.inode|
  {
    iset t: Slot | t in region && ValidSlot(t) && Ptr(fs, ino, t) != 0 && !Stays(fs, ino, t, busy)
  }

  /** Survival looks only at a slot and what is below it. */
  lemma StaysSame(fs: Fs, own: Owners, ino: nat, gone: iset<Slot>, fs1: Fs, t: Slot, busy: set<nat>)
    requires Trimmed(fs, ino, gone, fs1, own) && ValidSlot(t) && t !in gone
    requires forall c: Slot :: ValidSlot(c) && (Parent(c) == t || Parent(Parent(c)) == t) ==> c !in gone
    ensures Ptr(fs1, ino, t) == Ptr(fs, ino, t) && Stays(fs1, ino, t, busy) == Stays(fs, ino, t, busy)
  {
    if t == Zone(8) {
      forall i: nat | i < ZONES_PER_BLOCK
        ensures StaysMid(fs1, ino, Dind(i), busy) == StaysMid(fs, ino, Dind(i), busy)
      {
        StaysMidSame(fs, own, ino, gone, fs1, Dind(i), busy);
      }
    } else if t == Zone(7) || t.Dind? {
      StaysMidSame(fs, own, ino, gone, fs1, t, busy);
    }
  }

  lemma StaysMidSame(fs: Fs, own: Owners, ino: nat, gone: iset<Slot>, fs1: Fs, t: Slot, busy: set<nat>)
    requires Trimmed(fs, ino, gone, fs1, own) && ValidSlot(t) && t !in gone && (t == Zone(7) || t.Dind?)
    requires forall c: Slot :: ValidSlot(c) && Parent(c) == t ==> c !in gone
    ensures StaysMid(fs1, ino, t, busy) == StaysMid(fs, ino, t, busy)
  {
    hide Ptr;
    forall i: nat | i < ZONES_PER_BLOCK
      ensures StaysLow(fs1, ino, Child(t, i), busy) == StaysLow(fs, ino, Child(t, i), busy)
    {
      assert ValidSlot(Child(t, i)) && Parent(Child(t, i)) == t;
    }
  }

  // ------------------------------------------------------------- loop by loop

  predicate IsIndex(s: Slot) {
    s == Zone(7) || s == Zone(8) || (s.Dind? && ValidSlot(s))
  }

  /** The part of a file below entry `i` of an index slot, that entry included. */
  ghost function Sub(s: Slot, i: nat): iset<Slot> {
    iset t: Slot | ValidSlot(t) && (t == Child(s, i) || (s == Zone(8) && Parent(t) == Child(s, i)))
  }

  /** The part of a file below the entries of an index slot from number `i` on. */
  ghost function Region(s: Slot, i: nat): iset<Slot> {
    if s == Zone(8) then Deep(i) else Entries(s, i)
  }

  lemma RegionStep(s: Slot, i: nat)
    requires IsIndex(s) && i < ZONES_PER_BLOCK
    ensures Region(s, i) == Sub(s, i) + Region(s, i + 1) && Sub(s, i) !! Region(s, i + 1)
    ensures ValidSlot(Child(s, i)) && Parent(Child(s, i)) == s && Child(s, i) in Sub(s, i)
  {
  }

  lemma RegionEnd(s: Slot)
    requires IsIndex(s)
    ensures Region(s, ZONES_PER_BLOCK) == iset{}
  {
  }

  /** What the loop over an index block has done from entry `i` on. */
  ghost predicate LoopDone(fs: Fs, own: Owners, ino: nat, s: Slot, i: nat, busy: set<nat>, fs': Fs, flag: bool) {
    true == (
      && Shape(fs) && ino < |fs.inode| && IsIndex(s)
      && Trimmed(fs, ino, Gone(fs, ino, busy, Region(s, i)), fs', own)
      && flag == exists j: nat ::
          i <= j < ZONES_PER_BLOCK && ValidSlot(Child(s, j)) && Stays(fs, ino, Child(s, j), busy))
  }

  /** `t` and everything below it lie outside the region. */
  ghost predicate Outside(t: Slot, region: iset<Slot>) {
    t !in region && forall c: Slot :: ValidSlot(c) && (Parent(c) == t || Parent(Parent(c)) == t) ==> c !in region
  }

  /** Two regions done one after the other, the second one not disturbed by the first. */
  lemma TrimRegions(fs: Fs, own: Owners, ino: nat, busy: set<nat>, r1: iset<Slot>, fs1: Fs, r2: iset<Slot>, fs2: Fs)
    requires Shape(fs) && ino < |fs.inode| && Trimmed(fs, ino, Gone(fs, ino, busy, r1), fs1, own)
    requires Shape(fs1) && ino < |fs1.inode| && Trimmed(fs1, ino, Gone(fs1, ino, busy, r2), fs2,
        Rest(own, ino, Gone(fs, ino, busy, r1)))
    requires forall t: Slot :: ValidSlot(t) && t in r2 ==> Outside(t, r1)
    ensures Trimmed(fs, ino, Gone(fs, ino, busy, r1 + r2), fs2, own)
    ensures Rest(own, ino, Gone(fs, ino, busy, r1 + r2)) ==
        Rest(Rest(own, ino, Gone(fs, ino, busy, r1)), ino, Gone(fs1, ino, busy, r2))
  {
    var a, b := Gone(fs, ino, busy, r1), Gone(fs1, ino, busy, r2);
    forall t: Slot | ValidSlot(t) && t in r2
      ensures Ptr(fs1, ino, t) == Ptr(fs, ino, t) && Stays(fs1, ino, t, busy) == Stays(fs, ino, t, busy)
    {
      StaysSame(fs, own, ino, a, fs1, t, busy);
    }
    TrimTwice(fs, own, ino, a, fs1, b, fs2);
    hide Ptr, Stays, Trimmed;
    assert a + b == Gone(fs, ino, busy, r1 + r2);
    assert Rest(own, ino, a + b) == Rest(Rest(own, ino, a), ino, b);
  }

  lemma LoopStep(fs: Fs, own: Owners, ino: nat, s: Slot, i: nat, busy: set<nat>, fs1: Fs, fs': Fs, flag: bool)
    requires Shape(fs) && ino < |fs.inode| && IsIndex(s) && i < ZONES_PER_BLOCK && ValidSlot(Child(s, i))
    requires Trimmed(fs, ino, Gone(fs, ino, busy, Sub(s, i)), fs1, own)
    requires LoopDone(fs1, Rest(own, ino, Gone(fs, ino, busy, Sub(s, i))), ino, s, i + 1, busy, fs', flag)
    ensures LoopDone(fs, own, ino, s, i, busy, fs', flag || Stays(fs, ino, Child(s, i), busy))
  {
    RegionStep(s, i);
    forall t: Slot | ValidSlot(t) && t in Region(s, i + 1)
      ensures Outside(t, Sub(s, i))
    {
    }
    TrimRegions(fs, own, ino, busy, Sub(s, i), fs1, Region(s, i + 1), fs');
    forall j: nat | i < j < ZONES_PER_BLOCK && ValidSlot(Child(s, j))
      ensures Stays(fs1, ino, Child(s, j), busy) == Stays(fs, ino, Child(s, j), busy)
    {
      assert Child(s, j) in Region(s, i + 1);
      StaysSame(fs, own, ino, Gone(fs, ino, busy, Sub(s, i)), fs1, Child(s, j), busy);
    }
    hide Stays, Trimmed;
  }

  /** An entry that keeps nothing, or a busy block with nothing below it, is passed over. */
  lemma SkipEntry(fs: Fs, own: Owners, ino: nat, s: Slot, i: nat, busy: set<nat>)
    requires Inv(fs, own) && ino < |fs.inode| && IsIndex(s) && i < ZONES_PER_BLOCK && ValidSlot(Child(s, i))
    requires Ptr(fs, ino, Child(s, i)) == 0 || (s != Zone(8) && Ptr(fs, ino, Child(s, i)) in busy)
    ensures Gone(fs, ino, busy, Sub(s, i)) == iset{} && Trimmed(fs, ino, Gone(fs, ino, busy, Sub(s, i)), fs, own)
    ensures Rest(own, ino, Gone(fs, ino, busy, Sub(s, i))) == own
    ensures Stays(fs, ino, Child(s, i), busy) == (Ptr(fs, ino, Child(s, i)) != 0)
  {
    TrimNothing(fs, own, ino);
    assert Gone(fs, ino, busy, Sub(s, i)) == iset{};
  }

  lemma {:induction false} FreeEntriesInv(fs: Fs, own: Owners, ino: nat, s: Slot, i: nat, busy: set<nat>)
    requires Inv(fs, own) && ino < |fs.inode| && IsIndex(s) && s != Zone(8) && Ptr(fs, ino, s) != 0
        && i <= ZONES_PER_BLOCK
    ensures var (fs', flag) := FreeEntries(fs, Ptr(fs, ino, s), i, busy);
            LoopDone(fs, own, ino, s, i, busy, fs', flag)
    decreases ZONES_PER_BLOCK - i
  {
    hide LoopDone, Owned, Marked, ZeroTails, Stays;
    var h := Ptr(fs, ino, s);
    if i == ZONES_PER_BLOCK {
      LoopEnd(fs, own, ino, s, busy);
      return;
    }
    RegionStep(s, i);
    var c := Child(s, i);
    var e := Ptr(fs, ino, c);
    assert e == fs.index[h][i];
    if e == 0 || e in busy {
      SkipEntry(fs, own, ino, s, i, busy);
      FreeEntriesInv(fs, own, ino, s, i + 1, busy);
      LoopStep(fs, own, ino, s, i, busy, fs, FreeEntries(fs, h, i + 1, busy).0, FreeEntries(fs, h, i + 1, busy).1);
      if e != 0 {
        FreeSlot(fs, own, ino, c, busy);
      }
      return;
    }
    TakeLow(fs, own, ino, s, i, busy);
    var fs1 := FreeBlock(fs, e, busy).0;
    var fs2 := SetPtr(fs1, ino, c, 0);
    assert fs2 == SetEntry(fs1, h, i, 0) && Ptr(fs2, ino, s) == h;
    FreeEntriesInv(fs2, Rest(own, ino, Gone(fs, ino, busy, Sub(s, i))), ino, s, i + 1, busy);
    LoopStep(fs, own, ino, s, i, busy, fs2, FreeEntries(fs2, h, i + 1, busy).0, FreeEntries(fs2, h, i + 1, busy).1);
  }

  lemma LoopEnd(fs: Fs, own: Owners, ino: nat, s: Slot, busy: set<nat>)
    requires Inv(fs, own) && ino < |fs.inode| && IsIndex(s)
    ensures LoopDone(fs, own, ino, s, ZONES_PER_BLOCK, busy, fs, false)
  {
    RegionEnd(s);
    TrimNothing(fs, own, ino);
    assert Gone(fs, ino, busy, Region(s, ZONES_PER_BLOCK)) == iset{};
  }

  /** An idle block at the lowest level is freed and its entry cleared. */
  lemma TakeLow(fs: Fs, own: Owners, ino: nat, s: Slot, i: nat, busy: set<nat>)
    requires Inv(fs, own) && ino < |fs.inode| && IsIndex(s) && s != Zone(8) && i < ZONES_PER_BLOCK
        && ValidSlot(Child(s, i))
    requires Ptr(fs, ino, Child(s, i)) != 0 && Ptr(fs, ino, Child(s, i)) !in busy
    ensures var (fs1, ok) := FreeBlock(fs, Ptr(fs, ino, Child(s, i)), busy);
            var fs2 := SetPtr(fs1, ino, Child(s, i), 0);
            && ok && !Stays(fs, ino, Child(s, i), busy)
            && Trimmed(fs, ino, Gone(fs, ino, busy, Sub(s, i)), fs2, own)
            && Inv(fs2, Rest(own, ino, Gone(fs, ino, busy, Sub(s, i))))
  {
    var c := Child(s, i);
    assert Bare(fs, ino, c);
    FreeSlot(fs, own, ino, c, busy);
    assert Gone(fs, ino, busy, Sub(s, i)) == iset{c};
  }

  /** An index slot with all that is below it. */
  ghost function Tree(s: Slot): iset<Slot> {
    iset{s} + Region(s, 0)
  }

  /** After its loop: the index block itself is freed unless it is busy or holds something busy. */
  lemma AfterLoop(fs: Fs, own: Owners, ino: nat, s: Slot, busy: set<nat>, fs1: Fs, flag: bool)
    requires Inv(fs, own) && ino < |fs.inode| && IsIndex(s) && Ptr(fs, ino, s) != 0
    requires LoopDone(fs, own, ino, s, 0, busy, fs1, flag)
    ensures var (fs2, ok) := if flag then (fs1, false) else FreeBlock(fs1, Ptr(fs, ino, s), busy);
            && ok == !Stays(fs, ino, s, busy)
            && Trimmed(fs, ino, Gone(fs, ino, busy, Tree(s)), if ok then SetPtr(fs2, ino, s, 0) else fs2, own)
  {
    var z := Ptr(fs, ino, s);
    if flag || z in busy {
      AfterBusy(fs, own, ino, s, busy, fs1, flag);
    } else {
      AfterFree(fs, own, ino, s, busy, fs1);
    }
  }

  lemma AfterBusy(fs: Fs, own: Owners, ino: nat, s: Slot, busy: set<nat>, fs1: Fs, flag: bool)
    requires Inv(fs, own) && ino < |fs.inode| && IsIndex(s) && Ptr(fs, ino, s) != 0
    requires LoopDone(fs, own, ino, s, 0, busy, fs1, flag) && (flag || Ptr(fs, ino, s) in busy)
    ensures Stays(fs, ino, s, busy) && fs1.first <= Ptr(fs, ino, s) < fs1.zones
    ensures Trimmed(fs, ino, Gone(fs, ino, busy, Tree(s)), fs1, own)
  {
    assert Stays(fs, ino, s, busy);
    hide Stays;
    assert Gone(fs, ino, busy, Tree(s)) == Gone(fs, ino, busy, Region(s, 0));
    assert Ptr(fs, ino, s) in own;
  }

  lemma AfterFree(fs: Fs, own: Owners, ino: nat, s: Slot, busy: set<nat>, fs1: Fs)
    requires Inv(fs, own) && ino < |fs.inode| && IsIndex(s) && Ptr(fs, ino, s) != 0
    requires LoopDone(fs, own, ino, s, 0, busy, fs1, false) && Ptr(fs, ino, s) !in busy
    ensures Shape(fs1) && ino < |fs1.inode| && !Stays(fs, ino, s, busy)
    ensures var (fs2, ok) := FreeBlock(fs1, Ptr(fs, ino, s), busy);
            ok && Trimmed(fs, ino, Gone(fs, ino, busy, Tree(s)), SetPtr(fs2, ino, s, 0), own)
  {
    var gone := Gone(fs, ino, busy, Region(s, 0));
    assert !Stays(fs, ino, s, busy);
    hide Stays;
    assert s !in Region(s, 0);
    AllGone(fs, own, ino, s, busy, fs1);
    assert Inv(fs1, Rest(own, ino, gone)) && Ptr(fs1, ino, s) == Ptr(fs, ino, s);
    assert Gone(fs, ino, busy, Tree(s)) == gone + iset{s};
    hide Trimmed, Ptr, Inv;
    FreeSlot(fs1, Rest(own, ino, gone), ino, s, busy);
    TrimTwice(fs, own, ino, gone, fs1, iset{s}, SetPtr(FreeBlock(fs1, Ptr(fs, ino, s), busy).0, ino, s, 0));
  }

  /** When no entry stays, the index block is empty after its loop. */
  lemma AllGone(fs: Fs, own: Owners, ino: nat, s: Slot, busy: set<nat>, fs1: Fs)
    requires Shape(fs) && ino < |fs.inode| && IsIndex(s) && LoopDone(fs, own, ino, s, 0, busy, fs1, false)
    ensures Shape(fs1) && ino < |fs1.inode| && Bare(fs1, ino, s)
  {
    hide Ptr;
    forall c: Slot | ValidSlot(c) && Parent(c) == s && c != s
      ensures Ptr(fs1, ino, c) == 0
    {
      assert c == Child(s, Key(c)) && c in Region(s, 0) && Key(c) < ZONES_PER_BLOCK;
    }
  }

  lemma FreeIndInv(fs: Fs, own: Owners, ino: nat, s: Slot, busy: set<nat>)
    requires Inv(fs, own) && ino < |fs.inode| && IsIndex(s) && s != Zone(8) && Ptr(fs, ino, s) != 0
    ensures var (fs1, ok) := FreeInd(fs, Ptr(fs, ino, s), busy);
            && ok == !Stays(fs, ino, s, busy)
            && Trimmed(fs, ino, Gone(fs, ino, busy, Tree(s)), if ok then SetPtr(fs1, ino, s, 0) else fs1, own)
  {
    FreeEntriesInv(fs, own, ino, s, 0, busy);
    var (fs1, flag) := FreeEntries(fs, Ptr(fs, ino, s), 0, busy);
    AfterLoop(fs, own, ino, s, busy, fs1, flag);
  }

  lemma {:induction false} FreeIndEntriesInv(fs: Fs, own: Owners, ino: nat, i: nat, busy: set<nat>)
    requires Inv(fs, own) && ino < |fs.inode| && Ptr(fs, ino, Zone(8)) != 0 && i <= ZONES_PER_BLOCK
    ensures var (fs', flag) := FreeIndEntries(fs, Ptr(fs, ino, Zone(8)), i, busy);
            LoopDone(fs, own, ino, Zone(8), i, busy, fs', flag)
    decreases ZONES_PER_BLOCK - i
  {
    hide LoopDone, Owned, Marked, ZeroTails, Stays;
    var s, h := Zone(8), Ptr(fs, ino, Zone(8));
    if i == ZONES_PER_BLOCK {
      LoopEnd(fs, own, ino, s, busy);
      return;
    }
    RegionStep(s, i);
    var c := Dind(i);
    var e := Ptr(fs, ino, c);
    assert e == fs.index[h][i] && c == Child(s, i);
    if e == 0 {
      SkipEntry(fs, own, ino, s, i, busy);
      FreeIndEntriesInv(fs, own, ino, i + 1, busy);
      LoopStep(fs, own, ino, s, i, busy, fs, FreeIndEntries(fs, h, i + 1, busy).0,
          FreeIndEntries(fs, h, i + 1, busy).1);
      return;
    }
    TakeMid(fs, own, ino, i, busy);
    hide Trimmed;
    var (fs1, ok) := FreeInd(fs, e, busy);
    var fs2 := if ok then SetEntry(fs1, h, i, 0) else fs1;
    FreeIndEntriesInv(fs2, Rest(own, ino, Gone(fs, ino, busy, Sub(s, i))), ino, i + 1, busy);
    LoopStep(fs, own, ino, s, i, busy, fs2, FreeIndEntries(fs2, h, i + 1, busy).0,
        FreeIndEntries(fs2, h, i + 1, busy).1);
  }

  /** One entry of the double indirect block: its tree is trimmed, and the entry cleared if nothing stays. */
  lemma TakeMid(fs: Fs, own: Owners, ino: nat, i: nat, busy: set<nat>)
    requires Inv(fs, own) && ino < |fs.inode| && i < ZONES_PER_BLOCK && Ptr(fs, ino, Dind(i)) != 0
    ensures var h := Ptr(fs, ino, Zone(8));
            var (fs1, ok) := FreeInd(fs, Ptr(fs, ino, Dind(i)), busy);
            var fs2 := if ok then SetEntry(fs1, h, i, 0) else fs1;
            var gone := Gone(fs, ino, busy, Sub(Zone(8), i));
            && h != 0 && fs.index[h][i] == Ptr(fs, ino, Dind(i)) && Child(Zone(8), i) == Dind(i)
            && ok == !Stays(fs, ino, Dind(i), busy)
            && Trimmed(fs, ino, gone, fs2, own) && Inv(fs2, Rest(own, ino, gone))
            && |fs2.inode| == |fs.inode| && Ptr(fs2, ino, Zone(8)) == h
  {
    hide Stays, Gone, Owned, Marked, ZeroTails, FreeInd, Trimmed;
    FreeIndInv(fs, own, ino, Dind(i), busy);
    assert Tree(Dind(i)) == Sub(Zone(8), i);
    var (fs1, ok) := FreeInd(fs, Ptr(fs, ino, Dind(i)), busy);
    SetMid(fs, fs1, ino, i);
    TrimmedInv(fs, own, ino, Gone(fs, ino, busy, Sub(Zone(8), i)), if ok then SetPtr(fs1, ino, Dind(i), 0) else fs1);
  }

  lemma SetMid(fs: Fs, fs1: Fs, ino: nat, i: nat)
    requires Shape(fs) && Shape(fs1) && ino < |fs.inode| && i < ZONES_PER_BLOCK && Ptr(fs, ino, Dind(i)) != 0
    requires fs1.inode == fs.inode && fs1.zones == fs.zones
    ensures var h := Ptr(fs, ino, Zone(8));
            && h != 0 && SetPtr(fs1, ino, Dind(i), 0) == SetEntry(fs1, h, i, 0)
            && Ptr(fs1, ino, Zone(8)) == h && Ptr(SetEntry(fs1, h, i, 0), ino, Zone(8)) == h
  {
  }

  lemma TrimmedInv(fs: Fs, own: Owners, ino: nat, gone: iset<Slot>, fs': Fs)
    requires Trimmed(fs, ino, gone, fs', own)
    ensures Inv(fs', Rest(own, ino, gone)) && |fs'.inode| == |fs.inode|
  {
  }

  lemma FreeDindInv(fs: Fs, own: Owners, ino: nat, busy: set<nat>)
    requires Inv(fs, own) && ino < |fs.inode| && Ptr(fs, ino, Zone(8)) != 0
    ensures var (fs1, ok) := FreeDind(fs, Ptr(fs, ino, Zone(8)), busy);
            && ok == !Stays(fs, ino, Zone(8), busy)
            && Trimmed(fs, ino, Gone(fs, ino, busy, Tree(Zone(8))), if ok then SetPtr(fs1, ino, Zone(8), 0)
                else fs1, own)
  {
    FreeIndEntriesInv(fs, own, ino, 0, busy);
    var (fs1, flag) := FreeIndEntries(fs, Ptr(fs, ino, Zone(8)), 0, busy);
    AfterLoop(fs, own, ino, Zone(8), busy, fs1, flag);
  }

  // ---------------------------------------------------------------- a pass

  lemma ZonesStep(i: nat)
    requires i < 7
    ensures Zones(i) == iset{Zone(i)} + Zones(i + 1)
    ensures forall t: Slot :: ValidSlot(t) && t in Zones(i + 1) ==> Outside(t, iset{Zone(i)})
  {
    forall t: Slot | ValidSlot(t) && t in Zones(i + 1)
      ensures Outside(t, iset{Zone(i)})
    {
    }
  }

  ghost predicate ZonesDone(fs: Fs, own: Owners, ino: nat, i: nat, busy: set<nat>, fs': Fs, flag: bool) {
    true == (
      && Shape(fs) && ino < |fs.inode|
      && Trimmed(fs, ino, Gone(fs, ino, busy, Zones(i)), fs', own)
      && flag == exists j: nat :: i <= j < 7 && Stays(fs, ino, Zone(j), busy))
  }

  lemma ZonesDoneStep(fs: Fs, own: Owners, ino: nat, i: nat, busy: set<nat>, fs1: Fs, fs': Fs, flag: bool)
    requires Shape(fs) && ino < |fs.inode| && i < 7 && Trimmed(fs, ino, Gone(fs, ino, busy, iset{Zone(i)}), fs1, own)
    requires ZonesDone(fs1, Rest(own, ino, Gone(fs, ino, busy, iset{Zone(i)})), ino, i + 1, busy, fs', flag)
    ensures ZonesDone(fs, own, ino, i, busy, fs', flag || Stays(fs, ino, Zone(i), busy))
  {
    ZonesStep(i);
    TrimRegions(fs, own, ino, busy, iset{Zone(i)}, fs1, Zones(i + 1), fs');
    forall j: nat | i < j < 7
      ensures Stays(fs1, ino, Zone(j), busy) == Stays(fs, ino, Zone(j), busy)
    {
      assert Zone(j) in Zones(i + 1);
      StaysSame(fs, own, ino, Gone(fs, ino, busy, iset{Zone(i)}), fs1, Zone(j), busy);
    }
    hide Stays, Trimmed;
  }

  /** One direct zone. */
  lemma TakeZone(fs: Fs, own: Owners, ino: nat, i: nat, busy: set<nat>)
    requires Inv(fs, own) && ino < |fs.inode| && i < 7
    ensures var e := Ptr(fs, ino, Zone(i));
            var (fs1, ok) := FreeBlock(fs, e, busy);
            var fs2 := if e != 0 && ok then SetPtr(fs1, ino, Zone(i), 0) else fs;
            var gone := Gone(fs, ino, busy, iset{Zone(i)});
            && (e != 0 && !ok ==> fs1 == fs)
            && Trimmed(fs, ino, gone, fs2, own) && Inv(fs2, Rest(own, ino, gone)) && |fs2.inode| == |fs.inode|
            && Stays(fs, ino, Zone(i), busy) == (e != 0 && !ok)
  {
    var e := Ptr(fs, ino, Zone(i));
    TrimNothing(fs, own, ino);
    if e != 0 {
      FreeSlot(fs, own, ino, Zone(i), busy);
    }
    assert Gone(fs, ino, busy, iset{Zone(i)}) == if e != 0 && e !in busy then iset{Zone(i)} else iset{};
  }

  lemma {:induction false} FreeZonesInv(fs: Fs, own: Owners, ino: nat, i: nat, busy: set<nat>)
    requires Inv(fs, own) && ino < |fs.inode| && i <= 7
    ensures var (fs', flag) := FreeZones(fs, ino, i, busy);
            ZonesDone(fs, own, ino, i, busy, fs', flag)
    decreases 7 - i
  {
    if i == 7 {
      TrimNothing(fs, own, ino);
      assert Gone(fs, ino, busy, Zones(i)) == iset{};
      return;
    }
    hide ZonesDone, Owned, Marked, ZeroTails, Stays, Trimmed;
    TakeZone(fs, own, ino, i, busy);
    var e := Ptr(fs, ino, Zone(i));
    var (fs1, ok) := FreeBlock(fs, e, busy);
    var fs2 := if e != 0 && ok then SetPtr(fs1, ino, Zone(i), 0) else fs;
    FreeZonesInv(fs2, Rest(own, ino, Gone(fs, ino, busy, iset{Zone(i)})), ino, i + 1, busy);
    var (fs', flag) := FreeZones(fs2, ino, i + 1, busy);
    ZonesDoneStep(fs, own, ino, i, busy, fs2, fs', flag);
  }

  /** free_ind or free_dind on the inode's own index slot, whether or not it keeps a block. */
  lemma TakeTree(fs: Fs, own: Owners, ino: nat, n: nat, busy: set<nat>)
    requires Inv(fs, own) && ino < |fs.inode| && (n == 7 || n == 8)
    ensures var z := fs.inode[ino].zone[n];
            var (fs1, ok) := if n == 7 then FreeInd(fs, z, busy) else FreeDind(fs, z, busy);
            var fs2 := if ok then SetPtr(fs1, ino, Zone(n), 0) else fs1;
            var gone := Gone(fs, ino, busy, Tree(Zone(n)));
            && ok == !Stays(fs, ino, Zone(n), busy)
            && Trimmed(fs, ino, gone, fs2, own) && Inv(fs2, Rest(own, ino, gone)) && |fs2.inode| == |fs.inode|
  {
    if fs.inode[ino].zone[n] == 0 {
      EmptyTree(fs, own, ino, n, busy);
      return;
    }
    hide Trimmed, Stays, Gone, FreeInd, FreeDind;
    assert Ptr(fs, ino, Zone(n)) == fs.inode[ino].zone[n];
    if n == 7 {
      FreeIndInv(fs, own, ino, Zone(7), busy);
      var (fs1, ok) := FreeInd(fs, fs.inode[ino].zone[7], busy);
      TrimmedInv(fs, own, ino, Gone(fs, ino, busy, Tree(Zone(7))), if ok then SetPtr(fs1, ino, Zone(7), 0) else fs1);
    } else {
      FreeDindInv(fs, own, ino, busy);
      var (fs1, ok) := FreeDind(fs, fs.inode[ino].zone[8], busy);
      TrimmedInv(fs, own, ino, Gone(fs, ino, busy, Tree(Zone(8))), if ok then SetPtr(fs1, ino, Zone(8), 0) else fs1);
    }
  }

  lemma EmptyTree(fs: Fs, own: Owners, ino: nat, n: nat, busy: set<nat>)
    requires Inv(fs, own) && ino < |fs.inode| && (n == 7 || n == 8) && fs.inode[ino].zone[n] == 0
    ensures SetPtr(fs, ino, Zone(n), 0) == fs && !Stays(fs, ino, Zone(n), busy)
    ensures Gone(fs, ino, busy, Tree(Zone(n))) == iset{} && Rest(own, ino, Gone(fs, ino, busy, Tree(Zone(n)))) == own
    ensures Trimmed(fs, ino, Gone(fs, ino, busy, Tree(Zone(n))), fs, own)
  {
    var node := fs.inode[ino];
    assert node.zone[n := 0] == node.zone;
    assert fs.inode[ino := node] == fs.inode;
    TrimNothing(fs, own, ino);
    forall t: Slot | ValidSlot(t) && t in Tree(Zone(n))
      ensures Ptr(fs, ino, t) == 0
    {
    }
    assert Gone(fs, ino, busy, Tree(Zone(n))) == iset{};
  }

  /** What one pass does to file `ino`: exactly the slots that do not survive are emptied. */
  ghost predicate PassDone(fs: Fs, own: Owners, ino: nat, busy: set<nat>, fs': Fs, again: bool) {
    true == (
      && Shape(fs) && ino < |fs.inode|
      && Trimmed(fs, ino, Gone(fs, ino, busy, iset t: Slot | ValidSlot(t)), fs', own)
      && again == exists n: nat :: n < 9 && Stays(fs, ino, Zone(n), busy))
  }

  lemma AllSlots()
    ensures Zones(0) + Tree(Zone(7)) + Tree(Zone(8)) == iset t: Slot | ValidSlot(t)
    ensures forall t: Slot :: ValidSlot(t) && t in Tree(Zone(7)) ==> Outside(t, Zones(0))
    ensures forall t: Slot :: ValidSlot(t) && t in Tree(Zone(8)) ==> Outside(t, Zones(0) + Tree(Zone(7)))
  {
    forall t: Slot | ValidSlot(t)
      ensures t in Zones(0) + Tree(Zone(7)) + Tree(Zone(8))
    {
      match t {
        case Zone(n) =>
        case Ind(k) =>
        case Dind(k) =>
        case Leaf(k, l) =>
      }
    }
    forall t: Slot | ValidSlot(t) && t in Tree(Zone(7))
      ensures Outside(t, Zones(0))
    {
    }
    forall t: Slot | ValidSlot(t) && t in Tree(Zone(8))
      ensures Outside(t, Zones(0) + Tree(Zone(7)))
    {
    }
  }

  lemma PassParts(fs: Fs, own: Owners, ino: nat, busy: set<nat>, fs1: Fs, fs3: Fs, fs5: Fs)
    requires Shape(fs) && ino < |fs.inode| && Trimmed(fs, ino, Gone(fs, ino, busy, Zones(0)), fs1, own)
    requires Shape(fs1) && ino < |fs1.inode|
    requires Trimmed(fs1, ino, Gone(fs1, ino, busy, Tree(Zone(7))), fs3, Rest(own, ino, Gone(fs, ino, busy, Zones(0))))
    requires Shape(fs3) && ino < |fs3.inode|
    requires Trimmed(fs3, ino, Gone(fs3, ino, busy, Tree(Zone(8))), fs5,
        Rest(own, ino, Gone(fs, ino, busy, Zones(0) + Tree(Zone(7)))))
    ensures Trimmed(fs, ino, Gone(fs, ino, busy, iset t: Slot | ValidSlot(t)), fs5, own)
    ensures Stays(fs1, ino, Zone(7), busy) == Stays(fs, ino, Zone(7), busy)
    ensures Stays(fs3, ino, Zone(8), busy) == Stays(fs, ino, Zone(8), busy)
  {
    AllSlots();
    var gone := Gone(fs, ino, busy, Zones(0));
    assert Zone(7) in Tree(Zone(7)) && Zone(8) in Tree(Zone(8));
    TrimRegions(fs, own, ino, busy, Zones(0), fs1, Tree(Zone(7)), fs3);
    StaysSame(fs, own, ino, gone, fs1, Zone(7), busy);
    StaysSame(fs, own, ino, Gone(fs, ino, busy, Zones(0) + Tree(Zone(7))), fs3, Zone(8), busy);
    TrimRegions(fs, own, ino, busy, Zones(0) + Tree(Zone(7)), fs3, Tree(Zone(8)), fs5);
  }

  /** The last line of a finished pass. */
  lemma SetSizeInv(fs: Fs, own: Owners, ino: nat)
    requires Inv(fs, own) && ino < |fs.inode| && forall s: Slot :: ValidSlot(s) ==> Ptr(fs, ino, s) == 0
    ensures var fs' := SetSize(fs, ino, 0);
            && Inv(fs', own)
            && (forall i: nat, t: Slot {:trigger Ptr(fs', i, t)} :: i < |fs.inode| && ValidSlot(t) ==>
                Ptr(fs', i, t) == Ptr(fs, i, t))
  {
    var fs' := SetSize(fs, ino, 0);
    forall i: nat, t: Slot | i < |fs.inode| && ValidSlot(t)
      ensures Ptr(fs', i, t) == Ptr(fs, i, t)
    {
    }
    forall i: nat, lb: nat, o: nat | i < |fs.inode| && lb < MAX_BLOCKS && o < BLOCK_SIZE
        && fs'.inode[i].size <= 1024 * lb + o
      ensures ByteAt(fs', i, lb, o) == 0
    {
      assert i != ino ==> ByteAt(fs, i, lb, o) == 0;
    }
  }

  /** One pass, before the size is touched. */
  function PassBlocks(fs: Fs, ino: nat, busy: set<nat>): (r: (Fs, bool))
    requires Shape(fs) && ino < |fs.inode|
    ensures Shape(r.0) && |r.0.inode| == |fs.inode|
    ensures Pass(fs, ino, busy) == (if r.1 then r.0 else SetSize(r.0, ino, 0), r.1)
  {
    var (fs1, busy1) := FreeZones(fs, ino, 0, busy);
    var (fs2, ok2) := FreeInd(fs1, fs1.inode[ino].zone[7], busy);
    var fs3 := if ok2 then SetPtr(fs2, ino, Zone(7), 0) else fs2;
    var (fs4, ok4) := FreeDind(fs3, fs3.inode[ino].zone[8], busy);
    var fs5 := if ok4 then SetPtr(fs4, ino, Zone(8), 0) else fs4;
    (fs5, busy1 || !ok2 || !ok4)
  }

  /** The direct zones and the single indirect tree. */
  lemma FirstParts(fs: Fs, own: Owners, ino: nat, busy: set<nat>)
    requires Inv(fs, own) && ino < |fs.inode|
    ensures var (fs1, busy1) := FreeZones(fs, ino, 0, busy);
            var (fs2, ok2) := FreeInd(fs1, fs1.inode[ino].zone[7], busy);
            var fs3 := if ok2 then SetPtr(fs2, ino, Zone(7), 0) else fs2;
            && ZonesDone(fs, own, ino, 0, busy, fs1, busy1)
            && ok2 == !Stays(fs1, ino, Zone(7), busy)
            && Trimmed(fs1, ino, Gone(fs1, ino, busy, Tree(Zone(7))), fs3,
                Rest(own, ino, Gone(fs, ino, busy, Zones(0))))
            && |fs3.inode| == |fs.inode|
            && Inv(fs3, Rest(own, ino, Gone(fs, ino, busy, Zones(0) + Tree(Zone(7)))))
  {
    FreeZonesInv(fs, own, ino, 0, busy);
    var (fs1, busy1) := FreeZones(fs, ino, 0, busy);
    var own1 := Rest(own, ino, Gone(fs, ino, busy, Zones(0)));
    TrimmedInv(fs, own, ino, Gone(fs, ino, busy, Zones(0)), fs1);
    hide Trimmed, Stays, Owned, Marked, ZeroTails, FreeInd, FreeZones;
    TakeTree(fs1, own1, ino, 7, busy);
    var (fs2, ok2) := FreeInd(fs1, fs1.inode[ino].zone[7], busy);
    var fs3 := if ok2 then SetPtr(fs2, ino, Zone(7), 0) else fs2;
    AllSlots();
    hide Gone, Tree, Zones, Rest;
    TrimRegions(fs, own, ino, busy, Zones(0), fs1, Tree(Zone(7)), fs3);
  }

  lemma PassAgain(fs: Fs, own: Owners, ino: nat, busy: set<nat>, fs1: Fs, busy1: bool, fs5: Fs, again: bool)
    requires ZonesDone(fs, own, ino, 0, busy, fs1, busy1)
    requires Shape(fs) && ino < |fs.inode|
    requires Trimmed(fs, ino, Gone(fs, ino, busy, iset t: Slot | ValidSlot(t)), fs5, own)
    requires again == (busy1 || Stays(fs, ino, Zone(7), busy) || Stays(fs, ino, Zone(8), busy))
    ensures PassDone(fs, own, ino, busy, fs5, again)
  {
    hide Trimmed, Stays, Gone;
  }

  lemma PassBlocksInv(fs: Fs, own: Owners, ino: nat, busy: set<nat>)
    requires Inv(fs, own) && ino < |fs.inode|
    ensures var (fs', again) := PassBlocks(fs, ino, busy);
            PassDone(fs, own, ino, busy, fs', again)
  {
    FirstParts(fs, own, ino, busy);
    var (fs1, busy1) := FreeZones(fs, ino, 0, busy);
    var (fs2, ok2) := FreeInd(fs1, fs1.inode[ino].zone[7], busy);
    var fs3 := if ok2 then SetPtr(fs2, ino, Zone(7), 0) else fs2;
    hide Trimmed, Stays, FreeInd, FreeDind, FreeZones, Gone, Tree, Zones, Rest, Owned, Marked, ZeroTails;
    TakeTree(fs3, Rest(own, ino, Gone(fs, ino, busy, Zones(0) + Tree(Zone(7)))), ino, 8, busy);
    var (fs4, ok4) := FreeDind(fs3, fs3.inode[ino].zone[8], busy);
    var fs5 := if ok4 then SetPtr(fs4, ino, Zone(8), 0) else fs4;
    PassParts(fs, own, ino, busy, fs1, fs3, fs5);
    PassAgain(fs, own, ino, busy, fs1, busy1, fs5, busy1 || !ok2 || !ok4);
  }
}

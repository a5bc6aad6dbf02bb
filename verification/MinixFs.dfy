/**
 Zone bitmap, inodes and the three-level block map of the 0.12 Minix file system.

 A zone is seen as 512 block numbers and as 1024 bytes; new_block clears both
 views, and the invariant says that no zone is ever used in both ways at once.
*/
module MinixFs {
  newtype Byte = x: int | 0 <= x < 256

  const ZONES_PER_BLOCK: nat := 512
  const BLOCK_SIZE: nat := 1024
  const MAX_BLOCKS: nat := 0x40207    // 7 + 512 + 512 * 512

  datatype Inode = Inode(zone: seq<nat>, size: nat)

  /** bits[j] is the bitmap bit of zone j + first - 1. `fault` records a bit cleared twice or a panic. */
  datatype Fs = Fs(
    first: nat,            // s_firstdatazone
    zones: nat,            // s_nzones
    bits: seq<bool>,       // the zone bitmap blocks, in order
    index: seq<seq<nat>>,  // zones read as block numbers
    data: seq<seq<Byte>>,  // zones read as bytes
    inode: seq<Inode>,
    fault: bool)

  /** A place where a block number is kept: in the inode, or in an index block below it. */
  datatype Slot = Zone(n: nat) | Ind(k: nat) | Dind(k: nat) | Leaf(k: nat, l: nat)

  predicate ValidSlot(s: Slot) {
    match s
    case Zone(n) => n < 9
    case Ind(k) => k < ZONES_PER_BLOCK
    case Dind(k) => k < ZONES_PER_BLOCK
    case Leaf(k, l) => k < ZONES_PER_BLOCK && l < ZONES_PER_BLOCK
  }

  ghost predicate Shape(fs: Fs) {
    && 1 <= fs.first <= fs.zones
    && |fs.bits| >= 1 && fs.zones - fs.first + 1 <= |fs.bits|
    && |fs.index| == |fs.data| == fs.zones
    && (forall b :: 0 <= b < fs.zones ==> |fs.index[b]| == ZONES_PER_BLOCK)
    && (forall b, k {:trigger fs.index[b][k]} :: 0 <= b < fs.zones && 0 <= k < ZONES_PER_BLOCK ==>
        fs.index[b][k] < fs.zones)
    && (forall b :: 0 <= b < fs.zones ==> |fs.data[b]| == BLOCK_SIZE)
    && (forall i :: 0 <= i < |fs.inode| ==> |fs.inode[i].zone| == 9)
    && (forall i, n {:trigger fs.inode[i].zone[n]} :: 0 <= i < |fs.inode| && 0 <= n < 9 ==>
        fs.inode[i].zone[n] < fs.zones)
  }

  // ------------------------------------------------------------------ reading

  function Entry(fs: Fs, h: nat, k: nat): (b: nat)
    requires Shape(fs) && h < fs.zones && k < ZONES_PER_BLOCK
    ensures b < fs.zones
  {
    if h == 0 then 0 else fs.index[h][k]
  }

  /** The block number kept in a slot, 0 if there is none. */
  function Ptr(fs: Fs, ino: nat, s: Slot): (b: nat)
    requires Shape(fs) && ino < |fs.inode| && ValidSlot(s)
    ensures b < fs.zones
  {
    var z := fs.inode[ino].zone;
    match s
    case Zone(n) => z[n]
    case Ind(k) => Entry(fs, z[7], k)
    case Dind(k) => Entry(fs, z[8], k)
    case Leaf(k, l) => Entry(fs, Entry(fs, z[8], k), l)
  }

  /** The slot that keeps the number of block `lb` of a file. */
  function FileSlot(lb: nat): (s: Slot)
    requires lb < MAX_BLOCKS
    ensures ValidSlot(s)
  {
    if lb < 7 then Zone(lb)
    else if lb < 519 then Ind(lb - 7)
    else Leaf((lb - 519) / 512, (lb - 519) % 512)
  }

  lemma FileSlotInjective(a: nat, b: nat)
    requires a < MAX_BLOCKS && b < MAX_BLOCKS && FileSlot(a) == FileSlot(b)
    ensures a == b
  {
  }

  /** Byte `o` of block `lb` of a file; holes read as zero. */
  function ByteAt(fs: Fs, ino: nat, lb: nat, o: nat): Byte
    requires Shape(fs) && ino < |fs.inode| && lb < MAX_BLOCKS && o < BLOCK_SIZE
  {
    var b := Ptr(fs, ino, FileSlot(lb));
    if b == 0 then 0 else fs.data[b][o]
  }

  function Bit(fs: Fs, b: nat): bool
    requires Shape(fs) && fs.first <= b < fs.zones
  {
    fs.bits[b - fs.first + 1]
  }

  // ---------------------------------------------------------------- invariant

  /** Which slot of which inode a block belongs to. */
  type Owners = map<nat, (nat, Slot)>

  /** Every block number kept anywhere has one owner, the slot that keeps it: block trees are disjoint. */
  ghost predicate Owned(fs: Fs, own: Owners)
    requires Shape(fs)
  {
    && (forall ino: nat, s: Slot {:trigger Ptr(fs, ino, s)} ::
        ino < |fs.inode| && ValidSlot(s) && Ptr(fs, ino, s) != 0 ==>
          Ptr(fs, ino, s) in own && own[Ptr(fs, ino, s)] == (ino, s))
    && (forall b :: b in own ==> own[b].0 < |fs.inode| && ValidSlot(own[b].1) && Ptr(fs, own[b].0, own[b].1) == b != 0)
  }

  /** Owned blocks are data zones with their bit set. */
  ghost predicate Marked(fs: Fs, own: Owners)
    requires Shape(fs)
  {
    fs.bits[0] && forall b :: b in own ==> fs.first <= b < fs.zones && Bit(fs, b)
  }

  /** Nothing but zeros past the end of a file. */
  ghost predicate ZeroTails(fs: Fs)
    requires Shape(fs)
  {
    forall ino: nat, lb: nat, o: nat {:trigger ByteAt(fs, ino, lb, o)} ::
      ino < |fs.inode| && lb < MAX_BLOCKS && o < BLOCK_SIZE && fs.inode[ino].size <= 1024 * lb + o ==>
          ByteAt(fs, ino, lb, o) == 0
  }

  ghost predicate Inv(fs: Fs, own: Owners) {
    true == (Shape(fs) && !fs.fault && Owned(fs, own) && Marked(fs, own) && ZeroTails(fs))
  }

  /** Some slot of some file keeps the number of the zone. */
  ghost predicate Named(fs: Fs, b: nat)
    requires Shape(fs)
  {
    exists i: nat, t: Slot :: i < |fs.inode| && ValidSlot(t) && Ptr(fs, i, t) == b
  }

  /** The zones that are marked in use and that no file has. */
  ghost function Orphans(fs: Fs): set<nat>
    requires Shape(fs)
  {
    set b: nat | fs.first <= b < fs.zones && Bit(fs, b) && !Named(fs, b)
  }

  lemma NamedOwned(fs: Fs, own: Owners)
    requires Shape(fs) && Owned(fs, own)
    ensures forall b: nat :: b != 0 ==> (Named(fs, b) <==> b in own)
  {
  }

  lemma SameOrphans(fs: Fs, own: Owners, fs': Fs, own': Owners, b: nat)
    requires Shape(fs) && Owned(fs, own) && Shape(fs') && Owned(fs', own')
    requires fs'.first == fs.first && fs'.zones == fs.zones && own'.Keys == own.Keys + (if b == 0 then {} else {b})
    requires b == 0 || (fs.first <= b < fs.zones && !Bit(fs, b))
    requires forall c :: fs.first <= c < fs.zones ==> (Bit(fs', c) <==> Bit(fs, c) || c == b)
    ensures Orphans(fs') == Orphans(fs)
  {
    NamedOwned(fs, own);
    NamedOwned(fs', own');
    hide Named, Owned;
  }

  /** Different slots, of one file or of two, never name the same block. */
  lemma TreesDisjoint(fs: Fs, own: Owners, i: nat, s: Slot, j: nat, t: Slot)
    requires Inv(fs, own) && i < |fs.inode| && j < |fs.inode| && ValidSlot(s) && ValidSlot(t)
    requires Ptr(fs, i, s) == Ptr(fs, j, t) != 0
    ensures i == j && s == t
  {
  }

  // --------------------------------------------------------------- allocation

  function FirstZero(bits: seq<bool>, j: nat): (k: nat)
    requires j <= |bits|
    ensures j <= k <= |bits|
    ensures k < |bits| ==> !bits[k]
    ensures forall i :: j <= i < k ==> bits[i]
    decreases |bits| - j
  {
    if j == |bits| || !bits[j] then j else FirstZero(bits, j + 1)
  }

  function NoEntries(): (t: seq<nat>)
    ensures |t| == ZONES_PER_BLOCK && forall k :: 0 <= k < |t| ==> t[k] == 0
  {
    seq<nat>(ZONES_PER_BLOCK, _ => 0)
  }

  function Zeros(): (t: seq<Byte>)
    ensures |t| == BLOCK_SIZE && forall k :: 0 <= k < |t| ==> t[k] == 0
  {
    seq(BLOCK_SIZE, _ => 0)
  }

  /** Files without zones: whatever their sizes, they read as zeros and own nothing. */
  lemma NoZonesInv(fs: Fs)
    requires Shape(fs) && !fs.fault && fs.bits[0]
    requires forall ino, n {:trigger fs.inode[ino].zone[n]} :: 0 <= ino < |fs.inode| && 0 <= n < 9 ==>
      fs.inode[ino].zone[n] == 0
    ensures Inv(fs, map[])
  {
    forall ino: nat, s: Slot | ino < |fs.inode| && ValidSlot(s)
      ensures Ptr(fs, ino, s) == 0
    {
      var z := fs.inode[ino].zone;
      assert forall n :: 0 <= n < 9 ==> z[n] == 0;
    }
    forall ino: nat, lb: nat, o: nat | ino < |fs.inode| && lb < MAX_BLOCKS && o < BLOCK_SIZE
      ensures ByteAt(fs, ino, lb, o) == 0
    {
      assert Ptr(fs, ino, FileSlot(lb)) == 0;
    }
  }

  /** A file system just made: every zone free, and files that are all empty. */
  function Mkfs(first: nat, zones: nat, files: nat): (fs: Fs)
    requires 1 <= first <= zones
    ensures Shape(fs)
  {
    Fs(first, zones, seq(zones - first + 1, j => j == 0), seq(zones, _ => NoEntries()), seq(zones, _ => Zeros()),
       seq(files, _ => Inode([0, 0, 0, 0, 0, 0, 0, 0, 0], 0)), false)
  }

  /** Every run of the model may start there. */
  lemma MkfsInv(first: nat, zones: nat, files: nat)
    requires 1 <= first <= zones
    ensures Inv(Mkfs(first, zones, files), map[])
    ensures forall b :: first <= b < zones ==> !Bit(Mkfs(first, zones, files), b)
  {
    var fs := Mkfs(first, zones, files);
    forall ino, n {:trigger fs.inode[ino].zone[n]} | 0 <= ino < |fs.inode| && 0 <= n < 9
      ensures fs.inode[ino].zone[n] == 0
    {
      assert fs.inode[ino] == Inode([0, 0, 0, 0, 0, 0, 0, 0, 0], 0);
    }
    hide Owned, Marked, ZeroTails;
    NoZonesInv(fs);
  }

  /** new_block: the first clear bit is set and its zone cleared; 0 if there is none, or if the bit lies past the last
      zone. */
  function NewBlock(fs: Fs): (r: (Fs, nat))
    requires Shape(fs)
    ensures Shape(r.0) && r.1 < fs.zones
  {
    var j := FirstZero(fs.bits, 0);
    if j == |fs.bits| then (fs, 0)
    else
      var fs1 := fs.(bits := fs.bits[j := true]);
      var b := j + fs.first - 1;
      if b >= fs.zones then (fs1, 0)
      else (fs1.(index := fs.index[b := NoEntries()], data := fs.data[b := Zeros()]), b)
  }

  ghost predicate NoSpace(fs: Fs)
    requires Shape(fs)
  {
    forall b :: fs.first <= b < fs.zones ==> Bit(fs, b)
  }

  /** A new block belonged to nobody and is empty, and no other zone is marked; there is none only when every zone is
      taken. */
  lemma NewBlockInv(fs: Fs, own: Owners)
    requires Inv(fs, own)
    ensures var (fs', b) := NewBlock(fs);
            && fs'.inode == fs.inode && fs'.first == fs.first && fs'.zones == fs.zones && !fs'.fault
            && Marked(fs', own)
            && (forall c :: fs.first <= c < fs.zones ==> (Bit(fs', c) <==> Bit(fs, c) || c == b))
            && (b == 0 ==> NoSpace(fs') && fs'.index == fs.index && fs'.data == fs.data)
            && (b != 0 ==>
                  && fs.first <= b < fs.zones && !Bit(fs, b) && b !in own && Bit(fs', b)
                  && fs' == fs.(bits := fs'.bits, index := fs.index[b := NoEntries()], data := fs.data[b := Zeros()]))
  {
    var j := FirstZero(fs.bits, 0);
    assert j > 0;
  }

  /** Stores a block number in a slot whose holder exists. */
  function SetPtr(fs: Fs, ino: nat, s: Slot, b: nat): (fs': Fs)
    requires Shape(fs) && ino < |fs.inode| && ValidSlot(s) && b < fs.zones
    ensures Shape(fs')
  {
    var z: seq<nat> := fs.inode[ino].zone;
    match s
    case Zone(n) => fs.(inode := fs.inode[ino := Inode(z[n := b], fs.inode[ino].size)])
    case Ind(k) => SetEntry(fs, z[7], k, b)
    case Dind(k) => SetEntry(fs, z[8], k, b)
    case Leaf(k, l) => SetEntry(fs, Entry(fs, z[8], k), l, b)
  }

  function SetEntry(fs: Fs, h: nat, k: nat, b: nat): (fs': Fs)
    requires Shape(fs) && h < fs.zones && k < ZONES_PER_BLOCK && b < fs.zones
    ensures Shape(fs')
  {
    var row: seq<nat> := fs.index[h];
    fs.(index := fs.index[h := row[k := b]])
  }

  function Parent(s: Slot): Slot {
    match s
    case Zone(n) => Zone(n)
    case Ind(k) => Zone(7)
    case Dind(k) => Zone(8)
    case Leaf(k, l) => Dind(k)
  }

  /** The block that keeps the slot exists (a zone slot is kept in the inode). */
  ghost predicate Held(fs: Fs, ino: nat, s: Slot)
    requires Shape(fs) && ino < |fs.inode| && ValidSlot(s)
  {
    s.Zone? || Ptr(fs, ino, Parent(s)) != 0
  }

  /** Nothing is kept below the slot. */
  ghost predicate Bare(fs: Fs, ino: nat, s: Slot)
    requires Shape(fs) && ino < |fs.inode| && ValidSlot(s)
  {
    forall c :: ValidSlot(c) && Parent(c) == s && c != s ==> Ptr(fs, ino, c) == 0
  }

  /** Where the block that keeps a slot is the same, so is the slot. */
  lemma SameHolder(fs: Fs, own: Owners, ino: nat, s: Slot, ino': nat, s': Slot)
    requires Shape(fs) && Owned(fs, own) && ino < |fs.inode| && ino' < |fs.inode| && ValidSlot(s) && ValidSlot(s')
    requires Ptr(fs, ino, Parent(s)) == Ptr(fs, ino', Parent(s')) != 0
    ensures ino == ino' && Parent(s) == Parent(s')
  {
  }

  lemma SetBelowTop(fs: Fs, own: Owners, ino: nat, s: Slot, b: nat, ino': nat, s': Slot)
    requires Shape(fs) && Owned(fs, own) && ino < |fs.inode| && ValidSlot(s) && !s.Zone? && b < fs.zones
    requires Ptr(fs, ino, Parent(s)) != 0
    requires ino' < |fs.inode| && ValidSlot(s') && !s'.Leaf?
    ensures Ptr(SetPtr(fs, ino, s, b), ino', s') == if ino' == ino && s' == s then b else Ptr(fs, ino', s')
  {
    if !s'.Zone? && Ptr(fs, ino', Parent(s')) == Ptr(fs, ino, Parent(s)) {
      SameHolder(fs, own, ino, s, ino', s');
    }
  }

  lemma SetBelowLeaf(fs: Fs, own: Owners, ino: nat, s: Slot, b: nat, ino': nat, k: nat, l: nat)
    requires Shape(fs) && Owned(fs, own) && ino < |fs.inode| && ValidSlot(s) && !s.Zone? && b < fs.zones
    requires Ptr(fs, ino, Parent(s)) != 0 && Bare(fs, ino, s) && (b != 0 ==> b !in own && fs.index[b] == NoEntries())
    requires ino' < |fs.inode| && ValidSlot(Leaf(k, l))
    ensures Ptr(SetPtr(fs, ino, s, b), ino', Leaf(k, l)) == if ino' == ino
        && Leaf(k, l) == s then b else Ptr(fs, ino', Leaf(k, l))
  {
    SetBelowTop(fs, own, ino, s, b, ino', Dind(k));
    assert Parent(Leaf(k, l)) == Dind(k);
    var h := Ptr(fs, ino, Parent(s));
    assert h in own;
    if Ptr(fs, ino', Dind(k)) == h {
      SameHolder(fs, own, ino, s, ino', Leaf(k, l));
    }
  }

  lemma SetZonePtr(fs: Fs, own: Owners, ino: nat, n: nat, b: nat, ino': nat, s': Slot)
    requires Shape(fs) && Owned(fs, own) && ino < |fs.inode| && n < 9 && b < fs.zones
    requires Bare(fs, ino, Zone(n)) && (b != 0 ==> b !in own && fs.index[b] == NoEntries())
    requires ino' < |fs.inode| && ValidSlot(s')
    ensures Ptr(SetPtr(fs, ino, Zone(n), b), ino', s') == if ino' == ino && s' == Zone(n) then b else Ptr(fs, ino', s')
  {
    if ino' == ino {
      match s' {
        case Zone(_) =>
        case Ind(k) => assert Parent(s') == Zone(7);
        case Dind(k) => assert Parent(s') == Zone(8);
        case Leaf(k, l) => assert Parent(Dind(k)) == Zone(8);
      }
    }
  }

  /** Storing a number changes that slot and no other, provided nothing is kept below it before or after. */
  lemma SetPtrPtr(fs: Fs, own: Owners, ino: nat, s: Slot, b: nat, ino': nat, s': Slot)
    requires Shape(fs) && Owned(fs, own) && ino < |fs.inode| && ValidSlot(s) && b < fs.zones
    requires Held(fs, ino, s) && Bare(fs, ino, s) && (b != 0 ==> b !in own && fs.index[b] == NoEntries())
    requires ino' < |fs.inode| && ValidSlot(s')
    ensures Ptr(SetPtr(fs, ino, s, b), ino', s') == if ino' == ino && s' == s then b else Ptr(fs, ino', s')
  {
    if s.Zone? {
      SetZonePtr(fs, own, ino, s.n, b, ino', s');
    } else if s'.Leaf? {
      SetBelowLeaf(fs, own, ino, s, b, ino', s'.k, s'.l);
    } else {
      SetBelowTop(fs, own, ino, s, b, ino', s');
    }
  }

  // ------------------------------------------------------------------- _bmap

  /** The number of a slot in the array that keeps it. */
  function Key(s: Slot): nat {
    match s
    case Zone(n) => n
    case Ind(k) => k
    case Dind(k) => k
    case Leaf(k, l) => l
  }

  /** A block number kept in the index block `h`; with `create`, a missing one is allocated. */
  function EnsureEntry(fs: Fs, h: nat, k: nat, create: bool): (r: (Fs, nat))
    requires Shape(fs) && h < fs.zones && k < ZONES_PER_BLOCK
    ensures Shape(r.0) && r.0.inode == fs.inode && r.0.zones == fs.zones && r.1 < r.0.zones
  {
    var p := fs.index[h][k];
    if p != 0 || !create then (fs, p)
    else
      var (fs1, b) := NewBlock(fs);
      if b == 0 then (fs1, 0) else (SetEntry(fs1, h, k, b), b)
  }

  /** The same for a block number kept in the inode. */
  function EnsureZone(fs: Fs, ino: nat, n: nat, create: bool): (r: (Fs, nat))
    requires Shape(fs) && ino < |fs.inode| && n < 9
    ensures Shape(r.0) && |r.0.inode| == |fs.inode| && r.0.zones == fs.zones && r.1 < r.0.zones
  {
    var p := fs.inode[ino].zone[n];
    if p != 0 || !create then (fs, p)
    else
      var (fs1, b) := NewBlock(fs);
      if b == 0 then (fs1, 0) else (SetPtr(fs1, ino, Zone(n), b), b)
  }

  /** The block number in a slot whose holder exists. */
  function Ensure(fs: Fs, ino: nat, s: Slot, create: bool): (r: (Fs, nat))
    requires Shape(fs) && ino < |fs.inode| && ValidSlot(s)
    ensures Shape(r.0) && |r.0.inode| == |fs.inode| && r.1 < r.0.zones
  {
    if s.Zone? then EnsureZone(fs, ino, s.n, create) else EnsureEntry(fs, Ptr(fs, ino, Parent(s)), Key(s), create)
  }

  /** _bmap: the zone of block `lb` of a file, 0 if it has none. */
  function Bmap(fs: Fs, ino: nat, lb: nat, create: bool): (r: (Fs, nat))
    requires Shape(fs) && ino < |fs.inode| && lb < MAX_BLOCKS
    ensures Shape(r.0) && |r.0.inode| == |fs.inode| && r.1 < r.0.zones
  {
    if lb < 7 then EnsureZone(fs, ino, lb, create)
    else if lb - 7 < 512 then
      var (fs1, z) := EnsureZone(fs, ino, 7, create);
      if z == 0 then (fs1, 0) else EnsureEntry(fs1, z, lb - 7, create)
    else
      var k := lb - 519;
      var (fs1, z) := EnsureZone(fs, ino, 8, create);
      if z == 0 then (fs1, 0)
      else
        var (fs2, d) := EnsureEntry(fs1, z, k / 512, create);
        if d == 0 then (fs2, 0) else EnsureEntry(fs2, d, k % 512, create)
  }

  /** All files have the size and the bytes they had. */
  ghost predicate SameFiles(fs: Fs, fs': Fs)
    requires Shape(fs) && Shape(fs')
  {
    && |fs'.inode| == |fs.inode| && fs'.zones == fs.zones && fs'.first == fs.first
    && (forall i :: 0 <= i < |fs.inode| ==> fs'.inode[i].size == fs.inode[i].size)
    && (forall ino: nat, lb: nat, o: nat {:trigger ByteAt(fs', ino, lb, o)} ::
          ino < |fs.inode| && lb < MAX_BLOCKS && o < BLOCK_SIZE ==> ByteAt(fs', ino, lb, o) == ByteAt(fs, ino, lb, o))
  }

  lemma NewBlockPtr(fs: Fs, own: Owners, ino: nat, s: Slot)
    requires Inv(fs, own) && NewBlock(fs).1 != 0 && ino < |fs.inode| && ValidSlot(s)
    ensures Ptr(NewBlock(fs).0, ino, s) == Ptr(fs, ino, s)
  {
    NewBlockInv(fs, own);
    assert Ptr(fs, ino, Parent(s)) == 0 || Ptr(fs, ino, Parent(s)) in own;
    if s.Leaf? {
      assert Ptr(fs, ino, Zone(8)) == 0 || Ptr(fs, ino, Zone(8)) in own;
    }
  }

  lemma HookPtr(fs: Fs, own: Owners, ino: nat, s: Slot)
    requires Inv(fs, own) && ino < |fs.inode| && ValidSlot(s) && Held(fs, ino, s) && Ptr(fs, ino, s) == 0
    requires NewBlock(fs).1 != 0
    ensures var (fs1, b) := NewBlock(fs);
            forall i: nat, t: Slot {:trigger Ptr(SetPtr(fs1, ino, s, b), i, t)} :: i < |fs.inode| && ValidSlot(t) ==>
              Ptr(SetPtr(fs1, ino, s, b), i, t) == if i == ino && t == s then b else Ptr(fs, i, t)
  {
    NewBlockInv(fs, own);
    var (fs1, b) := NewBlock(fs);
    forall i: nat, t: Slot | i < |fs.inode| && ValidSlot(t)
      ensures Ptr(fs1, i, t) == Ptr(fs, i, t)
    {
      NewBlockPtr(fs, own, i, t);
    }
    assert Owned(fs1, own);
    forall i: nat, t: Slot | i < |fs.inode| && ValidSlot(t)
      ensures Ptr(SetPtr(fs1, ino, s, b), i, t) == if i == ino && t == s then b else Ptr(fs, i, t)
    {
      SetPtrPtr(fs1, own, ino, s, b, i, t);
    }
  }

  /** Same bytes, when a slot that kept nothing now keeps an empty block nobody owned. */
  lemma HookBytes(fs: Fs, own: Owners, ino: nat, s: Slot, b: nat, fs': Fs)
    requires Inv(fs, own) && Shape(fs') && ino < |fs.inode| && ValidSlot(s) && Ptr(fs, ino, s) == 0
    requires |fs'.inode| == |fs.inode| && fs'.zones == fs.zones && 0 < b < fs.zones && b !in own
        && fs'.data == fs.data[b := Zeros()]
    requires forall i: nat, t: Slot {:trigger Ptr(fs', i, t)} :: i < |fs.inode| && ValidSlot(t) ==>
               Ptr(fs', i, t) == if i == ino && t == s then b else Ptr(fs, i, t)
    ensures forall i: nat, lb: nat, o: nat {:trigger ByteAt(fs', i, lb, o)} ::
        i < |fs.inode| && lb < MAX_BLOCKS && o < BLOCK_SIZE ==>
               ByteAt(fs', i, lb, o) == ByteAt(fs, i, lb, o)
  {
    forall i: nat, lb: nat, o: nat | i < |fs.inode| && lb < MAX_BLOCKS && o < BLOCK_SIZE
      ensures ByteAt(fs', i, lb, o) == ByteAt(fs, i, lb, o)
    {
      var p := Ptr(fs, i, FileSlot(lb));
      assert p == 0 || p in own;
    }
  }

  lemma HookOwned(fs: Fs, own: Owners, ino: nat, s: Slot, b: nat, fs': Fs)
    requires Shape(fs) && Owned(fs, own) && Shape(fs') && |fs'.inode| == |fs.inode|
    requires ino < |fs.inode| && ValidSlot(s) && Ptr(fs, ino, s) == 0 && b != 0 && b !in own
    requires forall i: nat, t: Slot {:trigger Ptr(fs', i, t)} :: i < |fs.inode| && ValidSlot(t) ==>
               Ptr(fs', i, t) == if i == ino && t == s then b else Ptr(fs, i, t)
    ensures Owned(fs', own[b := (ino, s)])
  {
    hide Ptr;
    var own' := own[b := (ino, s)];
    forall i: nat, t: Slot | i < |fs'.inode| && ValidSlot(t) && Ptr(fs', i, t) != 0
      ensures Ptr(fs', i, t) in own' && own'[Ptr(fs', i, t)] == (i, t)
    {
      assert Ptr(fs, i, t) == 0 || Ptr(fs, i, t) in own;
    }
  }

  /** Hooking a new, empty block into an empty slot changes that slot and nothing anyone reads. */
  lemma HookInv(fs: Fs, own: Owners, ino: nat, s: Slot)
    requires Inv(fs, own) && ino < |fs.inode| && ValidSlot(s) && Held(fs, ino, s) && Ptr(fs, ino, s) == 0
    requires NewBlock(fs).1 != 0
    ensures var (fs1, b) := NewBlock(fs);
            var fs' := SetPtr(fs1, ino, s, b);
            Inv(fs', own[b := (ino, s)]) && SameFiles(fs, fs')
  {
    NewBlockInv(fs, own);
    var (fs1, b) := NewBlock(fs);
    var fs' := SetPtr(fs1, ino, s, b);
    HookPtr(fs, own, ino, s);
    hide Ptr;
    HookBytes(fs, own, ino, s, b, fs');
    HookOwned(fs, own, ino, s, b, fs');
  }

  /** The zone marked is the one the slot now names. */
  lemma HookOrphans(fs: Fs, own: Owners, ino: nat, s: Slot)
    requires Inv(fs, own) && ino < |fs.inode| && ValidSlot(s) && Held(fs, ino, s) && Ptr(fs, ino, s) == 0
    requires NewBlock(fs).1 != 0
    ensures var (fs1, b) := NewBlock(fs);
            Orphans(SetPtr(fs1, ino, s, b)) == Orphans(fs)
  {
    hide Owned, Orphans, ZeroTails, Ptr, SameFiles, Marked, NewBlock;
    NewBlockInv(fs, own);
    HookInv(fs, own, ino, s);
    var (fs1, b) := NewBlock(fs);
    var fs' := SetPtr(fs1, ino, s, b);
    SameOrphans(fs, own, fs', own[b := (ino, s)], b);
  }

  lemma FullOrphans(fs: Fs, own: Owners)
    requires Inv(fs, own) && NewBlock(fs).1 == 0
    ensures Orphans(NewBlock(fs).0) == Orphans(fs)
  {
    hide Owned, Orphans, ZeroTails, SameFiles;
    NewBlockInv(fs, own);
    BitsOnly(fs, own, NewBlock(fs).0);
    SameOrphans(fs, own, NewBlock(fs).0, own, 0);
  }

  /** Only bitmap bits differ: nobody notices. */
  lemma BitsOnly(fs: Fs, own: Owners, fs': Fs)
    requires Inv(fs, own) && Shape(fs') && fs' == fs.(bits := fs'.bits) && Marked(fs', own)
    ensures Inv(fs', own) && SameFiles(fs, fs')
    ensures forall i: nat, t: Slot {:trigger Ptr(fs', i, t)} :: i < |fs.inode| && ValidSlot(t) ==>
        Ptr(fs', i, t) == Ptr(fs, i, t)
  {
    forall i: nat, t: Slot | i < |fs.inode| && ValidSlot(t)
      ensures Ptr(fs', i, t) == Ptr(fs, i, t)
    {
    }
    forall i: nat, lb: nat, o: nat | i < |fs.inode| && lb < MAX_BLOCKS && o < BLOCK_SIZE
      ensures ByteAt(fs', i, lb, o) == ByteAt(fs, i, lb, o)
    {
    }
  }

  /** The owner map after Ensure. */
  ghost function Grown(fs: Fs, own: Owners, ino: nat, s: Slot, create: bool): Owners
    requires Shape(fs) && ino < |fs.inode| && ValidSlot(s)
  {
    if Ptr(fs, ino, s) == 0 && create && NewBlock(fs).1 != 0 then own[NewBlock(fs).1 := (ino, s)] else own
  }

  /** Everything a caller of Ensure or Bmap may rely on: slot `s` now keeps `b`, files read as before, and every zone
      newly marked belongs to a file. */
  ghost predicate Mapped(fs: Fs, ino: nat, s: Slot, create: bool, fs': Fs, b: nat, own': Owners) {
    true == (
      && Shape(fs) && Inv(fs', own') && ino < |fs.inode| && ValidSlot(s)
      && SameFiles(fs, fs') && Orphans(fs') == Orphans(fs)
      && b == Ptr(fs', ino, s)
      && (!create ==> fs' == fs)
      && (create && b == 0 ==> NoSpace(fs')))
  }

  /** A new block is hooked in where the holder was found before it was allocated. */
  lemma EnsureHooks(fs: Fs, own: Owners, ino: nat, s: Slot)
    requires Inv(fs, own) && ino < |fs.inode| && ValidSlot(s) && Held(fs, ino, s) && Ptr(fs, ino, s) == 0
    ensures var (fs1, b) := NewBlock(fs);
            Ensure(fs, ino, s, true) == if b == 0 then (fs1, 0) else (SetPtr(fs1, ino, s, b), b)
  {
    if NewBlock(fs).1 != 0 {
      NewBlockPtr(fs, own, ino, Parent(s));
    }
  }

  lemma EnsureInv(fs: Fs, own: Owners, ino: nat, s: Slot, create: bool)
    requires Inv(fs, own) && ino < |fs.inode| && ValidSlot(s) && Held(fs, ino, s)
    ensures var (fs', b) := Ensure(fs, ino, s, create);
            && Mapped(fs, ino, s, create, fs', b, Grown(fs, own, ino, s, create))
            && (forall i: nat, t: Slot {:trigger Ptr(fs', i, t)} ::
                i < |fs.inode| && ValidSlot(t) && !(i == ino && t == s) ==>
                  Ptr(fs', i, t) == Ptr(fs, i, t))
  {
    if Ptr(fs, ino, s) != 0 || !create {
      return;
    }
    hide Ensure, Orphans, Owned, ZeroTails;
    EnsureHooks(fs, own, ino, s);
    NewBlockInv(fs, own);
    var (fs1, b) := NewBlock(fs);
    if b == 0 {
      BitsOnly(fs, own, fs1);
      FullOrphans(fs, own);
      return;
    }
    HookInv(fs, own, ino, s);
    HookPtr(fs, own, ino, s);
    HookOrphans(fs, own, ino, s);
  }

  /** A chain of two mappings, the second one below the first. */
  lemma MappedChain(fs: Fs, ino: nat, s: Slot, t: Slot, create: bool, fs1: Fs, z: nat, own1: Owners, fs2: Fs, b: nat,
      own2: Owners)
    requires Mapped(fs, ino, s, create, fs1, z, own1) && Mapped(fs1, ino, t, create, fs2, b, own2)
    ensures Mapped(fs, ino, t, create, fs2, b, own2)
  {
    forall i: nat, lb: nat, o: nat | i < |fs.inode| && lb < MAX_BLOCKS && o < BLOCK_SIZE
      ensures ByteAt(fs2, i, lb, o) == ByteAt(fs, i, lb, o)
    {
      assert ByteAt(fs1, i, lb, o) == ByteAt(fs, i, lb, o);
    }
  }

  /** The slot below a missing one is missing too. */
  lemma MappedBelow(fs: Fs, ino: nat, s: Slot, t: Slot, create: bool, fs1: Fs, own1: Owners)
    requires Mapped(fs, ino, s, create, fs1, 0, own1) && ValidSlot(t) && Parent(t) == s
    ensures Mapped(fs, ino, t, create, fs1, 0, own1)
  {
  }

  /** One more level of the map. */
  lemma EnsureBelow(fs: Fs, own: Owners, ino: nat, s: Slot, t: Slot, create: bool, fs1: Fs, z: nat,
      own1: Owners) returns (own2: Owners)
    requires Inv(fs, own) && Mapped(fs, ino, s, create, fs1, z, own1) && ValidSlot(t) && Parent(t) == s && t != s
    ensures var (fs2, b) := if z == 0 then (fs1, 0) else Ensure(fs1, ino, t, create);
            Mapped(fs, ino, t, create, fs2, b, own2)
  {
    if z == 0 {
      MappedBelow(fs, ino, s, t, create, fs1, own1);
      return own1;
    }
    EnsureInv(fs1, own1, ino, t, create);
    own2 := Grown(fs1, own1, ino, t, create);
    var (fs2, b) := Ensure(fs1, ino, t, create);
    MappedChain(fs, ino, s, t, create, fs1, z, own1, fs2, b, own2);
  }

  /** create_block and bmap: afterwards the file has that zone for that block, or there is no space;
      allocation changes nothing that can be read from any file. */
  lemma BmapInv(fs: Fs, own: Owners, ino: nat, lb: nat, create: bool) returns (own': Owners)
    requires Inv(fs, own) && ino < |fs.inode| && lb < MAX_BLOCKS
    ensures var (fs', b) := Bmap(fs, ino, lb, create);
            Mapped(fs, ino, FileSlot(lb), create, fs', b, own')
  {
    hide EnsureZone, EnsureEntry, Owned, Marked, ZeroTails, SameFiles;
    var top := if lb < 7 then Zone(lb) else if lb < 519 then Zone(7) else Zone(8);
    EnsureInv(fs, own, ino, top, create);
    var (fs1, z) := Ensure(fs, ino, top, create);
    var own1 := Grown(fs, own, ino, top, create);
    if lb < 7 {
      return own1;
    }
    if lb < 519 {
      own' := EnsureBelow(fs, own, ino, top, Ind(lb - 7), create, fs1, z, own1);
      return;
    }
    own' := EnsureBelow(fs, own, ino, top, Dind((lb - 519) / 512), create, fs1, z, own1);
    var (fs2, d) := if z == 0 then (fs1, 0) else Ensure(fs1, ino, Dind((lb - 519) / 512), create);
    own' := EnsureBelow(fs, own, ino, Dind((lb - 519) / 512), FileSlot(lb), create, fs2, d, own');
  }
}

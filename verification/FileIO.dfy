/**
 file_read and file_write of 0.12 over the block map: a file is a sparse array of bytes.
*/
module FileIO {
  import opened MinixFs


  /** What the file holds at byte position `p`. */
  function Content(fs: Fs, ino: nat, p: nat): Byte
    requires Shape(fs) && ino < |fs.inode| && p < 1024 * MAX_BLOCKS
  {
    ByteAt(fs, ino, p / 1024, p % 1024)
  }

  /** `bytes` laid over a block from offset `o` on. */
  function Overlay(block: seq<Byte>, o: nat, bytes: seq<Byte>): (r: seq<Byte>)
    requires o + |bytes| <= |block|
    ensures |r| == |block|
    ensures forall k :: 0 <= k < |r| ==> r[k] == if o <= k < o + |bytes| then bytes[k - o] else block[k]
  {
    block[..o] + bytes + block[o + |bytes|..]
  }

  function Max(a: nat, b: nat): nat {
    if a < b then b else a
  }

  /** How much of `count` bytes at `pos` lies in the block of `pos`. */
  function ChunkLen(pos: nat, count: nat): (c: nat)
    ensures c <= count && pos % 1024 + c <= 1024 && (count > 0 ==> c > 0)
  {
    if 1024 - pos % 1024 < count then 1024 - pos % 1024 else count
  }

  /** One turn of the loop of file_write, within one block. */
  function WriteChunk(fs: Fs, ino: nat, pos: nat, bytes: seq<Byte>): (r: (Fs, bool))
    requires Shape(fs) && ino < |fs.inode| && pos < 1024 * MAX_BLOCKS && pos % 1024 + |bytes| <= 1024
    ensures Shape(r.0) && |r.0.inode| == |fs.inode|
  {
    var (fs1, b) := Bmap(fs, ino, pos / 1024, true);
    if b == 0 then (fs1, false)
    else
      var i := fs1.inode[ino];
      (fs1.(data := fs1.data[b := Overlay(fs1.data[b], pos % 1024, bytes)],
            inode := fs1.inode[ino := i.(size := Max(i.size, pos + |bytes|))]), true)
  }

  /** The loop of file_write: how far it got, and the state it leaves. */
  function WriteFrom(fs: Fs, ino: nat, pos: nat, buf: seq<Byte>): (r: (Fs, nat))
    requires Shape(fs) && ino < |fs.inode| && pos + |buf| <= 1024 * MAX_BLOCKS
    ensures Shape(r.0) && |r.0.inode| == |fs.inode| && r.1 <= |buf|
    decreases |buf|
  {
    if buf == [] then (fs, 0)
    else
      var c := ChunkLen(pos, |buf|);
      var (fs1, ok) := WriteChunk(fs, ino, pos, buf[..c]);
      if !ok then (fs1, 0)
      else
        var (fs2, n) := WriteFrom(fs1, ino, pos + c, buf[c..]);
        (fs2, c + n)
  }

  /** file_write: the new state, the value returned and the new f_pos. */
  function FileWrite(fs: Fs, ino: nat, append: bool, fPos: nat, buf: seq<Byte>): (r: (Fs, int, nat))
    requires Shape(fs) && ino < |fs.inode|
    requires (if append then fs.inode[ino].size else fPos) + |buf| <= 1024 * MAX_BLOCKS
  {
    var pos := if append then fs.inode[ino].size else fPos;
    var (fs1, n) := WriteFrom(fs, ino, pos, buf);
    (fs1, if n > 0 then n else -1, if append then fPos else pos + n)
  }

  /** The loop of file_read (block reads assumed to succeed). */
  function ReadFrom(fs: Fs, ino: nat, pos: nat, count: nat): (r: seq<Byte>)
    requires Shape(fs) && ino < |fs.inode| && pos + count <= 1024 * MAX_BLOCKS
    ensures |r| == count
    decreases count
  {
    if count == 0 then []
    else
      var chars := ChunkLen(pos, count);
      ReadChunk(fs, ino, pos, chars) + ReadFrom(fs, ino, pos + chars, count - chars)
  }

  // ---------------------------------------------------------------- writing

  /** Of all bytes of all files exactly pos..pos+|bytes| of file `ino` are new, and the size covers them. */
  ghost predicate Written(fs: Fs, ino: nat, pos: nat, bytes: seq<Byte>, fs': Fs)
    requires Shape(fs) && Shape(fs') && ino < |fs.inode| && pos + |bytes| <= 1024 * MAX_BLOCKS
  {
    && |fs'.inode| == |fs.inode|
    && (forall i: nat :: i < |fs.inode| ==>
          fs'.inode[i].size == if i == ino && bytes != [] then Max(fs.inode[i].size, pos + |bytes|)
              else fs.inode[i].size)
    && (forall i: nat, p: nat {:trigger Content(fs', i, p)} :: i < |fs.inode| && p < 1024 * MAX_BLOCKS ==>
          Content(fs', i, p) == if i == ino && pos <= p < pos + |bytes| then bytes[p - pos] else Content(fs, i, p))
  }

  /** The block written belongs to the file alone, so no other block of any file changes. */
  lemma OverlayBytes(fs: Fs, own: Owners, ino: nat, lb: nat, o: nat, bytes: seq<Byte>, fs': Fs)
    requires Inv(fs, own) && ino < |fs.inode| && lb < MAX_BLOCKS && o + |bytes| <= 1024
    requires Ptr(fs, ino, FileSlot(lb)) != 0 && Shape(fs') && |fs'.inode| == |fs.inode| && fs'.index == fs.index
    requires forall i: nat :: i < |fs.inode| ==> fs'.inode[i].zone == fs.inode[i].zone
    requires var b := Ptr(fs, ino, FileSlot(lb)); fs'.data == fs.data[b := Overlay(fs.data[b], o, bytes)]
    ensures forall i: nat, t: Slot {:trigger Ptr(fs', i, t)} :: i < |fs.inode| && ValidSlot(t) ==>
        Ptr(fs', i, t) == Ptr(fs, i, t)
    ensures forall i: nat, l: nat, k: nat {:trigger ByteAt(fs', i, l, k)} ::
        i < |fs.inode| && l < MAX_BLOCKS && k < BLOCK_SIZE ==>
      ByteAt(fs', i, l, k) == if i == ino && l == lb && o <= k < o + |bytes| then bytes[k - o] else ByteAt(fs, i, l, k)
  {
    forall i: nat, t: Slot | i < |fs.inode| && ValidSlot(t)
      ensures Ptr(fs', i, t) == Ptr(fs, i, t)
    {
    }
    forall i: nat, l: nat, k: nat | i < |fs.inode| && l < MAX_BLOCKS && k < BLOCK_SIZE
      ensures ByteAt(fs', i, l, k) == if i == ino && l == lb
          && o <= k < o + |bytes| then bytes[k - o] else ByteAt(fs, i, l, k)
    {
      if Ptr(fs, i, FileSlot(l)) == Ptr(fs, ino, FileSlot(lb)) {
        TreesDisjoint(fs, own, i, FileSlot(l), ino, FileSlot(lb));
        FileSlotInjective(l, lb);
      }
    }
  }

  /** The invariant holds, exactly the first n bytes were written, and every zone newly marked belongs to a file; if n
      is less than offered, the disk is full and the next byte lies in a block the file does not have. */
  ghost predicate Wrote(fs: Fs, ino: nat, pos: nat, offered: seq<Byte>, fs': Fs, n: nat, own': Owners) {
    true == (
      && Shape(fs) && ino < |fs.inode| && n <= |offered| && pos + |offered| <= 1024 * MAX_BLOCKS
      && Inv(fs', own') && Written(fs, ino, pos, offered[..n], fs')
      && Orphans(fs') == Orphans(fs)
      && (n < |offered| ==> NoSpace(fs') && Ptr(fs', ino, FileSlot((pos + n) / 1024)) == 0))
  }

  lemma ChunkOwned(fs: Fs, own: Owners, ino: nat, pos: nat, bytes: seq<Byte>, fs': Fs)
    requires Inv(fs, own) && ino < |fs.inode| && pos / 1024 < MAX_BLOCKS && pos % 1024 + |bytes| <= 1024 && Shape(fs')
    requires |fs'.inode| == |fs.inode| && !fs'.fault && fs'.bits == fs.bits && fs'.first == fs.first
        && fs'.zones == fs.zones
    requires forall i: nat :: i < |fs.inode| ==>
      fs'.inode[i].size == if i == ino then Max(fs.inode[i].size, pos + |bytes|) else fs.inode[i].size
    requires forall i: nat, t: Slot {:trigger Ptr(fs', i, t)} :: i < |fs.inode| && ValidSlot(t) ==>
        Ptr(fs', i, t) == Ptr(fs, i, t)
    requires forall i: nat, l: nat, k: nat {:trigger ByteAt(fs', i, l, k)} ::
        i < |fs.inode| && l < MAX_BLOCKS && k < BLOCK_SIZE ==>
      ByteAt(fs', i, l, k) == if i == ino && l == pos / 1024
          && pos % 1024 <= k < pos % 1024 + |bytes| then bytes[k - pos % 1024] else ByteAt(fs, i, l, k)
    ensures Inv(fs', own)
  {
    forall i: nat, l: nat, k: nat | i < |fs.inode| && l < MAX_BLOCKS && k < BLOCK_SIZE
        && fs'.inode[i].size <= 1024 * l + k
      ensures ByteAt(fs', i, l, k) == 0
    {
      assert ByteAt(fs, i, l, k) == 0;
    }
  }

  lemma ChunkWritten(fs: Fs, fs1: Fs, ino: nat, pos: nat, bytes: seq<Byte>, fs': Fs)
    requires Shape(fs) && Shape(fs1) && Shape(fs') && ino < |fs.inode| && bytes != []
    requires pos % 1024 + |bytes| <= 1024 && pos + |bytes| <= 1024 * MAX_BLOCKS
    requires SameFiles(fs, fs1) && |fs'.inode| == |fs.inode|
    requires forall i: nat :: i < |fs.inode| ==>
      fs'.inode[i].size == if i == ino then Max(fs1.inode[i].size, pos + |bytes|) else fs1.inode[i].size
    requires forall i: nat, l: nat, k: nat {:trigger ByteAt(fs', i, l, k)} ::
        i < |fs.inode| && l < MAX_BLOCKS && k < BLOCK_SIZE ==>
      ByteAt(fs', i, l, k) == if i == ino && l == pos / 1024
          && pos % 1024 <= k < pos % 1024 + |bytes| then bytes[k - pos % 1024] else ByteAt(fs1, i, l, k)
    ensures Written(fs, ino, pos, bytes, fs')
  {
    forall i: nat, p: nat | i < |fs.inode| && p < 1024 * MAX_BLOCKS
      ensures Content(fs', i, p) == if i == ino && pos <= p < pos + |bytes| then bytes[p - pos] else Content(fs, i, p)
    {
      assert ByteAt(fs1, i, p / 1024, p % 1024) == ByteAt(fs, i, p / 1024, p % 1024);
    }
  }

  lemma ChunkInv(fs: Fs, own: Owners, ino: nat, pos: nat, bytes: seq<Byte>) returns (own': Owners)
    requires Inv(fs, own) && ino < |fs.inode| && bytes != [] && pos % 1024 + |bytes| <= 1024
        && pos + |bytes| <= 1024 * MAX_BLOCKS
    ensures var (fs', ok) := WriteChunk(fs, ino, pos, bytes);
            Wrote(fs, ino, pos, bytes, fs', if ok then |bytes| else 0, own')
  {
    hide Bmap;
    own' := BmapInv(fs, own, ino, pos / 1024, true);
    var (fs1, b) := Bmap(fs, ino, pos / 1024, true);
    if b == 0 {
      assert Written(fs, ino, pos, bytes[..0], fs1);
      return;
    }
    var fs' := WriteChunk(fs, ino, pos, bytes).0;
    OverlayBytes(fs1, own', ino, pos / 1024, pos % 1024, bytes, fs');
    ChunkOwned(fs1, own', ino, pos, bytes, fs');
    ChunkWritten(fs, fs1, ino, pos, bytes, fs');
    assert bytes[..|bytes|] == bytes;
  }

  lemma WrittenTwice(fs: Fs, ino: nat, pos: nat, a: seq<Byte>, fs1: Fs, b: seq<Byte>, fs2: Fs)
    requires Shape(fs) && Shape(fs1) && Shape(fs2) && ino < |fs.inode| && pos + |a| + |b| <= 1024 * MAX_BLOCKS
        && a != []
    requires Written(fs, ino, pos, a, fs1) && Written(fs1, ino, pos + |a|, b, fs2)
    ensures Written(fs, ino, pos, a + b, fs2)
  {
    forall i: nat, p: nat | i < |fs.inode| && p < 1024 * MAX_BLOCKS
      ensures Content(fs2, i, p) == if i == ino && pos <= p < pos + |a + b| then (a + b)[p - pos] else Content(fs, i, p)
    {
      assert Content(fs1, i, p) == if i == ino && pos <= p < pos + |a| then a[p - pos] else Content(fs, i, p);
    }
  }

  lemma WroteInv(fs: Fs, ino: nat, pos: nat, offered: seq<Byte>, fs': Fs, n: nat, own': Owners)
    requires Wrote(fs, ino, pos, offered, fs', n, own')
    ensures Inv(fs', own') && |fs'.inode| == |fs.inode|
  {
  }

  lemma ShapeOf(fs: Fs, own: Owners)
    requires Inv(fs, own)
    ensures Shape(fs)
  {
  }

  lemma WroteNothing(fs: Fs, own: Owners, ino: nat, pos: nat)
    requires Inv(fs, own) && ino < |fs.inode| && pos <= 1024 * MAX_BLOCKS
    ensures Wrote(fs, ino, pos, [], fs, 0, own)
  {
    var none: seq<Byte> := [];
    assert none[..0] == none;
  }

  lemma WroteLess(fs: Fs, ino: nat, pos: nat, buf: seq<Byte>, c: nat, fs1: Fs, own1: Owners)
    requires 0 < c <= |buf| && pos + |buf| <= 1024 * MAX_BLOCKS && Wrote(fs, ino, pos, buf[..c], fs1, 0, own1)
    ensures Wrote(fs, ino, pos, buf, fs1, 0, own1)
  {
    assert buf[..c][..0] == buf[..0];
  }

  lemma WroteTwice(fs: Fs, ino: nat, pos: nat, buf: seq<Byte>, c: nat, fs1: Fs, own1: Owners, fs2: Fs, n: nat,
      own2: Owners)
    requires 0 < c <= |buf| && pos + |buf| <= 1024 * MAX_BLOCKS
    requires Wrote(fs, ino, pos, buf[..c], fs1, c, own1) && Wrote(fs1, ino, pos + c, buf[c..], fs2, n, own2)
    ensures Wrote(fs, ino, pos, buf, fs2, c + n, own2)
  {
    assert buf[..c][..c] == buf[..c];
    WrittenTwice(fs, ino, pos, buf[..c], fs1, buf[c..][..n], fs2);
    assert buf[..c] + buf[c..][..n] == buf[..c + n];
  }

  /** A write of n accepted bytes at `pos` changes exactly those bytes of that file, grows the size to
      cover them, keeps everything past every size zero and all block trees disjoint, and marks no zone that
      no file has; it accepts fewer bytes than offered only when no zone is free and the file has no block
      for the next byte. */
  lemma {:induction false} WriteRefinesSparseArray(fs: Fs, own: Owners, ino: nat, pos: nat,
      buf: seq<Byte>) returns (own': Owners)
    requires Inv(fs, own) && ino < |fs.inode| && pos + |buf| <= 1024 * MAX_BLOCKS
    ensures var (fs', n) := WriteFrom(fs, ino, pos, buf);
            Wrote(fs, ino, pos, buf, fs', n, own')
    decreases |buf|
  {
    hide Wrote, WriteChunk, Inv;
    ShapeOf(fs, own);
    if buf == [] {
      WroteNothing(fs, own, ino, pos);
      return own;
    }
    var c := ChunkLen(pos, |buf|);
    var own1 := ChunkInv(fs, own, ino, pos, buf[..c]);
    var (fs1, ok) := WriteChunk(fs, ino, pos, buf[..c]);
    assert |buf[..c]| == c;
    WroteInv(fs, ino, pos, buf[..c], fs1, if ok then c else 0, own1);
    if !ok {
      WroteLess(fs, ino, pos, buf, c, fs1, own1);
      return own1;
    }
    own' := WriteRefinesSparseArray(fs1, own1, ino, pos + c, buf[c..]);
    var (fs2, n) := WriteFrom(fs1, ino, pos + c, buf[c..]);
    WroteTwice(fs, ino, pos, buf, c, fs1, own1, fs2, n, own');
  }

  // ---------------------------------------------------------------- reading

  lemma DivMod(pos: nat, k: nat)
    requires pos % 1024 + k < 1024
    ensures (pos + k) / 1024 == pos / 1024 && (pos + k) % 1024 == pos % 1024 + k
  {
  }

  /** What one turn of the read loop delivers. */
  function ReadChunk(fs: Fs, ino: nat, pos: nat, chars: nat): (r: seq<Byte>)
    requires Shape(fs) && ino < |fs.inode| && pos < 1024 * MAX_BLOCKS && pos % 1024 + chars <= 1024
    ensures |r| == chars
  {
    var b := Bmap(fs, ino, pos / 1024, false).1;
    if b != 0 then
      assert b < fs.zones by { BmapPure(fs, ino, pos / 1024); }
      fs.data[b][pos % 1024..pos % 1024 + chars]
    else Zeros()[..chars]
  }

  lemma BmapPure(fs: Fs, ino: nat, lb: nat)
    requires Shape(fs) && ino < |fs.inode| && lb < MAX_BLOCKS
    ensures Bmap(fs, ino, lb, false) == (fs, Ptr(fs, ino, FileSlot(lb)))
  {
  }

  lemma ReadChunkContent(fs: Fs, ino: nat, pos: nat, chars: nat)
    requires Shape(fs) && ino < |fs.inode| && pos + chars <= 1024 * MAX_BLOCKS && pos < 1024 * MAX_BLOCKS
        && pos % 1024 + chars <= 1024
    ensures forall k :: 0 <= k < chars ==> ReadChunk(fs, ino, pos, chars)[k] == Content(fs, ino, pos + k)
  {
    BmapPure(fs, ino, pos / 1024);
    forall k | 0 <= k < chars
      ensures ReadChunk(fs, ino, pos, chars)[k] == Content(fs, ino, pos + k)
    {
      DivMod(pos, k);
    }
  }

  /** A read returns exactly the bytes of the sparse array, holes as zeros. */
  lemma {:induction false} ReadIsContent(fs: Fs, ino: nat, pos: nat, count: nat)
    requires Shape(fs) && ino < |fs.inode| && pos + count <= 1024 * MAX_BLOCKS
    ensures var r := ReadFrom(fs, ino, pos, count);
            |r| == count && forall k :: 0 <= k < count ==> r[k] == Content(fs, ino, pos + k)
    decreases count
  {
    hide ReadChunk;
    if count == 0 {
      return;
    }
    var chars := ChunkLen(pos, count);
    ReadChunkContent(fs, ino, pos, chars);
    ReadIsContent(fs, ino, pos + chars, count - chars);
    var r, tail := ReadFrom(fs, ino, pos, count), ReadFrom(fs, ino, pos + chars, count - chars);
    assert r == ReadChunk(fs, ino, pos, chars) + tail;
    forall k | chars <= k < count
      ensures r[k] == Content(fs, ino, pos + k)
    {
      assert r[k] == tail[k - chars] && pos + k == pos + chars + (k - chars);
    }
  }

  /** Reading back what was just written gives it back; reading any other file gives what it gave before. */
  lemma WriteThenRead(fs: Fs, own: Owners, ino: nat, append: bool, fPos: nat, buf: seq<Byte>, other: nat, at: nat,
      count: nat) returns (own': Owners)
    requires Inv(fs, own) && ino < |fs.inode| && other < |fs.inode| && other != ino && at + count <= 1024 * MAX_BLOCKS
    requires (if append then fs.inode[ino].size else fPos) + |buf| <= 1024 * MAX_BLOCKS
    ensures var pos := if append then fs.inode[ino].size else fPos;
            var (fs', ret, fPos') := FileWrite(fs, ino, append, fPos, buf);
            && Inv(fs', own')
            && (ret == -1 || 0 < ret <= |buf|)
            && (ret == -1 && buf != [] ==> NoSpace(fs'))
            && (ret > 0 ==> ReadFrom(fs', ino, pos, ret) == buf[..ret])
            && (fPos' == if append then fPos else fPos + if ret > 0 then ret else 0)
            && ReadFrom(fs', other, at, count) == ReadFrom(fs, other, at, count)
  {
    hide Inv, ReadFrom, WriteFrom;
    var pos := if append then fs.inode[ino].size else fPos;
    own' := WriteRefinesSparseArray(fs, own, ino, pos, buf);
    var (fs', n) := WriteFrom(fs, ino, pos, buf);
    ReadIsContent(fs', ino, pos, n);
    ReadIsContent(fs', other, at, count);
    ReadIsContent(fs, other, at, count);
    forall k | 0 <= k < n
      ensures ReadFrom(fs', ino, pos, n)[k] == buf[..n][k]
    {
      assert Content(fs', ino, pos + k) == buf[..n][k];
    }
    assert ReadFrom(fs', ino, pos, n) == buf[..n];
    forall k | 0 <= k < count
      ensures ReadFrom(fs', other, at, count)[k] == ReadFrom(fs, other, at, count)[k]
    {
      assert Content(fs', other, at + k) == Content(fs, other, at + k);
    }
  }
}

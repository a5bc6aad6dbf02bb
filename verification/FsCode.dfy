/**
 The file system code of 0.12 in its own form: bitmap, zones and inodes are arrays,
 changed in place by loops. Every method is proved to compute the function of the
 file system value that specifies it.
*/
module FsCode {
  import opened MinixFs
  import opened FileIO
  import T = Truncate

  lemma WriteStep(fs: Fs, ino: nat, pos: nat, buf: seq<Byte>, i: nat)
    requires Shape(fs) && ino < |fs.inode| && i < |buf| && pos + |buf| - i <= 1024 * MAX_BLOCKS
    ensures var c := ChunkLen(pos, |buf| - i);
            var (fs1, ok) := WriteChunk(fs, ino, pos, buf[i..i + c]);
            WriteFrom(fs, ino, pos, buf[i..]) ==
              if ok then (WriteFrom(fs1, ino, pos + c, buf[i + c..]).0,
                  c + WriteFrom(fs1, ino, pos + c, buf[i + c..]).1) else (fs1, 0)
  {
    hide WriteChunk, Shape;
    var c := ChunkLen(pos, |buf| - i);
    assert buf[i..][..c] == buf[i..i + c] && buf[i..][c..] == buf[i + c..];
  }

  lemma WriteEnd(fs: Fs, ino: nat, pos: nat)
    requires Shape(fs) && ino < |fs.inode| && pos <= 1024 * MAX_BLOCKS
    ensures WriteFrom(fs, ino, pos, []) == (fs, 0)
  {
  }

  class Disk {
    const first: nat
    const bits: array<bool>
    const index: array<seq<nat>>
    const data: array<seq<Byte>>
    const inode: array<Inode>
    var fault: bool

    ghost predicate Valid()
      reads this, bits, index, data, inode
    {
      && bits as object != index && bits as object != data && bits as object != inode
      && index as object != data && index as object != inode && data as object != inode
      && Shape(View())
    }

    ghost function View(): Fs
      reads this, bits, index, data, inode
    {
      Fs(first, index.Length, bits[..], index[..], data[..], inode[..], fault)
    }

    // --------------------------------------------------------- single stores

    method StoreEntry(h: nat, k: nat, b: nat)
      requires Valid() && h < index.Length && k < ZONES_PER_BLOCK && b < index.Length
      modifies index
      ensures Valid() && View() == SetEntry(old(View()), h, k, b)
    {
      var row: seq<nat> := index[h];
      index[h] := row[k := b];
    }

    method StoreZone(ino: nat, n: nat, b: nat)
      requires Valid() && ino < inode.Length && n < 9 && b < index.Length
      modifies inode
      ensures Valid() && View() == SetPtr(old(View()), ino, Zone(n), b)
    {
      var z: seq<nat> := inode[ino].zone;
      inode[ino] := Inode(z[n := b], inode[ino].size);
    }

    method StoreSize(ino: nat, size: nat)
      requires Valid() && ino < inode.Length
      modifies inode
      ensures Valid() && View() == T.SetSize(old(View()), ino, size)
    {
      inode[ino] := inode[ino].(size := size);
    }

    // ------------------------------------------------------ bitmap.c, inode.c

    /** new_block: scans the bitmap for a clear bit. */
    method AllocBlock() returns (b: nat)
      requires Valid()
      modifies bits, index, data
      ensures Valid() && (View(), b) == NewBlock(old(View()))
    {
      var j: nat := 0;
      while j < bits.Length && bits[j]
        invariant j <= bits.Length && FirstZero(bits[..], j) == FirstZero(bits[..], 0)
      {
        j := j + 1;
      }
      if j == bits.Length {
        return 0;
      }
      bits[j] := true;
      b := j + first - 1;
      if b >= index.Length {
        return 0;
      }
      index[b] := NoEntries();
      data[b] := Zeros();
    }

    method MapZone(ino: nat, n: nat, create: bool) returns (b: nat)
      requires Valid() && ino < inode.Length && n < 9
      modifies bits, index, data, inode
      ensures Valid() && (View(), b) == EnsureZone(old(View()), ino, n, create)
    {
      b := inode[ino].zone[n];
      if create && b == 0 {
        b := AllocBlock();
        if b != 0 {
          StoreZone(ino, n, b);
        }
      }
    }

    /** Entry `k` of index block `h`, allocated if need be. */
    method MapEntry(h: nat, k: nat, create: bool) returns (b: nat)
      requires Valid() && h < index.Length && k < ZONES_PER_BLOCK
      modifies bits, index, data
      ensures Valid() && (View(), b) == EnsureEntry(old(View()), h, k, create)
    {
      b := index[h][k];
      if create && b == 0 {
        b := AllocBlock();
        if b != 0 {
          StoreEntry(h, k, b);
        }
      }
    }

    method BlockMap(ino: nat, lb: nat, create: bool) returns (b: nat)
      requires Valid() && ino < inode.Length && lb < MAX_BLOCKS
      modifies bits, index, data, inode
      ensures Valid() && (View(), b) == Bmap(old(View()), ino, lb, create)
    {
      var block: nat := lb;
      if block < 7 {
        b := MapZone(ino, block, create);
        return;
      }
      block := block - 7;
      if block < 512 {
        var z := MapZone(ino, 7, create);
        if z == 0 {
          return 0;
        }
        b := MapEntry(z, block, create);
        return;
      }
      block := block - 512;
      var z := MapZone(ino, 8, create);
      if z == 0 {
        return 0;
      }
      var d := MapEntry(z, block / 512, create);
      if d == 0 {
        return 0;
      }
      b := MapEntry(d, block % 512, create);
    }

    // ------------------------------------------------------------- file_dev.c

    /** Copies bytes into a block one by one. */
    method CopyIn(b: nat, o: nat, bytes: seq<Byte>)
      requires Valid() && b < data.Length && o + |bytes| <= BLOCK_SIZE
      modifies data
      ensures Valid() && View() == old(View()).(data := old(View()).data[b := Overlay(old(View()).data[b], o, bytes)])
    {
      var c: nat := 0;
      assert Overlay(data[b], o, bytes[..0]) == data[b];
      assert data[..] == data[..][b := data[b]];
      while c < |bytes|
        invariant Valid() && c <= |bytes|
        invariant View() == old(View()).(data := old(View()).data[b := Overlay(old(View()).data[b], o, bytes[..c])])
      {
        var block: seq<Byte> := data[b];
        data[b] := block[o + c := bytes[c]];
        assert data[b] == Overlay(old(View()).data[b], o, bytes[..c + 1]);
        c := c + 1;
      }
      assert bytes[..c] == bytes;
    }

    /** One turn of the loop of file_write; false if there is no block. */
    method WriteBlock(ino: nat, pos: nat, bytes: seq<Byte>) returns (ok: bool)
      requires Valid() && ino < inode.Length && pos < 1024 * MAX_BLOCKS && pos % 1024 + |bytes| <= 1024
      modifies bits, index, data, inode
      ensures Valid() && (View(), ok) == WriteChunk(old(View()), ino, pos, bytes)
    {
      var block := BlockMap(ino, pos / 1024, true);
      ghost var fs1 := View();
      assert (fs1, block) == Bmap(old(View()), ino, pos / 1024, true);
      hide Bmap, Shape;
      if block == 0 {
        return false;
      }
      CopyIn(block, pos % 1024, bytes);
      var size := inode[ino].size;
      assert size == fs1.inode[ino].size;
      var end := pos + |bytes|;
      StoreSize(ino, if end > size then end else size);
      return true;
    }

    /** file_write; returns the number of bytes written, or -1, and the new file position. */
    method Write(ino: nat, append: bool, fPos: nat, buf: seq<Byte>) returns (res: int, pos': nat)
      requires Valid() && ino < inode.Length
      requires (if append then inode[ino].size else fPos) + |buf| <= 1024 * MAX_BLOCKS
      modifies bits, index, data, inode
      ensures Valid() && (View(), res, pos') == FileWrite(old(View()), ino, append, fPos, buf)
    {
      hide WriteChunk, WriteFrom, Shape;
      var pos: nat := if append then inode[ino].size else fPos;
      var i: nat := 0;
      ghost var start := pos;
      ghost var whole := WriteFrom(old(View()), ino, start, buf);
      assert buf[0..] == buf;
      while i < |buf|
        invariant Valid() && i <= |buf| && pos == start + i
        invariant whole.0 == WriteFrom(View(), ino, pos, buf[i..]).0
        invariant whole.1 == i + WriteFrom(View(), ino, pos, buf[i..]).1
      {
        var c := ChunkLen(pos, |buf| - i);
        WriteStep(View(), ino, pos, buf, i);
        var ok := WriteBlock(ino, pos, buf[i..i + c]);
        if !ok {
          pos' := if append then fPos else pos;
          res := if i > 0 then i else -1;
          return;
        }
        pos, i := pos + c, i + c;
      }
      WriteEnd(View(), ino, pos);
      pos' := if append then fPos else pos;
      res := if i > 0 then i else -1;
    }

    /** One turn of the loop of file_read. */
    method ReadBlock(ino: nat, pos: nat, chars: nat) returns (bytes: seq<Byte>)
      requires Valid() && ino < inode.Length && pos < 1024 * MAX_BLOCKS && pos % 1024 + chars <= 1024
      modifies bits, index, data, inode
      ensures Valid() && View() == old(View()) && bytes == ReadChunk(View(), ino, pos, chars)
    {
      var nr := BlockMap(ino, pos / 1024, false);
      BmapPure(old(View()), ino, pos / 1024);
      hide Bmap, Shape;
      if nr != 0 {
        return data[nr][pos % 1024..pos % 1024 + chars];
      }
      return Zeros()[..chars];
    }

    /** file_read. */
    method Read(ino: nat, fPos: nat, count: nat) returns (buf: seq<Byte>, pos: nat)
      requires Valid() && ino < inode.Length && fPos + count <= 1024 * MAX_BLOCKS
      modifies bits, index, data, inode
      ensures Valid() && View() == old(View()) && pos == fPos + count
      ensures buf == ReadFrom(old(View()), ino, fPos, count)
    {
      hide ReadChunk, Shape;
      pos := fPos;
      buf := [];
      var left: nat := count;
      while left > 0
        invariant Valid() && View() == old(View()) && left <= count && pos == fPos + (count - left)
        invariant ReadFrom(old(View()), ino, fPos, count) == buf + ReadFrom(View(), ino, pos, left)
      {
        var chars := ChunkLen(pos, left);
        var bytes := ReadBlock(ino, pos, chars);
        ghost var rest := ReadFrom(View(), ino, pos + chars, left - chars);
        assert buf + (bytes + rest) == (buf + bytes) + rest;
        buf, pos, left := buf + bytes, pos + chars, left - chars;
      }
    }

    // ------------------------------------------------------------- truncate.c

    method FreeBlock(b: nat, busy: set<nat>) returns (ok: bool)
      requires Valid()
      modifies this, bits
      ensures Valid() && (View(), ok) == T.FreeBlock(old(View()), b, busy)
    {
      if b < first || b >= index.Length {
        fault := true;
        return false;
      }
      if b in busy {
        return false;
      }
      var wasSet := bits[b - first + 1];
      bits[b - first + 1] := false;
      if !wasSet {
        fault := true;
      }
      return true;
    }

    method FreeInd(z: nat, busy: set<nat>) returns (ok: bool)
      requires Valid() && z < index.Length
      modifies this, bits, index
      ensures Valid() && (View(), ok) == T.FreeInd(old(View()), z, busy)
    {
      if z == 0 {
        return true;
      }
      var blockBusy := false;
      var i: nat := 0;
      ghost var whole := T.FreeEntries(old(View()), z, 0, busy);
      while i < 512
        invariant Valid() && i <= 512
        invariant whole == var (fs, f) := T.FreeEntries(View(), z, i, busy); (fs, blockBusy || f)
      {
        if index[z][i] != 0 {
          var gone := FreeBlock(index[z][i], busy);
          if gone {
            StoreEntry(z, i, 0);
          } else {
            blockBusy := true;
          }
        }
        i := i + 1;
      }
      if blockBusy {
        return false;
      }
      ok := FreeBlock(z, busy);
    }

    method FreeDind(z: nat, busy: set<nat>) returns (ok: bool)
      requires Valid() && z < index.Length
      modifies this, bits, index
      ensures Valid() && (View(), ok) == T.FreeDind(old(View()), z, busy)
    {
      if z == 0 {
        return true;
      }
      var blockBusy := false;
      var i: nat := 0;
      ghost var whole := T.FreeIndEntries(old(View()), z, 0, busy);
      while i < 512
        invariant Valid() && i <= 512
        invariant whole == var (fs, f) := T.FreeIndEntries(View(), z, i, busy); (fs, blockBusy || f)
      {
        if index[z][i] != 0 {
          var gone := FreeInd(index[z][i], busy);
          if gone {
            StoreEntry(z, i, 0);
          } else {
            blockBusy := true;
          }
        }
        i := i + 1;
      }
      if blockBusy {
        return false;
      }
      ok := FreeBlock(z, busy);
    }

    /** One pass over the inode. */
    method TruncatePass(ino: nat, busy: set<nat>) returns (again: bool)
      requires Valid() && ino < inode.Length
      modifies this, bits, index, inode
      ensures Valid() && (View(), again) == T.Pass(old(View()), ino, busy)
    {
      again := false;
      var i: nat := 0;
      ghost var whole := T.FreeZones(old(View()), ino, 0, busy);
      while i < 7
        invariant Valid() && i <= 7
        invariant whole == var (fs, f) := T.FreeZones(View(), ino, i, busy); (fs, again || f)
      {
        if inode[ino].zone[i] != 0 {
          var gone := FreeBlock(inode[ino].zone[i], busy);
          if gone {
            StoreZone(ino, i, 0);
          } else {
            again := true;
          }
        }
        i := i + 1;
      }
      var ok := FreeInd(inode[ino].zone[7], busy);
      if ok {
        StoreZone(ino, 7, 0);
      } else {
        again := true;
      }
      ok := FreeDind(inode[ino].zone[8], busy);
      if ok {
        StoreZone(ino, 8, 0);
      } else {
        again := true;
      }
      if !again {
        StoreSize(ino, 0);
      }
    }

    /** truncate: `goto repeat` while something is busy; stops early when `busy` runs out. */
    method TruncateFile(ino: nat, busy: seq<set<nat>>) returns (going: bool)
      requires Valid() && ino < inode.Length
      modifies this, bits, index, inode
      ensures Valid() && (View(), going) == T.Truncated(old(View()), ino, busy)
    {
      going := true;
      var k: nat := 0;
      while k < |busy| && going
        invariant Valid() && k <= |busy|
        invariant T.Truncated(old(View()), ino, busy) == if going then T.Truncated(View(), ino, busy[k..])
            else (View(), false)
      {
        assert busy[k..][1..] == busy[k + 1..];
        going := TruncatePass(ino, busy[k]);
        k := k + 1;
      }
    }
  }
}

/**
 The swapping code of 0.12 in its own form: the bitmap and the slots are arrays changed in
 place, the cursors of swap_out survive between calls, and the allocator loops.
*/
module SwapCode {
  import opened PageTables
  import opened Swap
  import C = CowPaging
  import F = SwapFaults
  import opened PageMemory

  class Swapper {
    const mm: Memory
    const bits: array<bool>
    const disk: array<Frame>
    var on: bool
    var dirEntry: nat
    var pageEntry: int
    var bad: bool

    ghost predicate Valid()
      reads this, bits, disk, mm, mm.memMap, mm.pgDir, mm.tables, mm.data
    {
      && mm.Valid() && disk as object != mm.data && disk as object != mm.memMap && disk as object != mm.pgDir
      && disk as object != mm.tables
      && bits as object != mm.data && bits as object != mm.memMap && bits as object != mm.pgDir
      && bits as object != mm.tables && bits as object != disk
      && WellFormed(View())
    }

    ghost function View(): Paging
      reads this, bits, disk, mm, mm.memMap, mm.pgDir, mm.tables, mm.data
    {
      Paging(mm.View(), on, bits[..], disk[..], dirEntry, pageEntry, bad)
    }

    /** The cursors as they are before the first swap_out. */
    constructor (memory: Memory, bitmap: array<bool>, slots: array<Frame>, swapping: bool)
      requires memory.Valid() && bitmap.Length == slots.Length == SWAP_BITS
          && (forall n :: 0 <= n < SWAP_BITS ==> |slots[n]| == PAGE_SIZE)
      requires slots as object != memory.data && slots as object != memory.memMap && slots as object != memory.pgDir
          && slots as object != memory.tables
      requires bitmap as object != memory.data && bitmap as object != memory.memMap && bitmap as object != memory.pgDir
          && bitmap as object != memory.tables
      requires bitmap as object != slots
      ensures Valid() && View() == Paging(memory.View(), swapping, bitmap[..], slots[..], FIRST_DIR, -1, false)
    {
      mm, bits, disk, on := memory, bitmap, slots, swapping;
      dirEntry, pageEntry, bad := FIRST_DIR, -1, false;
    }

    // ------------------------------------------------------------- the bitmap

    method TakeSlot() returns (nr: nat)
      requires Valid()
      modifies bits
      ensures Valid() && (View(), nr) == GetSwapPage(old(View()))
    {
      if !on {
        return 0;
      }
      nr := 1;
      while nr < 32768 && !bits[nr]
        invariant 1 <= nr <= SWAP_BITS && FirstSet(bits[..], nr) == FirstSet(bits[..], 1)
      {
        nr := nr + 1;
      }
      if nr < 32768 {
        bits[nr] := false;
        return;
      }
      return 0;
    }

    method FreeSlot(nr: nat)
      requires Valid()
      modifies this`bad, bits
      ensures Valid() && View() == SwapFree(old(View()), nr)
    {
      if nr == 0 {
        return;
      }
      if on && nr < SWAP_BITS {
        var was := bits[nr];
        bits[nr] := true;
        if !was {
          return;
        }
      }
      bad := true;
    }

    // ----------------------------------------------------------- swapping out

    method TrySwapOut(t: PageNo, i: nat) returns (ok: bool)
      requires Valid() && i < ENTRIES
      modifies bits, disk, mm, mm.memMap, mm.tables
      ensures Valid() && (View(), ok) == TryToSwapOut(old(View()), t, i)
    {
      var e := mm.tables[t][i];
      if !e.Present? || e.page < LOW_PAGES {
        return false;
      }
      if e.dirty {
        if mm.memMap[e.page - LOW_PAGES] != 1 {
          return false;
        }
        var nr := TakeSlot();
        if nr == 0 {
          return false;
        }
        mm.SetEntry(t, i, Swapped(nr));
        disk[nr] := mm.data[e.page];
        mm.GiveBack(e.page);
        return true;
      }
      mm.SetEntry(t, i, Absent);
      mm.GiveBack(e.page);
      return true;
    }

    /** The two loops of swap_out, `goto repeat` included. */
    method SwapOutOne() returns (ok: bool)
      requires Valid()
      modifies this`dirEntry, this`pageEntry, bits, disk, mm, mm.memMap, mm.tables
      ensures Valid() && var r := SwapOut(old(View())); View() == r.0 && ok == r.1
    {
      var counter: int := VM_PAGES;
      ghost var s0 := View();
      while counter > 0 && mm.pgDir[dirEntry] == 0
        invariant Valid() && View() == s0.(dirEntry := dirEntry)
        invariant SkipAbsent(s0.mem, dirEntry, counter) == SkipAbsent(s0.mem, s0.dirEntry, VM_PAGES)
      {
        counter := counter - 1024;
        dirEntry := NextDir(dirEntry);
      }
      hide TryToSwapOut, NextTable, SkipAbsent;
      ghost var whole := ScanOut(View(), counter, []);
      ghost var tries: seq<(nat, nat)> := [];
      while counter > 0
        invariant Valid() && ScanOut(View(), counter, tries) == whole
      {
        ghost var s := View();
        var found: bool;
        counter, found := Advance(counter);
        if !found {
          return false;
        }
        ghost var s1 := View();
        assert TryNext(s1, counter, tries) == whole;
        var done := TrySwapOut(mm.pgDir[dirEntry], pageEntry);
        tries := tries + [(s1.dirEntry, s1.pageEntry as nat)];
        if done {
          return true;
        }
        assert View() == s1;
      }
      return false;
    }

    /** One turn's way to the next entry, over to the next table where needed. */
    method Advance(start: int) returns (counter: int, found: bool)
      requires Valid() && start > 0
      modifies this`dirEntry, this`pageEntry
      ensures Valid() && View() == old(View()).(dirEntry := dirEntry, pageEntry := pageEntry)
          && (found ==> pageEntry >= 0) && counter < start
      ensures forall tries :: ScanOut(old(View()), start, tries) == if found then TryNext(View(), counter, tries)
          else (View(), false, tries)
    {
      hide TryNext;
      counter, found := start - 1, true;
      pageEntry := pageEntry + 1;
      if pageEntry >= ENTRIES {
        pageEntry := 0;
        counter, found := FindTable(counter);
      }
    }

    /** The loop around `repeat`. */
    method FindTable(start: int) returns (counter: int, found: bool)
      requires Valid()
      modifies this`dirEntry
      ensures Valid() && View() == old(View()).(dirEntry := dirEntry)
      ensures (dirEntry, counter, found) == NextTable(old(View()).mem, old(View()).dirEntry, start) && counter <= start
    {
      counter := start;
      ghost var s0 := View();
      while true
        invariant Valid() && View() == s0.(dirEntry := dirEntry)
        invariant NextTable(s0.mem, dirEntry, counter) == NextTable(s0.mem, s0.dirEntry, start)
        decreases counter
      {
        dirEntry := NextDir(dirEntry);
        if mm.pgDir[dirEntry] != 0 {
          return counter, true;
        }
        counter := counter - 1024;
        if counter <= 0 {
          return counter, false;
        }
      }
    }

    /** get_free_page. */
    method AllocPage() returns (page: PageNo)
      requires Valid()
      modifies this`dirEntry, this`pageEntry, bits, disk, mm, mm.memMap, mm.tables, mm.data
      ensures Valid() && (View(), page) == GetPage(old(View()))
    {
      page := 0;
      while true
        invariant Valid() && GetPage(View()) == GetPage(old(View()))
        decreases Resident(View().mem)
      {
        ghost var s := View();
        page := mm.TakePage();
        if page != 0 {
          return;
        }
        assert View() == s;
        SwapOutBounded(s);
        var ok := SwapOutOne();
        if !ok {
          return;
        }
      }
    }

    // ------------------------------------------------------------ swapping in

    /** swap_in; true if there was no memory. */
    method ReadIn(t: PageNo, i: nat) returns (oom: bool)
      requires Valid() && i < ENTRIES && (mm.tables[t][i].Swapped? ==> mm.tables[t][i].slot < SWAP_BITS)
      modifies this`dirEntry, this`pageEntry, bits, disk, mm, mm.memMap, mm.tables, mm.data
      ensures Valid() && (View(), oom) == SwapIn(old(View()), t, i)
    {
      if !on {
        return false;
      }
      var e := mm.tables[t][i];
      if !e.Swapped? {
        return false;
      }
      var page := AllocPage();
      if page == 0 {
        return true;
      }
      mm.SetBytes(page, disk[e.slot]);
      bits[e.slot] := true;
      mm.SetEntry(t, i, Present(page, true, true));
      return false;
    }

    /** The end of un_wp_page: the old page counts one less, its copy takes its place. */
    method CopyPage(t: PageNo, i: nat, oldPage: PageNo, newPage: PageNo)
      requires Valid() && i < ENTRIES
      modifies mm.memMap, mm.tables, mm.data
      ensures Valid() && View() == F.CopyOver(old(View()), t, i, oldPage, newPage)
    {
      if LOW_PAGES <= oldPage {
        mm.SetCount(oldPage, (mm.memMap[oldPage - LOW_PAGES] + 255) % 256);
      }
      mm.SetBytes(newPage, mm.data[oldPage]);
      mm.SetEntry(t, i, Present(newPage, true, false));
    }

    method UnWpPage(t: PageNo, i: nat) returns (ok: bool)
      requires Valid() && i < ENTRIES && mm.tables[t][i].Present?
      modifies this`dirEntry, this`pageEntry, bits, disk, mm, mm.memMap, mm.tables, mm.data
      ensures Valid() && (View(), ok) == F.UnWp(old(View()), t, i)
    {
      hide GetPage, F.CopyOver;
      var oldPage := mm.tables[t][i].page;
      if LOW_PAGES <= oldPage && mm.memMap[oldPage - LOW_PAGES] == 1 {
        mm.SetEntry(t, i, mm.tables[t][i].(rw := true));
        return true;
      }
      var newPage := AllocPage();
      if newPage == 0 {
        return false;
      }
      CopyPage(t, i, oldPage, newPage);
      return true;
    }

    /** The end of try_to_share: both entries are protected, and the page counts one more. */
    method ShareEntry(from: PageNo, to: PageNo, i: nat, pn: PageNo)
      requires Valid() && i < ENTRIES && LOW_PAGES <= pn
      modifies mm.memMap, mm.tables
      ensures Valid() && View() == F.ShareOver(old(View()), from, to, i, pn)
    {
      mm.SetEntry(from, i, C.ReadOnly(mm.tables[from][i]));
      mm.SetEntry(to, i, mm.tables[from][i]);
      mm.SetCount(pn, (mm.memMap[pn - LOW_PAGES] + 1) % 256);
    }

    /** The table of the sharing task, a new one if it has none. */
    method TableOf(d: nat) returns (t: PageNo)
      requires Valid() && d < DIRS
      modifies this`dirEntry, this`pageEntry, bits, disk, mm, mm.memMap, mm.pgDir, mm.tables, mm.data
      ensures Valid()
      ensures var s := old(View());
              var (s1, table) := if s.mem.dir[d] != 0 then (s, s.mem.dir[d]) else GetPage(s);
              t == table && View() == if t == 0 then s1 else s1.(mem := s1.mem.(dir := s1.mem.dir[d := t]))
    {
      hide GetPage;
      t := mm.pgDir[d];
      if t == 0 {
        t := AllocPage();
        if t != 0 {
          mm.SetDir(d, t);
        }
      } else {
        assert View().mem.dir[d := t] == View().mem.dir;
      }
    }

    method TryToShare(fd: nat, td: nat, i: nat) returns (res: C.Sharing)
      requires Valid() && fd < DIRS && td < DIRS && i < ENTRIES
      modifies this`dirEntry, this`pageEntry, bits, disk, mm, mm.memMap, mm.pgDir, mm.tables, mm.data
      ensures Valid() && (View(), res) == F.TryShare(old(View()), fd, td, i)
    {
      hide GetPage, F.ShareOver;
      var from := mm.pgDir[fd];
      if from == 0 {
        return C.NotShared;
      }
      var e := mm.tables[from][i];
      if !(e.Present? && !e.dirty) || e.page >= mm.high || e.page < LOW_PAGES {
        return C.NotShared;
      }
      var to := TableOf(td);
      if to == 0 {
        return C.OutOfMemory;
      }
      if mm.tables[to][i].Present? {
        mm.Panic();
        return C.NotShared;
      }
      ShareEntry(from, to, i, e.page);
      return C.Shared;
    }

    // ---------------------------------------------------------- whole ranges

    method FreePageTables(d0: nat, n0: nat)
      requires Valid() && d0 + n0 <= DIRS
      modifies this`bad, bits, mm, mm.memMap, mm.pgDir, mm.tables
      ensures Valid() && View() == FreeTables(old(View()), d0, n0)
    {
      hide FreeDir;
      var d: nat, size: nat := d0, n0;
      while size > 0
        invariant Valid() && d + size <= DIRS
        invariant FreeTables(View(), d, size) == FreeTables(old(View()), d0, n0)
      {
        EmptyTable(d);
        d, size := d + 1, size - 1;
      }
    }

    method EmptyTable(d: nat)
      requires Valid() && d < DIRS
      modifies this`bad, bits, mm, mm.memMap, mm.pgDir, mm.tables
      ensures Valid() && View() == FreeDir(old(View()), d)
    {
      if mm.pgDir[d] == 0 {
        return;
      }
      var table, nr: nat := mm.pgDir[d], 0;
      while nr < ENTRIES
        invariant Valid() && nr <= ENTRIES && mm.pgDir[d] == table
        invariant FreeEntries(View(), table, nr) == FreeEntries(old(View()), table, 0)
      {
        EmptyEntry(table, nr);
        nr := nr + 1;
      }
      mm.GiveBack(table);
      mm.SetDir(d, 0);
    }

    method EmptyEntry(t: PageNo, i: nat)
      requires Valid() && i < ENTRIES
      modifies this`bad, bits, mm, mm.memMap, mm.tables
      ensures Valid() && View() == FreeEntry(old(View()), t, i) && mm.pgDir[..] == old(mm.pgDir[..])
    {
      var e := mm.tables[t][i];
      match e {
        case Absent =>
        case Present(pn, _, _) => mm.GiveBack(pn);
        case Swapped(nr) => FreeSlot(nr);
      }
      mm.SetEntry(t, i, Absent);
    }

    /** The inner loop of copy_page_tables; false if it ran out of memory. */
    method CopyTable(from: PageNo, to: PageNo, span: nat) returns (ok: bool)
      requires Valid() && span <= ENTRIES
      modifies this`dirEntry, this`pageEntry, bits, disk, mm, mm.memMap, mm.tables, mm.data
      ensures Valid() && (View(), ok) == CopyEntries(old(View()), from, to, 0, span)
    {
      hide CopySwapped, C.CopyEntry;
      var i: nat := 0;
      while i < span
        invariant Valid() && i <= span
        invariant CopyEntries(View(), from, to, i, span) == CopyEntries(old(View()), from, to, 0, span)
      {
        var e := mm.tables[from][i];
        match e {
          case Absent =>
          case Present(_, _, _) => CopyOne(from, to, i);
          case Swapped(nr) =>
            if nr >= SWAP_BITS {
              return false;
            }
            var copied := CopySlot(from, to, i);
            if !copied {
              return false;
            }
        }
        i := i + 1;
      }
      return true;
    }

    method CopyOne(from: PageNo, to: PageNo, i: nat)
      requires Valid() && i < ENTRIES && mm.tables[from][i].Present?
      modifies mm, mm.memMap, mm.tables
      ensures Valid() && View() == old(View()).(mem := C.CopyEntry(old(View()).mem, from, to, i))
    {
      var e := C.ReadOnly(mm.tables[from][i]);
      mm.SetEntry(to, i, e);
      if LOW_PAGES <= e.page {
        mm.SetEntry(from, i, e);
        mm.SetCount(e.page, (mm.memMap[e.page - LOW_PAGES] + 1) % 256);
      }
    }

    method CopySlot(from: PageNo, to: PageNo, i: nat) returns (ok: bool)
      requires Valid() && i < ENTRIES && mm.tables[from][i].Swapped? && mm.tables[from][i].slot < SWAP_BITS
      modifies this`dirEntry, this`pageEntry, bits, disk, mm, mm.memMap, mm.tables, mm.data
      ensures Valid() && (View(), ok) == CopySwapped(old(View()), from, to, i)
    {
      var e := mm.tables[from][i];
      var page := AllocPage();
      if page == 0 {
        return false;
      }
      mm.SetBytes(page, disk[e.slot]);
      mm.SetEntry(to, i, e);
      mm.SetEntry(from, i, Present(page, true, true));
      return true;
    }

    method CopyPageTables(fd0: nat, td0: nat, n0: nat) returns (ok: bool)
      requires Valid() && fd0 + n0 <= DIRS && td0 + n0 <= DIRS
      modifies this`dirEntry, this`pageEntry, bits, disk, mm, mm.memMap, mm.pgDir, mm.tables, mm.data
      ensures Valid() && (View(), ok) == CopyTables(old(View()), fd0, td0, n0, if fd0 == 0 then 0xA0 else ENTRIES)
    {
      hide CopyDir;
      var fd: nat, td: nat, size: nat := fd0, td0, n0;
      var span := if fd0 == 0 then 0xA0 else ENTRIES;
      while size > 0
        invariant Valid() && fd + size <= DIRS && td + size <= DIRS
        invariant CopyTables(View(), fd, td, size, span) == CopyTables(old(View()), fd0, td0, n0, span)
      {
        var copied := CopyDirEntry(fd, td, span);
        if !copied {
          return false;
        }
        fd, td, size := fd + 1, td + 1, size - 1;
      }
      return true;
    }

    method CopyDirEntry(fd: nat, td: nat, span: nat) returns (ok: bool)
      requires Valid() && fd < DIRS && td < DIRS && span <= ENTRIES
      modifies this`dirEntry, this`pageEntry, bits, disk, mm, mm.memMap, mm.pgDir, mm.tables, mm.data
      ensures Valid() && (View(), ok) == CopyDir(old(View()), fd, td, span)
    {
      if mm.pgDir[td] != 0 {
        mm.Panic();
        return false;
      }
      if mm.pgDir[fd] == 0 {
        return true;
      }
      var from := mm.pgDir[fd];
      var to := AllocPage();
      if to == 0 {
        return false;
      }
      hide CopyEntries, GetPage;
      mm.SetDir(td, to);
      ok := CopyTable(from, to, span);
    }

    method CopyAddressSpace(fd: nat, td: nat, n: nat) returns (ok: bool)
      requires Valid() && fd + n <= DIRS && td + n <= DIRS
      modifies this, bits, disk, mm, mm.memMap, mm.pgDir, mm.tables, mm.data
      ensures Valid() && (View(), ok) == CopyMem(old(View()), fd, td, n)
    {
      ok := CopyPageTables(fd, td, n);
      if !ok {
        FreePageTables(td, n);
      }
    }
  }
}

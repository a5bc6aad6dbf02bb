/**
 The paging code of 0.11 in its own form: mem_map, the page directory and the
 physical pages are arrays, changed in place by nested loops. Every method is
 proved to compute the function of the same name on the memory value.
*/
module PageMemory {
  import opened PageTables
  import opened CowPaging
  import opened ExecPages

  class Memory {
    const high: nat
    const memMap: array<nat>
    const pgDir: array<PageNo>
    const tables: array<seq<Entry>>
    const data: array<Frame>
    var panicked: bool

    ghost predicate Valid()
      reads this, memMap, pgDir, tables, data
    {
      && memMap as object != pgDir && tables as object != data
      && memMap as object != tables && memMap as object != data
      && pgDir as object != tables && pgDir as object != data
      && Shape(View())
    }

    ghost function View(): Mem
      reads this, memMap, pgDir, tables, data
    {
      Mem(high, memMap[..], pgDir[..], tables[..], data[..], panicked)
    }

    // -------------------------------------------------------- single stores

    method Panic()
      requires Valid()
      modifies this
      ensures Valid() && View() == old(View()).(panic := true)
    {
      panicked := true;
    }

    method SetCount(pn: PageNo, c: nat)
      requires Valid() && LOW_PAGES <= pn
      modifies memMap
      ensures Valid() && View() == old(View()).(count := old(View()).count[pn - LOW_PAGES := c])
    {
      memMap[pn - LOW_PAGES] := c;
    }

    method SetDir(d: nat, pn: PageNo)
      requires Valid() && d < DIRS
      modifies pgDir
      ensures Valid() && View() == old(View()).(dir := old(View()).dir[d := pn])
    {
      pgDir[d] := pn;
    }

    method SetEntry(t: PageNo, i: nat, e: Entry)
      requires Valid() && i < ENTRIES
      modifies tables
      ensures Valid() && View() == Store(old(View()), t, i, e)
    {
      tables[t] := tables[t][i := e];
    }

    method SetBytes(pn: PageNo, f: Frame)
      requires Valid() && |f| == PAGE_SIZE
      modifies data
      ensures Valid() && View() == old(View()).(data := old(View()).data[pn := f])
    {
      data[pn] := f;
    }

    // ---------------------------------------------------- pages and counts

    /** Scans mem_map from the end for a zero byte. */
    method TakePage() returns (page: PageNo)
      requires Valid()
      modifies memMap, tables, data
      ensures Valid() && (View(), page) == GetFreePage(old(View()))
    {
      var n: nat := PAGING_PAGES;
      while n > 0 && memMap[n - 1] != 0
        invariant n <= PAGING_PAGES
        invariant LastZero(memMap[..], n) == LastZero(memMap[..], PAGING_PAGES)
      {
        n := n - 1;
      }
      if n == 0 {
        return 0;
      }
      page := LOW_PAGES + (n - 1);
      memMap[n - 1] := 1;
      tables[page] := NoEntries();
      data[page] := Zeros();
    }

    method GiveBack(pn: PageNo)
      requires Valid()
      modifies this, memMap
      ensures Valid() && View() == FreePage(old(View()), pn)
    {
      if pn < LOW_PAGES {
        return;
      }
      if pn >= high {
        Panic();
        return;
      }
      if memMap[pn - LOW_PAGES] != 0 {
        SetCount(pn, memMap[pn - LOW_PAGES] - 1);
        return;
      }
      Panic();
    }

    // ------------------------------------------------------- table by table

    method FreePageTables(d0: nat, n0: nat)
      requires Valid() && d0 + n0 <= DIRS
      modifies this, memMap, pgDir, tables
      ensures Valid() && View() == FreeTables(old(View()), d0, n0)
    {
      var d: nat, size: nat := d0, n0;
      while size > 0
        invariant Valid() && d + size <= DIRS
        invariant FreeTables(View(), d, size) == FreeTables(old(View()), d0, n0)
      {
        if pgDir[d] != 0 {
          ghost var before := View();
          var table, nr: nat := pgDir[d], 0;
          while nr < ENTRIES
            invariant Valid() && nr <= ENTRIES && pgDir[d] == table
            invariant FreeEntries(View(), table, nr) == FreeEntries(before, table, 0)
          {
            var e := tables[table][nr];
            if e.Present? {
              GiveBack(e.page);
            }
            SetEntry(table, nr, Absent);
            nr := nr + 1;
          }
          GiveBack(table);
          SetDir(d, 0);
          assert View() == FreeDir(before, d);
        }
        d, size := d + 1, size - 1;
      }
    }

    /** The inner loop of copy_page_tables. */
    method CopyTable(from: PageNo, to: PageNo, span: nat)
      requires Valid() && span <= ENTRIES
      modifies this, memMap, tables
      ensures Valid() && View() == CopyEntries(old(View()), from, to, 0, span)
    {
      var i: nat := 0;
      while i < span
        invariant Valid() && i <= span
        invariant CopyEntries(View(), from, to, i, span) == CopyEntries(old(View()), from, to, 0, span)
      {
        if tables[from][i].Present? {
          var e := ReadOnly(tables[from][i]);
          SetEntry(to, i, e);
          if LOW_PAGES <= e.page {
            SetEntry(from, i, e);
            SetCount(e.page, (memMap[e.page - LOW_PAGES] + 1) % 256);
          }
        }
        i := i + 1;
      }
    }

    /** False means out of memory; the caller frees what was copied so far. */
    method CopyPageTables(fd0: nat, td0: nat, n0: nat) returns (ok: bool)
      requires Valid() && fd0 + n0 <= DIRS && td0 + n0 <= DIRS
      modifies this, memMap, pgDir, tables, data
      ensures Valid() && (View(), ok) == CopyTables(old(View()), fd0, td0, n0, if fd0 == 0 then 0xA0 else ENTRIES)
    {
      var fd: nat, td: nat, size: nat := fd0, td0, n0;
      var span := if fd0 == 0 then 0xA0 else ENTRIES;
      while size > 0
        invariant Valid() && fd + size <= DIRS && td + size <= DIRS
        invariant CopyTables(View(), fd, td, size, span) == CopyTables(old(View()), fd0, td0, n0, span)
      {
        if pgDir[td] != 0 {
          Panic();
          return false;
        }
        if pgDir[fd] != 0 {
          var from := pgDir[fd];
          var to := TakePage();
          if to == 0 {
            return false;
          }
          SetDir(td, to);
          CopyTable(from, to, span);
        }
        fd, td, size := fd + 1, td + 1, size - 1;
      }
      return true;
    }

    /** The memory half of fork. */
    method CopyAddressSpace(fd: nat, td: nat, n: nat) returns (ok: bool)
      requires Valid() && fd + n <= DIRS && td + n <= DIRS
      modifies this, memMap, pgDir, tables, data
      ensures Valid() && (View(), ok) == CopyMem(old(View()), fd, td, n)
    {
      ok := CopyPageTables(fd, td, n);
      if !ok {
        FreePageTables(td, n);
      }
    }

    // -------------------------------------------------------------- faults

    method UnWpPage(t: PageNo, i: nat) returns (ok: bool)
      requires Valid() && i < ENTRIES && tables[t][i].Present?
      modifies this, memMap, tables, data
      ensures Valid() && (View(), ok) == UnWp(old(View()), t, i)
    {
      var oldPage := tables[t][i].page;
      if LOW_PAGES <= oldPage && memMap[oldPage - LOW_PAGES] == 1 {
        SetEntry(t, i, tables[t][i].(rw := true));
        return true;
      }
      var newPage := TakePage();
      if newPage == 0 {
        return false;
      }
      if LOW_PAGES <= oldPage {
        SetCount(oldPage, (memMap[oldPage - LOW_PAGES] + 255) % 256);
      }
      SetEntry(t, i, Present(newPage, true, false));
      SetBytes(newPage, data[oldPage]);
      return true;
    }

    method EnsureDir(d: nat) returns (ok: bool)
      requires Valid() && d < DIRS
      modifies this, memMap, pgDir, tables, data
      ensures Valid() && (View(), ok) == EnsureTable(old(View()), d)
    {
      if pgDir[d] != 0 {
        return true;
      }
      var t := TakePage();
      if t == 0 {
        return false;
      }
      SetDir(d, t);
      return true;
    }

    method InstallPage(pn: PageNo, d: nat, i: nat) returns (ok: bool)
      requires Valid() && d < DIRS && i < ENTRIES
      modifies this, memMap, pgDir, tables, data
      ensures Valid() && (View(), ok) == PutPage(old(View()), pn, d, i)
    {
      ok := EnsureDir(d);
      if ok {
        SetEntry(pgDir[d], i, Present(pn, true, false));
      }
    }

    /** The loop of change_ldt, from the top of the new address space down. */
    method MapArguments(pns: seq<PageNo>, d: nat, i: nat)
      requires Valid() && d < DIRS && i < ENTRIES && |pns| <= i + 1
      modifies this, memMap, pgDir, tables, data
      ensures Valid() && View() == PutArgs(old(View()), pns, d, i)
    {
      var k: nat, j: nat := |pns|, i;
      assert pns[..k] == pns;
      while k > 0
        invariant Valid() && k <= |pns| && k <= j + 1 && j < ENTRIES
        invariant PutArgs(View(), pns[..k], d, j) == PutArgs(old(View()), pns, d, i)
      {
        assert pns[..k][..k - 1] == pns[..k - 1];
        var _ := InstallPage(pns[k - 1], d, j);
        k, j := k - 1, if j == 0 then 0 else j - 1;
      }
      assert pns[..k] == [];
    }

    method TryToShare(off: nat, i: nat, ps: nat, cs: nat) returns (res: Sharing)
      requires Valid() && off < SLOT_DIRS && i < ENTRIES && ps < NR_TASKS && cs < NR_TASKS
      modifies this, memMap, pgDir, tables, data
      ensures Valid() && (View(), res) == TryShare(old(View()), off, i, ps, cs)
    {
      var fd, td := DirAt(ps, off), DirAt(cs, off);
      if pgDir[fd] == 0 {
        return NotShared;
      }
      var e := tables[pgDir[fd]][i];
      if !(e.Present? && !e.dirty) || e.page >= high || e.page < LOW_PAGES {
        return NotShared;
      }
      var ok := EnsureDir(td);
      if !ok {
        return OutOfMemory;
      }
      if tables[pgDir[td]][i].Present? {
        Panic();
        return NotShared;
      }
      SetEntry(pgDir[fd], i, ReadOnly(tables[pgDir[fd]][i]));
      SetEntry(pgDir[td], i, tables[pgDir[fd]][i]);
      SetCount(e.page, (memMap[e.page - LOW_PAGES] + 1) % 256);
      return Shared;
    }
  }
}

/**
 States of the swapping kernel reached from an empty one, in which a request that overtakes another
 loses a page, and in which try_to_share goes wrong.
*/
module SwapCases {
  import opened PageTables
  import opened Swap
  import opened SwapIo
  import opened SwapIoContent
  import opened SwapIoRuns
  import opened SwapIoCases
  import C = CowPaging
  import F = SwapFaults

  const SPARE: nat := 5                // pages the kernel starts with
  const TOP: nat := 0x105              // LOW_PAGES + SPARE

  /** No task has a page: the kernel holds five, and everything else is reserved. There is one swap slot, and swap_out
      starts at directory entry `d`. */
  function Bare(d: nat): (s: Paging)
    requires FIRST_DIR <= d < DIRS
    ensures WellFormed(s)
  {
    Paging(
      Mem(TOP, seq(PAGING_PAGES, k => if k < SPARE then 1 else USED), seq(DIRS, _ => 0),
          seq(0x1000, _ => NoEntries()), seq(0x1000, _ => Zeros()), false),
      true, seq(SWAP_BITS, n => n == 1), seq(SWAP_BITS, _ => Zeros()), d, -1, false)
  }

  function Tasks(): (task: seq<Pc>)
    ensures |task| == NR_TASKS
  {
    seq(NR_TASKS, t => if t <= 3 then Ready else Empty)
  }

  /** Four tasks are running, and the buffers have all requests. */
  ghost function Idle(d: nat): State
    requires FIRST_DIR <= d < DIRS
  {
    State(Bare(d), KernelHolds(Bare(d).mem.count, PAGING_PAGES), Tasks(), [], [], NR_REQUEST)
  }

  lemma BareInv(d: nat)
    requires FIRST_DIR <= d < DIRS
    ensures Swap.Inv(Bare(d), KernelHolds(Bare(d).mem.count, PAGING_PAGES), {1})
  {
    var m := Bare(d).mem;
    forall e: nat, i: nat | User(e, i)
      ensures At(m, e, i) == Absent
    {
    }
    forall pn: PageNo
      ensures Users(m, pn) == {} && !IsTable(m, pn)
    {
    }
    forall n: nat
      ensures SlotUsers(m, n) == {}
    {
    }
  }

  /** Page tables and entries are these and no others. */
  ghost predicate Mapped(m: Mem, dirs: map<nat, PageNo>, entries: map<(nat, nat), Entry>) {
    && PageTables.Shape(m)
    && (forall e :: e in dirs ==> SLOT_DIRS <= e < DIRS) && (forall x :: x in entries ==> User(x.0, x.1))
    && (forall e: nat {:trigger m.dir[e]} :: SLOT_DIRS <= e < DIRS ==> m.dir[e] == if e in dirs then dirs[e] else 0)
    && (forall e: nat, i: nat {:trigger At(m, e, i)} :: User(e, i) ==>
          At(m, e, i) == if (e, i) in entries then entries[(e, i)] else Absent)
  }

  /** Page tables, entries and spare pages are these; nothing is on its way, and the cursors are at `d`. */
  ghost predicate Laid(
      s: State, d: nat, dirs: map<nat, PageNo>, entries: map<(nat, nat), Entry>, spare: set<PageNo>) {
    true == (
      && Sound(s, {1}) && Typed(s) && s.queue == s.asked == [] && s.buffers == NR_REQUEST && s.task == Tasks()
      && s.p.mem.high == TOP && s.p.dirEntry == d && s.p.pageEntry == -1 && s.p.bits == Bare(FIRST_DIR).bits
      && s.p.on && s.p.disk == Bare(FIRST_DIR).disk
      && Mapped(s.p.mem, dirs, entries)
      && (forall p: PageNo {:trigger s.held[p]} ::
            s.held[p] == if p in spare then 1 else if TOP <= p then USED else 0)
      && (forall p {:trigger p in spare} :: p in spare ==>
            LOW_PAGES <= p < TOP && s.p.mem.table[p] == NoEntries()))
  }

  lemma LaidIdle(d: nat)
    requires FIRST_DIR <= d < DIRS
    ensures Laid(Idle(d), d, map[], map[], {0x100, 0x101, 0x102, 0x103, 0x104})
  {
    BareInv(d);
    var s := Idle(d);
    hide Swap.Inv;
    IdleInv(s.p, s.held, {1}, s.task, s.buffers);
    InvShape(s, {1});
  }

  lemma DirMapped(m: Mem, dirs: map<nat, PageNo>, entries: map<(nat, nat), Entry>, e: nat, pn: PageNo, r: Mem)
    requires Mapped(m, dirs, entries) && SLOT_DIRS <= e < DIRS && e !in dirs && r == m.(dir := m.dir[e := pn])
    requires forall d: nat, i: nat :: User(d, i) ==> At(r, d, i) == At(m, d, i)
    ensures Mapped(r, dirs[e := pn], entries)
  {
    assert m.dir[e] == 0;
    hide At;
  }

  lemma LaidTable(s: State, d: nat, dirs: map<nat, PageNo>, entries: map<(nat, nat), Entry>, spare: set<PageNo>,
      t: nat, e: nat, pn: PageNo)
    requires Laid(s, d, dirs, entries, spare) && pn in spare && 0 < t <= 3 && SLOT_DIRS <= e < DIRS && SlotOf(e) == t
    requires e !in dirs
    ensures Typed(s) && Enabled(s, PutTable(t, e, pn))
    ensures Laid(Next(s, PutTable(t, e, pn)), d, dirs[e := pn], entries, spare - {pn})
    ensures Next(s, PutTable(t, e, pn)).p.mem.data == s.p.mem.data
  {
    hide Sound, PcShape, At, Mapped;
    assert s.held[pn] == 1;
    assert Spare(s, pn);
    NoTable(s.p.mem, dirs, entries, e);
    var s' := Next(s, PutTable(t, e, pn));
    PutTableInv(s, {1}, t, e, pn);
    DirMapped(s.p.mem, dirs, entries, e, pn, s'.p.mem);
    InvShape(s', {1});
    LetGo(s.held, pn);
  }

  lemma NoTable(m: Mem, dirs: map<nat, PageNo>, entries: map<(nat, nat), Entry>, e: nat)
    requires Mapped(m, dirs, entries) && SLOT_DIRS <= e < DIRS && e !in dirs
    ensures m.dir[e] == 0
  {
  }

  /** Put into memory laid out like this. */
  lemma PutMapped(p: Paging, held: multiset<PageNo>, dirs: map<nat, PageNo>, entries: map<(nat, nat), Entry>, e: nat,
      i: nat, pn: PageNo, f: Frame, dirty: bool)
    requires Swap.Inv(p, held, {1}) && held[pn] == 1 && LOW_PAGES <= pn < p.mem.high && |f| == PAGE_SIZE
    requires Mapped(p.mem, dirs, entries) && User(e, i) && e in dirs && dirs[e] != 0 && (e, i) !in entries
    ensures p.mem.dir[e] == dirs[e] && At(p.mem, e, i) == Absent
    ensures var m := Store(p.mem.(data := p.mem.data[pn := f]), p.mem.dir[e], i, Present(pn, true, dirty));
            Mapped(m, dirs, entries[(e, i) := Present(pn, true, dirty)])
  {
    assert p.mem.dir[e] == dirs[e] && At(p.mem, e, i) == Absent;
    PutEntry(p, held, {1}, e, i, pn, f, dirty);
    hide Swap.Inv, At, Store;
    var m := Store(p.mem.(data := p.mem.data[pn := f]), p.mem.dir[e], i, Present(pn, true, dirty));
    forall a: nat, b: nat | User(a, b) && !(a == e && b == i)
      ensures At(m, a, b) == At(p.mem, a, b)
    {
    }
  }

  lemma LaidPage(s: State, d: nat, dirs: map<nat, PageNo>, entries: map<(nat, nat), Entry>, spare: set<PageNo>,
      t: nat, e: nat, i: nat, pn: PageNo, f: Frame, dirty: bool)
    requires Laid(s, d, dirs, entries, spare) && pn in spare && 0 < t <= 3 && User(e, i) && SlotOf(e) == t
    requires e in dirs && dirs[e] != 0 && (e, i) !in entries && |f| == PAGE_SIZE && dirs[e] !in spare
    ensures Typed(s) && Enabled(s, Put(t, e, i, pn, f, dirty))
    ensures var s' := Next(s, Put(t, e, i, pn, f, dirty));
            && Laid(s', d, dirs, entries[(e, i) := Present(pn, true, dirty)], spare - {pn})
            && |s.p.mem.data| == 0x1000 && s'.p.mem.data == s.p.mem.data[pn := f]
  {
    hide Sound, PcShape, At, Mapped;
    assert s.held[pn] == 1;
    assert Spare(s, pn);
    SoundPaging(s, {1});
    PutMapped(s.p, s.held, dirs, entries, e, i, pn, f, dirty);
    PutInv(s, {1}, t, e, i, pn, f, dirty);
    InvShape(Next(s, Put(t, e, i, pn, f, dirty)), {1});
    LetGo(s.held, pn);
  }

  /** A page is free unless the kernel holds it, it is a page table, or an entry names it. */
  lemma InUse(m: Mem, held: multiset<PageNo>, dirs: map<nat, PageNo>, entries: map<(nat, nat), Entry>, pn: PageNo)
    requires PageTables.Inv(m, held) && Mapped(m, dirs, entries) && LOW_PAGES <= pn
    ensures m.count[pn - LOW_PAGES] == 0 <==>
              held[pn] == 0 && (forall e :: e in dirs ==> dirs[e] != pn)
              && (forall x :: x in entries ==> !entries[x].Names(pn))
  {
    forall e | e in dirs && dirs[e] == pn
      ensures IsTable(m, pn)
    {
      assert m.dir[e] == pn;
    }
    forall x | x in entries && entries[x].Names(pn)
      ensures x in Users(m, pn)
    {
      assert At(m, x.0, x.1).Names(pn);
    }
    if (forall x :: x in entries ==> !entries[x].Names(pn)) {
      assert Users(m, pn) == {};
    }
  }

  // ---------------------------------------------------------- swap_out's first look

  /** The scan takes the first entry it looks at. */
  lemma FirstTried(s: Paging, i: nat, counter: int)
    requires WellFormed(s) && s.pageEntry == i - 1 && i < ENTRIES && s.mem.dir[s.dirEntry] != 0 && counter > 0
    requires var e := At(s.mem, s.dirEntry, i);
             e.Present? && e.dirty && LOW_PAGES <= e.page && s.mem.count[e.page - LOW_PAGES] == 1
    requires GetSwapPage(s).1 != 0
    ensures var (r, ok, tries) := ScanOut(s, counter, []);
            ok && tries == [(s.dirEntry, i)] && r.dirEntry == s.dirEntry && r.pageEntry == i
  {
    var tries: seq<(nat, nat)> := [];
    assert ScanOut(s, counter, tries) == TryNext(s.(pageEntry := i), counter - 1, tries);
  }

  /** In the table the cursor is at. */
  lemma FirstDirty(s: Paging, i: nat)
    requires WellFormed(s) && s.pageEntry == i - 1 && i < ENTRIES && s.mem.dir[s.dirEntry] != 0
    requires var e := At(s.mem, s.dirEntry, i);
             e.Present? && e.dirty && LOW_PAGES <= e.page && s.mem.count[e.page - LOW_PAGES] == 1
    requires GetSwapPage(s).1 != 0
    ensures var (r, ok, tries) := SwapOut(s);
            ok && tries == [(s.dirEntry, i)] && r.dirEntry == s.dirEntry && r.pageEntry == i
  {
    FirstTried(s, i, VM_PAGES);
    hide ScanOut, At, GetSwapPage;
    assert SkipAbsent(s.mem, s.dirEntry, VM_PAGES) == (s.dirEntry, VM_PAGES);
    assert s.(dirEntry := s.dirEntry) == s;
  }

  /** It goes on in the next table with the entry number it has reached. */
  lemma NextDirty(s: Paging, i: nat)
    requires WellFormed(s) && s.pageEntry == i - 1 && i < ENTRIES && s.dirEntry + 1 < DIRS
    requires s.mem.dir[s.dirEntry] == 0 && s.mem.dir[s.dirEntry + 1] != 0
    requires var e := At(s.mem, s.dirEntry + 1, i);
             e.Present? && e.dirty && LOW_PAGES <= e.page && s.mem.count[e.page - LOW_PAGES] == 1
    requires GetSwapPage(s).1 != 0
    ensures var (_, ok, tries) := SwapOut(s);
            ok && tries == [(s.dirEntry + 1, i)]
  {
    var d := s.dirEntry + 1;
    FirstTried(s.(dirEntry := d), i, VM_PAGES - 1024);
    hide ScanOut, At, GetSwapPage;
    assert NextDir(s.dirEntry) == d;
    assert SkipAbsent(s.mem, d, VM_PAGES - 1024) == (d, VM_PAGES - 1024);
    assert SkipAbsent(s.mem, s.dirEntry, VM_PAGES) == (d, VM_PAGES - 1024);
  }

  // ----------------------------------------------------------------- the start

  function Bytes(v: Byte): (f: Frame)
    ensures |f| == PAGE_SIZE
  {
    seq(PAGE_SIZE, _ => v)
  }

  const TASK2: nat := 47               // the last directory entry of task 2
  const TASK3: nat := 48               // the first of task 3

  /** Tasks 2 and 3 get a page table and a dirty page each; then a page is wanted on behalf of task 1. */
  function PackSteps(): seq<Step> {
    [PutTable(2, TASK2, 0x100), PutTable(3, TASK3, 0x101), Put(2, TASK2, 0, 0x102, Bytes(1), true),
     Put(3, TASK3, 1, 0x103, Bytes(2), true), Ask(1)]
  }

  function PackDirs(): map<nat, PageNo> { map[TASK2 := 0x100, TASK3 := 0x101] }

  function PackEntries(): map<(nat, nat), Entry> {
    map[(TASK2, 0) := Present(0x102, true, true), (TASK3, 1) := Present(0x103, true, true)]
  }

  /** The state then: no page is free. */
  ghost predicate Packed(s: State) {
    && Sound(s, {1}) && Typed(s) && s.queue == s.asked == [] && s.buffers == NR_REQUEST
    && s.task == Tasks()[1 := Needing(Page)]
    && s.p.mem.high == TOP && s.p.dirEntry == TASK2 && s.p.pageEntry == -1 && s.p.on && s.p.bits[1]
    && s.p.disk[1] == Zeros() && Mapped(s.p.mem, PackDirs(), PackEntries())
    && s.p.mem.data[0x102] == Bytes(1) && s.p.mem.data[0x103] == Bytes(2)
    && (forall p: PageNo {:trigger s.held[p]} :: s.held[p] == if p == 0x104 then 1 else if TOP <= p then USED else 0)
  }

  lemma LaidAsk(s: State, spare: set<PageNo>)
    requires Laid(s, TASK2, PackDirs(), PackEntries(), spare) && spare == {0x104}
    requires s.p.mem.data[0x102] == Bytes(1) && s.p.mem.data[0x103] == Bytes(2)
    ensures Typed(s) && Enabled(s, Ask(1)) && Packed(Next(s, Ask(1)))
  {
    StepInv(s, {1}, Ask(1));
    InvShape(Next(s, Ask(1)), {1});
    hide Sound, PcShape, Mapped, PackDirs, PackEntries;
  }

  lemma PackRun() returns (s: State)
    ensures Legal(Idle(TASK2), PackSteps()) && s == Run(Idle(TASK2), PackSteps()) && Packed(s)
  {
    hide Laid, Legal, Run, Next, Enabled, Idle, Bytes, Packed, Typed;
    var all: set<PageNo> := {0x100, 0x101, 0x102, 0x103, 0x104};
    var none: map<(nat, nat), Entry> := map[];
    var one: map<(nat, nat), Entry> := map[(TASK2, 0) := Present(0x102, true, true)];
    var step0, step1 := PutTable(2, TASK2, 0x100), PutTable(3, TASK3, 0x101);
    var step2, step3 := Put(2, TASK2, 0, 0x102, Bytes(1), true), Put(3, TASK3, 1, 0x103, Bytes(2), true);
    var s0 := Idle(TASK2);
    LaidIdle(TASK2);
    LaidTable(s0, TASK2, map[], none, all, 2, TASK2, 0x100);
    var s1 := Next(s0, step0);
    assert all - {0x100} == {0x101, 0x102, 0x103, 0x104};
    LaidTable(s1, TASK2, map[TASK2 := 0x100], none, all - {0x100}, 3, TASK3, 0x101);
    var s2 := Next(s1, step1);
    assert map[TASK2 := 0x100][TASK3 := 0x101] == PackDirs() && all - {0x100} - {0x101} == {0x102, 0x103, 0x104};
    LaidPage(s2, TASK2, PackDirs(), none, {0x102, 0x103, 0x104}, 2, TASK2, 0, 0x102, Bytes(1), true);
    var s3 := Next(s2, step2);
    var two: set<PageNo> := {0x103, 0x104};
    assert none[(TASK2, 0) := Present(0x102, true, true)] == one && {0x102, 0x103, 0x104} - {0x102} == two;
    LaidPage(s3, TASK2, PackDirs(), one, two, 3, TASK3, 1, 0x103, Bytes(2), true);
    var s4 := Next(s3, step3);
    assert one[(TASK3, 1) := Present(0x103, true, true)] == PackEntries() && two - {0x103} == {0x104};
    PackBytes(s2.p.mem.data, s3.p.mem.data, s4.p.mem.data);
    LaidAsk(s4, {0x104});
    s := Next(s4, Ask(1));
    RunFive(s0, step0, step1, step2, step3, Ask(1));
  }

  lemma PackBytes(a: seq<Frame>, b: seq<Frame>, c: seq<Frame>)
    requires |a| == 0x1000 && b == a[0x102 := Bytes(1)] && c == b[0x103 := Bytes(2)]
    ensures c[0x102] == Bytes(1) && c[0x103] == Bytes(2)
  {
  }

  /** Five steps one after the other. */
  lemma RunFive(s: State, a: Step, b: Step, c: Step, d: Step, e: Step)
    requires Typed(s) && Enabled(s, a)
    requires var s1 := Next(s, a); Typed(s1) && Enabled(s1, b)
    requires var s2 := Next(Next(s, a), b); Typed(s2) && Enabled(s2, c)
    requires var s3 := Next(Next(Next(s, a), b), c); Typed(s3) && Enabled(s3, d)
    requires var s4 := Next(Next(Next(Next(s, a), b), c), d); Typed(s4) && Enabled(s4, e)
    ensures Legal(s, [a, b, c, d, e])
    ensures Run(s, [a, b, c, d, e]) == Next(Next(Next(Next(Next(s, a), b), c), d), e)
  {
    hide Typed, Enabled, Next, Legal, Run;
    var s1 := Next(s, a);
    var s2 := Next(s1, b);
    var s3 := Next(s2, c);
    var s4 := Next(s3, d);
    RunNone(Next(s4, e));
    assert [e] + [] == [e] && [d] + [e] == [d, e] && [c] + [d, e] == [c, d, e];
    assert [b] + [c, d, e] == [b, c, d, e] && [a] + [b, c, d, e] == [a, b, c, d, e];
    RunFirst(s4, e, []);
    RunFirst(s3, d, [e]);
    RunFirst(s2, c, [d, e]);
    RunFirst(s1, b, [c, d, e]);
    RunFirst(s, a, [b, c, d, e]);
  }

  // --------------------------------------------------------- a read overtakes a write

  lemma PackedCounts(s: State)
    requires Packed(s)
    ensures GetFreePage(s.p.mem).1 == 0
    ensures s.p.mem.count[0x102 - LOW_PAGES] == 1 && At(s.p.mem, TASK2, 0) == Present(0x102, true, true)
    ensures GetSwapPage(s.p).1 == 1
  {
    SoundPaging(s, {1});
    SoundCounts(s, {1}, TASK2, 0);
    forall k: nat | k < PAGING_PAGES
      ensures s.p.mem.count[k] != 0
    {
      InUse(s.p.mem, s.held, PackDirs(), PackEntries(), LOW_PAGES + k);
      assert (TASK2, 0) in PackEntries() && (TASK3, 1) in PackEntries() && TASK2 in PackDirs() && TASK3 in PackDirs();
    }
  }

  /** A page that a task may write is counted once. */
  lemma SoundCounts(s: State, usable: set<nat>, d: nat, i: nat)
    requires Sound(s, usable) && User(d, i)
    ensures WellFormed(s.p) && PageTables.Inv(s.p.mem, s.held)
    ensures var e := At(s.p.mem, d, i);
            e.Present? && e.rw ==> LOW_PAGES <= e.page && s.p.mem.count[e.page - LOW_PAGES] == 1
  {
    hide Slots, PcsOk, PagesOk, LineOk;
  }

  lemma PackedCrowded(s: State)
    requires Packed(s)
    ensures Crowded(s, {1}, 1, 2, TASK2, 0, 0x104)
  {
    PackedCounts(s);
    hide Sound, GetFreePage, GetSwapPage, SwapOut, PcShape, At;
    FirstDirty(s.p, 0);
    assert s.held[0x104] == 1;
    assert Runs(s, 2, TASK2);
  }

  /** From an empty kernel: the dirty page of task 2 is written to the only slot and waits for a request; the task
      wants it back at once, its read waits too, gets a request first, and the task ends up with what the slot had
      held before. */
  lemma ReadOvertakesWrite()
    ensures var steps := PackSteps() + (CrowdedSteps(1, 2, TASK2, 0, 0x104) + [Admit(1), Complete, Wake(2)]);
            && Legal(Idle(TASK2), PackSteps()) && Legal(Idle(TASK2), steps)
            && (var s, s' := Run(Idle(TASK2), PackSteps()), Run(Idle(TASK2), steps);
                && WellFormed(s.p) && WellFormed(s'.p)
                && Held(s.p, TASK2, 0) == Some(Bytes(1)) && Held(s'.p, TASK2, 0) == Some(Zeros())
                && Zeros() != Bytes(1))
  {
    var s := PackRun();
    hide Legal, Run, Bytes, Idle, PackSteps, Crowded, CrowdedSteps, Packed;
    PackedCrowded(s);
    PackedHeld(s);
    OvertakenPage(s, {1}, 1, 2, TASK2, 0, 0x104);
    LegalConcat(Idle(TASK2), PackSteps(), CrowdedSteps(1, 2, TASK2, 0, 0x104) + [Admit(1), Complete, Wake(2)]);
    BytesDiffer();
  }

  lemma PackedHeld(s: State)
    requires Packed(s)
    ensures WellFormed(s.p) && Held(s.p, TASK2, 0) == Some(Bytes(1)) && s.p.disk[SlotTaken(s)] == Zeros()
  {
    PackedCounts(s);
  }

  lemma BytesDiffer()
    ensures Zeros() != Bytes(1) && Bytes(1) != Bytes(2)
  {
    assert Bytes(1)[0] == 1 && Bytes(2)[0] == 2 && Zeros()[0] == 0;
  }

  // -------------------------------------------------------- a write overtakes a write

  function OldWrite(): Request { Request(1, true, 0x102, 1) }

  /** Entries, bytes and cursors while the write of task 2's page waits; `dirs` and `entries` are what there is. */
  ghost predicate Pending(s: State, task: seq<Pc>, dirs: map<nat, PageNo>, entries: map<(nat, nat), Entry>) {
    && Sound(s, {1}) && Typed(s) && s.queue == [] && s.asked == [OldWrite()] && s.buffers == NR_REQUEST
    && |task| == NR_TASKS && s.task == task
    && s.p.mem.high == TOP && s.p.dirEntry == TASK2 && s.p.pageEntry == 0 && s.p.on
    && Mapped(s.p.mem, dirs, entries)
    && s.p.mem.data[0x102] == Bytes(1) && s.p.mem.data[0x103] == Bytes(2)
    && (forall p: PageNo {:trigger s.held[p]} ::
          s.held[p] == if p == 0x102 || p == 0x104 then 1 else if TOP <= p then USED else 0)
  }

  function MovingTasks(): (task: seq<Pc>)
    ensures |task| == NR_TASKS
  {
    Tasks()[1 := Moving(OldWrite(), Page, false)]
  }

  function EvictedEntries(): map<(nat, nat), Entry> {
    map[(TASK2, 0) := Swapped(1), (TASK3, 1) := Present(0x103, true, true)]
  }

  lemma MappedStore(m: Mem, d: nat, i: nat)
    requires Mapped(m, PackDirs(), PackEntries()) && TablesApart(m)
    ensures Mapped(Store(m, m.dir[TASK2], 0, Swapped(1)), PackDirs(), EvictedEntries())
  {
    assert m.dir[TASK2] == 0x100;
    StoreAt(m, TASK2, 0, Swapped(1));
    hide At, Store;
  }

  lemma PackedReclaim(s: State)
    requires Packed(s)
    ensures Enabled(s, Reclaim(1))
    ensures Pending(Next(s, Reclaim(1)), MovingTasks(), PackDirs(), EvictedEntries())
  {
    PackedCounts(s);
    SoundCounts(s, {1}, TASK2, 0);
    ReclaimedInv(s, {1}, 1);
    InvShape(Reclaimed(s, 1), {1});
    MappedStore(s.p.mem, TASK2, 0);
    hide Sound, GetFreePage, SwapOut, PcShape, At, TryToSwapOut, Mapped, Reclaimed, PageTables.Inv, Store;
    FirstDirty(s.p, 0);
    ReclaimedStart(s, 1, TASK2, 0);
  }

  lemma {:induction false} EntriesCursor(s: Paging, t: PageNo, i: nat)
    requires WellFormed(s) && i <= ENTRIES
    ensures var r := FreeEntries(s, t, i);
            r.dirEntry == s.dirEntry && r.pageEntry == s.pageEntry
    decreases |s.mem.table[t]| - i
  {
    if i < ENTRIES {
      EntriesCursor(FreeEntry(s, t, i), t, i + 1);
    }
  }

  /** Freeing an address space does not move the cursors of swap_out. */
  lemma {:induction false} TablesCursor(s: Paging, d: nat, n: nat)
    requires WellFormed(s) && d + n <= DIRS
    ensures var r := FreeTables(s, d, n);
            r.dirEntry == s.dirEntry && r.pageEntry == s.pageEntry
    decreases n
  {
    if n > 0 {
      if s.mem.dir[d] != 0 {
        EntriesCursor(s, s.mem.dir[d], 0);
      }
      TablesCursor(FreeDir(s, d), d + 1, n - 1);
    }
  }

  function LeftDirs(): map<nat, PageNo> { map[TASK3 := 0x101] }

  function LeftEntries(): map<(nat, nat), Entry> { map[(TASK3, 1) := Present(0x103, true, true)] }

  lemma PendingExit(s: State)
    requires Pending(s, MovingTasks(), PackDirs(), EvictedEntries())
    ensures Enabled(s, Exit(2))
    ensures Pending(Next(s, Exit(2)), MovingTasks()[2 := Empty], LeftDirs(), LeftEntries())
  {
    hide Sound, PcShape, FreeTables, Freed, Mapped, PackDirs, EvictedEntries, LeftDirs, LeftEntries, Bytes;
    ExitInv(s, {1}, 2);
    InvShape(Next(s, Exit(2)), {1});
    TablesCursor(s.p, FirstDir(2), SLOT_DIRS);
    ExitMapped(s.p, s.held, FreeTables(s.p, FirstDir(2), SLOT_DIRS));
  }

  lemma ExitMapped(s: Paging, held: multiset<PageNo>, r: Paging)
    requires Freed(s, held, {1}, FirstDir(2), SLOT_DIRS, r) && Mapped(s.mem, PackDirs(), EvictedEntries())
    ensures Mapped(r.mem, LeftDirs(), LeftEntries())
    ensures r.mem.data == s.mem.data && r.mem.high == s.mem.high && r.on == s.on
  {
    hide Swap.Inv, At;
    ShapeOf(r, held);
    forall e: nat, i: nat | User(e, i)
      ensures At(r.mem, e, i) == if (e, i) in LeftEntries() then LeftEntries()[(e, i)] else Absent
    {
      assert At(s.mem, e, i) == if (e, i) in EvictedEntries() then EvictedEntries()[(e, i)] else Absent;
    }
  }

  lemma ShapeOf(r: Paging, held: multiset<PageNo>)
    requires Swap.Inv(r, held, {1})
    ensures WellFormed(r)
  {
    hide PageTables.Inv, Slots;
  }

  /** What is free then: the page of task 2's table, and the slot. */
  lemma PendingFree(s: State)
    requires Pending(s, MovingTasks()[2 := Empty], LeftDirs(), LeftEntries())
    ensures forall k :: 0 <= k < PAGING_PAGES ==> (s.p.mem.count[k] == 0 <==> k == 0)
    ensures s.p.bits[1]
  {
    SoundPaging(s, {1});
    forall k: nat | k < PAGING_PAGES
      ensures s.p.mem.count[k] == 0 <==> k == 0
    {
      InUse(s.p.mem, s.held, LeftDirs(), LeftEntries(), LOW_PAGES + k);
      assert (TASK3, 1) in LeftEntries() && TASK3 in LeftDirs();
    }
    assert SlotUsers(s.p.mem, 1) == {};
  }

  /** Task 3 gets the page, the buffers give their requests back, and task 3 wants another page. */
  function ReuseSteps(): seq<Step> {
    [Ask(3), Take(3), Buffers(0), Ask(3)]
  }

  /** Memory once the free page is the kernel's: no other is left, and swap_out goes on with task 3. */
  lemma PendingTake(s: State)
    requires Pending(s, MovingTasks()[2 := Empty], LeftDirs(), LeftEntries())
    ensures var (m, pn) := GetFreePage(s.p.mem);
            && pn != 0 && GetFreePage(m).1 == 0 && At(m, TASK3, 1) == Present(0x103, true, true)
            && m.data[0x102] == Bytes(1) && m.data[0x103] == Bytes(2)
            && (var p := s.p.(mem := m);
                WellFormed(p) && GetSwapPage(p).1 == 1
                && (var (_, ok, tries) := SwapOut(p); ok && tries == [(TASK3, 1)]))
  {
    PendingFree(s);
    SoundPaging(s, {1});
    SoundCounts(s, {1}, TASK3, 1);
    GetFreePageInv(s.p.mem, s.held);
    var (m, pn) := GetFreePage(s.p.mem);
    assert At(s.p.mem, TASK3, 1) == Present(0x103, true, true);
    assert m.dir[TASK2] == 0 && m.dir[TASK3] == 0x101;
    assert s.p.mem.count[0] == 0 && LastZero(s.p.mem.count, PAGING_PAGES) == 0;
    hide Swap.Inv, PageTables.Inv, Sound, SwapOut, At;
    assert m.count == s.p.mem.count[0 := 1] && pn == LOW_PAGES;
    NextDirty(s.p.(mem := m), 1);
  }

  lemma StepSound(s: State, step: Step)
    requires Sound(s, {1}) && Typed(s) && Enabled(s, step)
    ensures Sound(Next(s, step), {1}) && Typed(Next(s, step))
  {
    hide Sound, Typed, Enabled, Next;
    StepInv(s, {1}, step);
    InvShape(Next(s, step), {1});
  }

  lemma RunFour(s: State, a: Step, b: Step, c: Step, d: Step)
    requires Typed(s) && Enabled(s, a)
    requires var s1 := Next(s, a); Typed(s1) && Enabled(s1, b)
    requires var s2 := Next(Next(s, a), b); Typed(s2) && Enabled(s2, c)
    requires var s3 := Next(Next(Next(s, a), b), c); Typed(s3) && Enabled(s3, d)
    ensures Legal(s, [a, b, c, d]) && Run(s, [a, b, c, d]) == Next(Next(Next(Next(s, a), b), c), d)
  {
    hide Typed, Enabled, Next, Legal, Run;
    var s1 := Next(s, a);
    var s2 := Next(s1, b);
    var s3 := Next(s2, c);
    RunNone(Next(s3, d));
    assert [d] + [] == [d] && [c] + [d] == [c, d] && [b] + [c, d] == [b, c, d] && [a] + [b, c, d] == [a, b, c, d];
    RunFirst(s3, d, []);
    RunFirst(s2, c, [d]);
    RunFirst(s1, b, [c, d]);
    RunFirst(s, a, [b, c, d]);
  }

  /** The state after those steps. */
  ghost function Reusing(s: State): State
    requires Typed(s)
  {
    var (m, pn) := GetFreePage(s.p.mem);
    s.(p := s.p.(mem := m), held := s.held + multiset{pn}, task := s.task[3 := Needing(Page)], buffers := 0)
  }

  lemma ReuseRun(s: State)
    requires Sound(s, {1}) && Typed(s) && s.task[3] == Ready && s.queue == [] && GetFreePage(s.p.mem).1 != 0
    ensures Legal(s, ReuseSteps()) && Run(s, ReuseSteps()) == Reusing(s)
    ensures Sound(Reusing(s), {1}) && Typed(Reusing(s))
  {
    hide Sound, PcShape, GetFreePage, WellFormed, Legal, Run;
    StepSound(s, Ask(3));
    var s1 := Next(s, Ask(3));
    assert s1 == s.(task := s.task[3 := Needing(Page)]);
    StepSound(s1, Take(3));
    var s2 := Next(s1, Take(3));
    assert s2 == Reusing(s).(task := s.task[3 := Ready], buffers := s.buffers);
    StepSound(s2, Buffers(0));
    var s3 := Next(s2, Buffers(0));
    StepSound(s3, Ask(3));
    assert Next(s3, Ask(3)) == Reusing(s);
    RunFour(s, Ask(3), Take(3), Buffers(0), Ask(3));
  }

  lemma PendingReuse(s: State)
    requires Pending(s, MovingTasks()[2 := Empty], LeftDirs(), LeftEntries())
    ensures Legal(s, ReuseSteps())
    ensures var s' := Run(s, ReuseSteps());
            && Reused(s', {1}, 3, TASK3, 1) && s'.asked[0].page == 0x102
            && s'.p.mem.data[0x102] == Bytes(1) && s'.p.mem.data[0x103] == Bytes(2)
            && At(s'.p.mem, TASK3, 1) == Present(0x103, true, true)
  {
    hide Sound, PcShape, GetFreePage, SwapOut, At, Mapped, Legal, Run, GetSwapPage, WellFormed, Bytes;
    PendingTake(s);
    ReuseRun(s);
  }

  function EvictThenExit(): seq<Step> {
    [Reclaim(1), Exit(2)]
  }

  lemma RunTwo(s: State, a: Step, b: Step)
    requires Typed(s) && Enabled(s, a)
    requires var s1 := Next(s, a); Typed(s1) && Enabled(s1, b)
    ensures Legal(s, [a, b]) && Run(s, [a, b]) == Next(Next(s, a), b)
  {
    hide Typed, Enabled, Next, Legal, Run;
    var s1 := Next(s, a);
    RunNone(Next(s1, b));
    assert [b] + [] == [b] && [a] + [b] == [a, b];
    RunFirst(s1, b, []);
    RunFirst(s, a, [b]);
  }

  /** From an empty kernel: the dirty page of task 2 is to be written to the only slot and waits for a request; task 2
      exits, the page of task 3 goes to the slot and gets a request at once; when both are written, what task 3 has
      there is the page of task 2. */
  lemma WriteOvertakesWrite()
    ensures var before := PackSteps() + (EvictThenExit() + ReuseSteps());
            var steps := before + ([Reclaim(3)] + [Admit(0), Complete, Complete]);
            && Legal(Idle(TASK2), before) && Legal(Idle(TASK2), steps)
            && (var s, s' := Run(Idle(TASK2), before), Run(Idle(TASK2), steps);
                && WellFormed(s.p) && WellFormed(s'.p) && s'.queue == s'.asked == []
                && Held(s.p, TASK3, 1) == Some(Bytes(2)) && Held(s'.p, TASK3, 1) == Some(Bytes(1))
                && Bytes(1) != Bytes(2))
  {
    var s := PackRun();
    hide Packed, Pending, Reused, Legal, Run, Next, Enabled, Typed, Sound, Bytes, Idle, PackSteps;
    hide EvictedEntries, LeftEntries, At, WellFormed;
    PackedReclaim(s);
    PackedTyped(s);
    var s1 := Next(s, Reclaim(1));
    PendingTyped(s1, MovingTasks(), PackDirs(), EvictedEntries());
    PendingExit(s1);
    var s2 := Next(s1, Exit(2));
    RunTwo(s, Reclaim(1), Exit(2));
    PendingReuse(s2);
    LegalConcat(s, EvictThenExit(), ReuseSteps());
    LegalConcat(Idle(TASK2), PackSteps(), EvictThenExit() + ReuseSteps());
    var s3 := Run(s2, ReuseSteps());
    ReusedHeld(s3);
    OvertakenWrite(s3, {1}, 3, TASK3, 1);
    LegalConcat(Idle(TASK2), PackSteps() + (EvictThenExit() + ReuseSteps()),
        [Reclaim(3)] + [Admit(0), Complete, Complete]);
    BytesDiffer();
  }

  lemma PackedTyped(s: State)
    requires Packed(s)
    ensures Typed(s)
  {
  }

  lemma PendingTyped(s: State, task: seq<Pc>, dirs: map<nat, PageNo>, entries: map<(nat, nat), Entry>)
    requires Pending(s, task, dirs, entries)
    ensures Typed(s)
  {
  }

  lemma ReusedHeld(s: State)
    requires Reused(s, {1}, 3, TASK3, 1) && At(s.p.mem, TASK3, 1) == Present(0x103, true, true)
    ensures WellFormed(s.p) && Held(s.p, TASK3, 1) == Some(s.p.mem.data[0x103])
  {
  }

  // ------------------------------------------------- sharing a page that has gone

  const TASK1: nat := 16               // the first directory entry of task 1

  /** Task 1 gets a page table and a clean page. */
  function CleanSteps(): seq<Step> {
    [PutTable(1, TASK1, 0x100), Put(1, TASK1, 0, 0x101, Zeros(), false)]
  }

  lemma CleanRun() returns (s: State)
    ensures Legal(Idle(TASK1), CleanSteps()) && s == Run(Idle(TASK1), CleanSteps())
    ensures Laid(s, TASK1, map[TASK1 := 0x100], map[(TASK1, 0) := Present(0x101, true, false)], {0x102, 0x103, 0x104})
  {
    hide Laid, Legal, Run, Next, Enabled, Idle, Typed;
    var all: set<PageNo> := {0x100, 0x101, 0x102, 0x103, 0x104};
    var none: map<(nat, nat), Entry> := map[];
    var s0 := Idle(TASK1);
    LaidIdle(TASK1);
    LaidTable(s0, TASK1, map[], none, all, 1, TASK1, 0x100);
    var s1 := Next(s0, PutTable(1, TASK1, 0x100));
    LaidPage(s1, TASK1, map[TASK1 := 0x100], none, all - {0x100}, 1, TASK1, 0, 0x101, Zeros(), false);
    s := Next(s1, Put(1, TASK1, 0, 0x101, Zeros(), false));
    assert all - {0x100} - {0x101} == {0x102, 0x103, 0x104};
    assert none[(TASK1, 0) := Present(0x101, true, false)] == map[(TASK1, 0) := Present(0x101, true, false)];
    RunTwo(s0, PutTable(1, TASK1, 0x100), Put(1, TASK1, 0, 0x101, Zeros(), false));
  }

  /** What get_free_page does then: the clean page leaves its entry, and is the page it gives. */
  lemma CleanTaken(s: State)
    requires Laid(s, TASK1, map[TASK1 := 0x100], map[(TASK1, 0) := Present(0x101, true, false)], {0x102, 0x103, 0x104})
    ensures WellFormed(s.p) && At(s.p.mem, TASK1, 0) == Present(0x101, true, false) && s.p.mem.high == TOP
    ensures s.p.mem.dir[32] == 0
    ensures var (r, pn) := GetPage(s.p);
            pn == 0x101 && At(r.mem, TASK1, 0) == Absent
  {
    var dirs: map<nat, PageNo>, entries: map<(nat, nat), Entry> :=
      map[TASK1 := 0x100], map[(TASK1, 0) := Present(0x101, true, false)];
    SoundPaging(s, {1});
    SoundCounts(s, {1}, TASK1, 0);
    forall k: nat | k < PAGING_PAGES
      ensures s.p.mem.count[k] != 0
    {
      InUse(s.p.mem, s.held, dirs, entries, LOW_PAGES + k);
      assert (TASK1, 0) in entries && TASK1 in dirs && s.p.mem.dir[TASK1] == 0x100;
    }
    assert At(s.p.mem, TASK1, 0) == Present(0x101, true, false) && s.p.mem.dir[TASK1] == 0x100;
    hide SwapOut, GetPage, GetFreePage, Sound, PageTables.Inv, Swap.Inv;
    F.NoneFree(s.p.mem);
    F.FirstDrop(s.p, 0);
    var r := SwapOut(s.p).0;
    F.GetPageAgain(s.p, r);
    F.TakeOnly(r, 0x101);
  }

  /** The page becomes the table; nothing is left to share. */
  lemma SharedInto(s: Paging, held: multiset<PageNo>)
    requires Swap.Inv(s, held, {1}) && WellFormed(s) && s.mem.dir[32] == 0 && s.mem.high == TOP
    requires At(s.mem, TASK1, 0) == Present(0x101, true, false) && GetPage(s).1 == 0x101
    ensures var (r, done) := F.TryShare(s, TASK1, 32, 0);
            done.Shared? && r.mem.dir[32] == 0x101
  {
    hide Swap.Inv, GetPage, F.ShareOver;
    F.ShareNewTable(s, held, {1}, TASK1, 32, 0);
    assert F.TryShare(s, TASK1, 32, 0).1.Shared?;
    ShareDir(s);
  }

  lemma ShareDir(s: Paging)
    requires WellFormed(s) && s.mem.dir[32] == 0 && GetPage(s).1 != 0 && F.TryShare(s, TASK1, 32, 0).1.Shared?
    ensures F.TryShare(s, TASK1, 32, 0).0.mem.dir[32] == GetPage(s).1
  {
    hide GetPage;
  }

  /** From an empty kernel: task 2, with no page table, is to share the clean page of task 1; get_free_page takes that
      very page for the table, and the balance is lost. */
  lemma SharedPageGone()
    ensures Legal(Idle(TASK1), CleanSteps())
    ensures var s := Run(Idle(TASK1), CleanSteps());
            && Swap.Inv(s.p, s.held, {1}) && At(s.p.mem, TASK1, 0) == Present(0x101, true, false)
            && (var (r, done) := F.TryShare(s.p, TASK1, 32, 0);
                && done.Shared? && r.mem.dir[32] == 0x101
                && !Swap.Inv(r, s.held, {1}))
  {
    var s := CleanRun();
    CleanTaken(s);
    SoundPaging(s, {1});
    hide Swap.Inv, GetPage, Sound, Legal, Run, Idle, CleanSteps, F.TryShare, Laid;
    SharedInto(s.p, s.held);
    F.TryShareExact(s.p, s.held, {1}, TASK1, 32, 0);
  }
}

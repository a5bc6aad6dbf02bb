/**
 Requests that overtake earlier ones for the same slot: the two ways a page is lost, with states the
 kernel reaches in which each of them happens.
*/
module SwapIoCases {
  import opened PageTables
  import opened Swap
  import opened SwapIo
  import opened SwapIoContent
  import opened SwapIoRuns

  // ------------------------------------------------------- a write overtaken by a read

  /** A read of a slot waits for a request, perhaps behind a write of that slot, and gets one first. */
  ghost predicate Overtaking(s: State, usable: set<nat>, b: nat, d: nat, i: nat) {
    && Sound(s, usable) && Typed(s) && s.queue == [] && Room(s) && b < |s.asked| && User(d, i)
    && (var r := s.asked[b]; !r.write && s.task[r.task] == Moving(r, Bring(d, i), false))
  }

  function OvertakingSteps(s: State, b: nat): seq<Step>
    requires b < |s.asked|
  {
    [Admit(b), Complete, Wake(s.asked[b].task)]
  }

  lemma AskedReading(s: State, usable: set<nat>, b: nat, d: nat, i: nat)
    requires Overtaking(s, usable, b, d, i)
    ensures var r := s.asked[b];
            && At(s.p.mem, d, i) == Swapped(r.slot) && s.p.mem.dir[d] != 0 && 0 < r.slot < SWAP_BITS
            && LOW_PAGES <= r.page < s.p.mem.high && s.held[r.page] == 1
  {
    var r := s.asked[b];
    assert PcOk(s.p.mem, s.task, r.task);
    MovingHeld(s, usable, r.task);
  }

  /** The state after the three steps: the entry names the page, and the page has what was on the disk. */
  lemma OvertakenRead(s: State, usable: set<nat>, b: nat, d: nat, i: nat)
    requires Overtaking(s, usable, b, d, i)
    ensures var r := s.asked[b];
            var s1 := Next(s, Admit(b));
            && Typed(s1) && s1.queue == [r]
            && (var s2 := Completed(s1);
                && Sound(s2, usable) && Typed(s2) && s2.task[r.task] == Moving(r, Bring(d, i), true)
                && s2.p.mem.dir == s.p.mem.dir && s2.p.mem.data[r.page] == s.p.disk[r.slot]
                && At(s2.p.mem, d, i) == Swapped(r.slot)
                && s2.held == s.held && s2.p.mem.high == s.p.mem.high)
  {
    AdmitInv(s, usable, b);
    AskedReading(s, usable, b, d, i);
    var s1 := Next(s, Admit(b));
    InvShape(s1, usable);
    CompletedInv(s1, usable);
    InvShape(Completed(s1), usable);
  }

  lemma BroughtEntry(s: State, usable: set<nat>, t: nat, d: nat, i: nat)
    requires Sound(s, usable) && Typed(s) && Enabled(s, Wake(t)) && !s.task[t].r.write && s.task[t].goal == Bring(d, i)
    ensures var s' := Woken(s, t);
            && WellFormed(s'.p) && At(s'.p.mem, d, i) == Present(s.task[t].r.page, true, true)
            && s'.p.mem.data == s.p.mem.data
  {
    assert PcOk(s.p.mem, s.task, t);
    MovingHeld(s, usable, t);
    Installed(s.p, s.held, usable, d, i, s.task[t].r.page, s.task[t].r.slot);
  }

  /** The entry stood for what the slot is going to hold; now it has what the slot held before. */
  lemma StaleRead(s: State, usable: set<nat>, b: nat, d: nat, i: nat)
    requires Overtaking(s, usable, b, d, i)
    ensures Legal(s, OvertakingSteps(s, b))
    ensures var s' := Run(s, OvertakingSteps(s, b));
            && WellFormed(s'.p) && Held(s'.p, d, i) == Some(s.p.disk[s.asked[b].slot])
            && WellFormed(Synced(s)) && Held(Synced(s), d, i) == Some(Synced(s).disk[s.asked[b].slot])
  {
    var r := s.asked[b];
    SyncedInv(s, usable);
    AskedReading(s, usable, b, d, i);
    OvertakenRead(s, usable, b, d, i);
    var s1 := Next(s, Admit(b));
    var s2 := Next(s1, Complete);
    BroughtEntry(s2, usable, r.task, d, i);
    hide Sound, Swap.Inv, Flush;
    var steps := OvertakingSteps(s, b);
    assert steps[1..] == [Complete, Wake(r.task)] && steps[1..][1..] == [Wake(r.task)] && steps[1..][1..][1..] == [];
    var s3 := Next(s2, Wake(r.task));
    assert Legal(s3, []) && Run(s3, []) == s3;
    assert Legal(s2, [Wake(r.task)]) && Run(s2, [Wake(r.task)]) == s3;
    assert Legal(s1, [Complete, Wake(r.task)]) && Run(s1, [Complete, Wake(r.task)]) == s3;
  }

  /** No page is free, the buffers have all requests, and swap_out for `t1` is going to take a dirty page of the
      running task `t2`. */
  ghost predicate Crowded(s: State, usable: set<nat>, t1: nat, t2: nat, d: nat, i: nat, pn: PageNo) {
    && Sound(s, usable) && Typed(s) && s.queue == [] && s.asked == [] && s.buffers == NR_REQUEST
    && t1 < NR_TASKS && s.task[t1] == Needing(Page) && Runs(s, t2, d) && i < ENTRIES && Spare(s, pn)
    && GetFreePage(s.p.mem).1 == 0 && At(s.p.mem, d, i).Present? && At(s.p.mem, d, i).dirty
    && (var (_, ok, tries) := SwapOut(s.p); ok && tries != [] && tries[|tries| - 1] == (d, i))
  }

  /** Another page is given back, the task touches its own, and its read has to wait for a request too. */
  function CrowdedSteps(t1: nat, t2: nat, d: nat, i: nat, pn: PageNo): seq<Step> {
    [Reclaim(t1), Release(pn), Fault(t2, d, i), Take(t2), Buffers(0)]
  }

  /** The slot swap_out would take. */
  function SlotTaken(s: State): (n: nat)
    requires WellFormed(s.p)
    ensures n < SWAP_BITS
  {
    GetSwapPage(s.p).1
  }

  /** A write of the slot of (d, i) waits for a request, and so will everybody else. */
  ghost predicate Waiting(s: State, usable: set<nat>, d: nat, i: nat) {
    && Sound(s, usable) && Typed(s) && s.queue == [] && s.buffers == NR_REQUEST && |s.asked| == 1
    && User(d, i) && s.p.mem.dir[d] != 0 && At(s.p.mem, d, i) == Swapped(s.asked[0].slot)
  }

  /** The entry after swap_out has taken its dirty page. */
  lemma EvictedEntry(s: State, usable: set<nat>, dirEntry: nat, pageEntry: int, d: nat, i: nat)
    requires Sound(s, usable) && User(d, i) && s.p.mem.dir[d] != 0 && FIRST_DIR <= dirEntry < DIRS
        && -1 <= pageEntry < ENTRIES
    requires TryToSwapOut(s.p.(dirEntry := dirEntry, pageEntry := pageEntry), s.p.mem.dir[d], i).1
        && At(s.p.mem, d, i).dirty
    ensures WellFormed(s.p)
    ensures var m := Store(s.p.mem, s.p.mem.dir[d], i, Swapped(SlotTaken(s)));
            && m.dir == s.p.mem.dir && At(m, d, i) == Swapped(SlotTaken(s)) && s.held[At(s.p.mem, d, i).page] == 0
            && GetSwapPage(s.p.(dirEntry := dirEntry, pageEntry := pageEntry)).1 == SlotTaken(s) > 0
  {
    EvictInv(s.p.(dirEntry := dirEntry, pageEntry := pageEntry), s.held, usable, d, i);
  }

  /** What swap_out does with a dirty page. */
  lemma ReclaimedStart(s: State, t: nat, d: nat, i: nat)
    requires Typed(s) && t < NR_TASKS && s.task[t].Needing? && User(d, i) && At(s.p.mem, d, i).Present?
        && At(s.p.mem, d, i).dirty
    requires var (_, ok, tries) := SwapOut(s.p); ok && tries != [] && tries[|tries| - 1] == (d, i)
    ensures var r := SwapOut(s.p).0;
            && FIRST_DIR <= r.dirEntry < DIRS && -1 <= r.pageEntry < ENTRIES && s.p.mem.dir[d] != 0
            && (var p := s.p.(dirEntry := r.dirEntry, pageEntry := r.pageEntry);
                var (p1, nr) := GetSwapPage(p);
                && TryToSwapOut(p, s.p.mem.dir[d], i).1
                && Reclaimed(s, t) == Start(s.(p := p1.(mem := Store(s.p.mem, s.p.mem.dir[d], i, Swapped(nr)))),
                                            Request(t, true, At(s.p.mem, d, i).page, nr), s.task[t].goal))
  {
    SwapOutTook(s.p);
    hide SwapOut;
  }

  /** The write of a page nobody held has to wait. */
  lemma CrowdedStart(s: State, usable: set<nat>, p: Paging, t1: nat, t2: nat, d: nat, i: nat, pn: PageNo, r: Request)
    requires Typed(s) && s.queue == [] && s.asked == [] && s.buffers == NR_REQUEST && r.task == t1 < NR_TASKS
        && s.task[t1] == Needing(Page)
    requires Runs(s, t2, d) && User(d, i) && Spare(s, pn) && s.held[r.page] == 0 && p.mem.high == s.p.mem.high
        && p.disk == s.p.disk
    requires WellFormed(p) && p.mem.dir[d] != 0 && At(p.mem, d, i) == Swapped(r.slot)
    requires Sound(Start(s.(p := p), r, Page), usable) && Typed(Start(s.(p := p), r, Page))
    ensures var s1 := Start(s.(p := p), r, Page);
            Waiting(s1, usable, d, i) && Runs(s1, t2, d) && Spare(s1, pn) && s1.p.disk == s.p.disk && s1.asked == [r]
  {
    hide Sound, PcShape;
  }

  lemma CrowdedEvict(s: State, usable: set<nat>, t1: nat, t2: nat, d: nat, i: nat, pn: PageNo)
    requires Crowded(s, usable, t1, t2, d, i, pn)
    ensures Enabled(s, Reclaim(t1))
    ensures var s1 := Next(s, Reclaim(t1));
            && Waiting(s1, usable, d, i) && Runs(s1, t2, d) && Spare(s1, pn) && s1.p.disk == s.p.disk
            && s1.asked[0].write && s1.asked[0].page == At(s.p.mem, d, i).page && s1.asked[0].slot == SlotTaken(s)
  {
    hide SwapOut, Sound, GetFreePage, Swap.Inv, Spare, Waiting, PcShape, Reclaimed, TryToSwapOut, Start;
    ReclaimedStart(s, t1, d, i);
    var r := SwapOut(s.p).0;
    ReclaimedInv(s, usable, t1);
    InvShape(Reclaimed(s, t1), usable);
    EvictedEntry(s, usable, r.dirEntry, r.pageEntry, d, i);
    var p1 := GetSwapPage(s.p.(dirEntry := r.dirEntry, pageEntry := r.pageEntry)).0;
    var p := p1.(mem := Store(s.p.mem, s.p.mem.dir[d], i, Swapped(SlotTaken(s))));
    CrowdedStart(s, usable, p, t1, t2, d, i, pn, Request(t1, true, At(s.p.mem, d, i).page, SlotTaken(s)));
  }

  lemma GaveBack(s: State, usable: set<nat>, pn: PageNo)
    requires Sound(s, usable) && Typed(s) && Spare(s, pn)
    ensures GetFreePage(Next(s, Release(pn)).p.mem).1 != 0
  {
    ReleaseInv(s.p, s.held, usable, pn);
    HeldUnused(s.p.mem, s.held, pn);
    assert FreePage(s.p.mem, pn).count[pn - LOW_PAGES] == 0;
  }

  lemma CrowdedRelease(s: State, usable: set<nat>, d: nat, i: nat, pn: PageNo)
    requires Waiting(s, usable, d, i) && Spare(s, pn)
    ensures Enabled(s, Release(pn))
    ensures var s2 := Next(s, Release(pn));
            && Waiting(s2, usable, d, i) && s2.asked == s.asked && s2.p.disk == s.p.disk && s2.task == s.task
            && GetFreePage(s2.p.mem).1 != 0
  {
    GaveBack(s, usable, pn);
    ReleaseInv(s.p, s.held, usable, pn);
    ReleasedInv(s, usable, pn);
    InvShape(Next(s, Release(pn)), usable);
    hide Sound, Swap.Inv, GetFreePage, FreePage, Spare;
  }

  lemma CrowdedFault(s: State, usable: set<nat>, t2: nat, d: nat, i: nat)
    requires Waiting(s, usable, d, i) && Runs(s, t2, d)
    ensures Enabled(s, Fault(t2, d, i))
    ensures var s3 := Next(s, Fault(t2, d, i));
            && Waiting(s3, usable, d, i) && s3.asked == s.asked && s3.p == s.p && s3.task[t2] == Needing(Bring(d, i))
  {
    FaultInv(s, usable, t2, d, i);
    InvShape(Next(s, Fault(t2, d, i)), usable);
    hide Sound, Swap.Inv;
  }

  lemma CrowdedTake(s: State, usable: set<nat>, t2: nat, d: nat, i: nat)
    requires Waiting(s, usable, d, i) && t2 < NR_TASKS && s.task[t2] == Needing(Bring(d, i))
        && GetFreePage(s.p.mem).1 != 0
    ensures Enabled(s, Take(t2)) && Typed(Next(s, Take(t2))) && Enabled(Next(s, Take(t2)), Buffers(0))
    ensures var s5 := Next(Next(s, Take(t2)), Buffers(0));
            && Typed(s5) && Overtaking(s5, usable, 1, d, i) && s5.p.disk == s.p.disk
            && s5.asked[1].slot == s.asked[0].slot && s5.asked[0] == s.asked[0]
  {
    TakenInv(s, usable, t2);
    var s4 := Next(s, Take(t2));
    InvShape(s4, usable);
    BuffersInv(s4, usable, 0);
    InvShape(Next(s4, Buffers(0)), usable);
    hide Sound, Swap.Inv, GetFreePage;
  }

  /** The whole run to the point where a request comes free. */
  lemma CrowdedRun(s: State, usable: set<nat>, t1: nat, t2: nat, d: nat, i: nat, pn: PageNo)
    requires Crowded(s, usable, t1, t2, d, i, pn)
    ensures var steps := CrowdedSteps(t1, t2, d, i, pn);
            && Legal(s, steps)
            && (var s' := Run(s, steps);
                && Overtaking(s', usable, 1, d, i) && s'.p.disk == s.p.disk && s'.asked[1].slot == s'.asked[0].slot
                && s'.asked[0].write && s'.asked[0].page == At(s.p.mem, d, i).page && s'.asked[0].slot == SlotTaken(s))
  {
    hide Swap.Inv, Sound, Next, Enabled, Typed, GetFreePage, SwapOut, Spare, Legal, Run;
    CrowdedEvict(s, usable, t1, t2, d, i, pn);
    var s1 := Next(s, Reclaim(t1));
    CrowdedRelease(s1, usable, d, i, pn);
    var s2 := Next(s1, Release(pn));
    CrowdedFault(s2, usable, t2, d, i);
    var s3 := Next(s2, Fault(t2, d, i));
    CrowdedTake(s3, usable, t2, d, i);
    var s4 := Next(s3, Take(t2));
    var s5 := Next(s4, Buffers(0));
    assert [Buffers(0)] + [] == [Buffers(0)] && [Take(t2)] + [Buffers(0)] == [Take(t2), Buffers(0)];
    assert [Fault(t2, d, i)] + [Take(t2), Buffers(0)] == [Fault(t2, d, i), Take(t2), Buffers(0)];
    assert [Release(pn)] + [Fault(t2, d, i), Take(t2), Buffers(0)] ==
        [Release(pn), Fault(t2, d, i), Take(t2), Buffers(0)];
    assert [Reclaim(t1)] + [Release(pn), Fault(t2, d, i), Take(t2), Buffers(0)] == CrowdedSteps(t1, t2, d, i, pn);
    RunNone(s5);
    RunFirst(s4, Buffers(0), []);
    RunFirst(s3, Take(t2), [Buffers(0)]);
    RunFirst(s2, Fault(t2, d, i), [Take(t2), Buffers(0)]);
    RunFirst(s1, Release(pn), [Fault(t2, d, i), Take(t2), Buffers(0)]);
    RunFirst(s, Reclaim(t1), [Release(pn), Fault(t2, d, i), Take(t2), Buffers(0)]);
  }

  /** Overtaking loses a page: the task gets what its slot held before the page was to be written there. The page
      survives exactly if the slot had its bytes already. */
  lemma OvertakenPage(s: State, usable: set<nat>, t1: nat, t2: nat, d: nat, i: nat, pn: PageNo)
    requires Crowded(s, usable, t1, t2, d, i, pn)
    ensures var steps := CrowdedSteps(t1, t2, d, i, pn) + [Admit(1), Complete, Wake(t2)];
            && Legal(s, steps)
            && (var s' := Run(s, steps);
                && WellFormed(s'.p) && Held(s'.p, d, i) == Some(s.p.disk[SlotTaken(s)])
                && (Held(s'.p, d, i) == Held(s.p, d, i) <==>
                    s.p.disk[SlotTaken(s)] == s.p.mem.data[At(s.p.mem, d, i).page]))
  {
    CrowdedRun(s, usable, t1, t2, d, i, pn);
    var five := CrowdedSteps(t1, t2, d, i, pn);
    var s5 := Run(s, five);
    StaleRead(s5, usable, 1, d, i);
    ReaderOf(s5, usable, 1, t2, d, i);
    hide Swap.Inv, Sound, Legal, Run, Flush;
    LegalConcat(s, five, OvertakingSteps(s5, 1));
  }

  lemma ReaderOf(s: State, usable: set<nat>, b: nat, t: nat, d: nat, i: nat)
    requires Overtaking(s, usable, b, d, i) && SlotOf(d) == t
    ensures s.asked[b].task == t
  {
    assert PcOk(s.p.mem, s.task, s.asked[b].task);
  }

  // ------------------------------------------------------ a write overtaken by a write

  /** A write waits for a request though its slot has come free again; with requests to be had, swap_out for `t` is
      going to take a dirty page and put it in the same slot. */
  ghost predicate Reused(s: State, usable: set<nat>, t: nat, d: nat, i: nat) {
    && Sound(s, usable) && Typed(s) && s.queue == [] && s.buffers == 0 && |s.asked| == 1 && s.asked[0].write
    && t < NR_TASKS && s.task[t] == Needing(Page) && GetFreePage(s.p.mem).1 == 0 && User(d, i)
    && At(s.p.mem, d, i).Present? && At(s.p.mem, d, i).dirty && s.asked[0].slot == SlotTaken(s)
    && (var (_, ok, tries) := SwapOut(s.p); ok && tries != [] && tries[|tries| - 1] == (d, i))
  }

  /** The new write is the only request on the list, and the old one still waits. */
  lemma ReusedEvict(s: State, usable: set<nat>, t: nat, d: nat, i: nat)
    requires Reused(s, usable, t, d, i)
    ensures Enabled(s, Reclaim(t))
    ensures var s1 := Next(s, Reclaim(t));
            && Sound(s1, usable) && Typed(s1) && s1.asked == s.asked && |s1.queue| == 1 && s1.buffers == 0
            && s1.queue[0].write && s1.queue[0].slot == SlotTaken(s) && s1.queue[0].page == At(s.p.mem, d, i).page
            && At(s1.p.mem, d, i) == Swapped(SlotTaken(s)) && s1.p.mem.data == s.p.mem.data && s1.p.disk == s.p.disk
  {
    hide SwapOut, Sound, GetFreePage, Swap.Inv, PcShape, Reclaimed, TryToSwapOut;
    ReclaimedStart(s, t, d, i);
    var r := SwapOut(s.p).0;
    ReclaimedInv(s, usable, t);
    InvShape(Reclaimed(s, t), usable);
    EvictedEntry(s, usable, r.dirEntry, r.pageEntry, d, i);
  }

  /** Both writes reach the disk, the old one last. */
  lemma ReusedWrites(s: State, usable: set<nat>, d: nat, i: nat, n: nat)
    requires Sound(s, usable) && Typed(s) && |s.queue| == |s.asked| == 1 && s.buffers == 0 && User(d, i)
    requires s.queue[0].write && s.asked[0].write && s.queue[0].slot == s.asked[0].slot == n && n < SWAP_BITS
    requires At(s.p.mem, d, i) == Swapped(n)
    ensures Legal(s, [Admit(0), Complete, Complete])
    ensures var s' := Run(s, [Admit(0), Complete, Complete]);
            && Sound(s', usable) && s'.queue == s'.asked == [] && s'.p.mem == s.p.mem
            && s'.p.disk[n] == s.p.mem.data[s.asked[0].page]
  {
    hide Sound, Legal, Run, PcShape, Completed;
    AdmitInv(s, usable, 0);
    var s1 := Next(s, Admit(0));
    InvShape(s1, usable);
    FirstWritten(s1, usable);
    var s2 := Next(s1, Complete);
    FirstWritten(s2, usable);
    RunNone(Next(s2, Complete));
    assert [Complete] + [] == [Complete] && [Complete] + [Complete] == [Complete, Complete];
    assert [Admit(0)] + [Complete, Complete] == [Admit(0), Complete, Complete];
    RunFirst(s2, Complete, []);
    RunFirst(s1, Complete, [Complete]);
    RunFirst(s, Admit(0), [Complete, Complete]);
  }

  lemma FirstWritten(s: State, usable: set<nat>)
    requires Sound(s, usable) && Typed(s) && s.queue != [] && s.queue[0].write && s.queue[0].slot < SWAP_BITS
    ensures var s' := Next(s, Complete);
            && Sound(s', usable) && Typed(s') && s'.queue == s.queue[1..] && s'.asked == s.asked
            && s'.buffers == s.buffers && s'.p.mem == s.p.mem && WellFormed(s.p)
            && s'.p.disk == s.p.disk[s.queue[0].slot := s.p.mem.data[s.queue[0].page]]
  {
    CompletedInv(s, usable);
    InvShape(Completed(s), usable);
    hide Sound, PcShape;
  }

  /** Overtaking loses a page here too: the slot ends up with the page of somebody gone. The new page survives
      exactly if it has the same bytes. */
  lemma OvertakenWrite(s: State, usable: set<nat>, t: nat, d: nat, i: nat)
    requires Reused(s, usable, t, d, i)
    ensures var steps := [Reclaim(t)] + [Admit(0), Complete, Complete];
            && Legal(s, steps)
            && (var s' := Run(s, steps);
                && Sound(s', usable) && WellFormed(s'.p) && s'.queue == s'.asked == []
                && Held(s'.p, d, i) == Some(s.p.mem.data[s.asked[0].page])
                && (Held(s'.p, d, i) == Held(s.p, d, i) <==>
                    s.p.mem.data[s.asked[0].page] == s.p.mem.data[At(s.p.mem, d, i).page]))
  {
    hide Sound, Legal, Run, Next, Enabled, GetFreePage, SwapOut;
    ReusedEvict(s, usable, t, d, i);
    var s1 := Next(s, Reclaim(t));
    ReusedWrites(s1, usable, d, i, SlotTaken(s));
    RunFirst(s, Reclaim(t), [Admit(0), Complete, Complete]);
    Shapes(Run(s1, [Admit(0), Complete, Complete]), Run(s1, [Admit(0), Complete, Complete]), usable);
  }
}

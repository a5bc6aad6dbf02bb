/**
 What a read gets once it is on the list: what its slot is going to hold when its turn comes, whatever
 the tasks, the device and the buffers do meanwhile.
*/
module SwapIoReads {
  import opened PageTables
  import opened Swap
  import opened SwapIo
  import opened SwapIoContent
  import opened SwapIoRuns
  import C = CowPaging
  import F = SwapFaults

  /** The list has grown at its end at most, and neither the disk nor a page being moved has changed. */
  ghost predicate MovesOn(s: State, s': State) {
    && MovingKept(s, s'.p.mem.data) && s'.p.disk == s.p.disk
    && |s.queue| <= |s'.queue| && s'.queue[..|s.queue|] == s.queue
  }

  lemma SameMoves(s: State, s': State)
    requires |s.task| == NR_TASKS && |s.p.mem.data| == 0x1000 && s'.p.mem.data == s.p.mem.data && s'.p.disk == s.p.disk
    requires s.queue == s'.queue || exists r :: s'.queue == s.queue + [r]
    ensures MovesOn(s, s')
  {
  }

  lemma FreedData(s: Paging, held: multiset<PageNo>, usable: set<nat>, d: nat, n: nat)
    requires Swap.Inv(s, held, usable) && FIRST_DIR <= d && d + n <= DIRS
    ensures WellFormed(s) && FreeTables(s, d, n).mem.data == s.mem.data && FreeTables(s, d, n).disk == s.disk
  {
    FreeTablesInv(s, held, usable, d, n);
    hide PageTables.Inv, Slots, FreeTables;
  }

  lemma FailedMoves(s: State, usable: set<nat>, t: nat)
    requires Sound(s, usable) && Typed(s) && t < NR_TASKS && s.task[t].Needing?
    ensures var s' := Failed(s, t);
            s'.p.mem.data == s.p.mem.data && s'.p.disk == s.p.disk && s'.queue == s.queue
  {
    SoundPaging(s, usable);
    assert PcOk(s.p.mem, s.task, t);
    hide Sound, Swap.Inv, FreeTables;
    match s.task[t].goal {
      case Page =>
      case Bring(_, _) => FreedData(s.p, s.held, usable, FirstDir(t), SLOT_DIRS);
      case Table(f) => FreedData(s.p, s.held, usable, FirstDir(f.child), f.n);
      case Dup(f) => FreedData(s.p, s.held, usable, FirstDir(f.child), f.n);
    }
  }

  lemma ReclaimMoves(s: State, usable: set<nat>, t: nat)
    requires Sound(s, usable) && Typed(s) && Enabled(s, Reclaim(t))
    ensures MovesOn(s, Reclaimed(s, t))
  {
    hide SwapOut, Sound, Swap.Inv, Kept, Failed, AllLast, PcShape, MovesOn;
    SoundPaging(s, usable);
    SwapOutTook(s.p);
    SwapOutInv(s.p, s.held, usable);
    var (r, ok, tries) := SwapOut(s.p);
    DroppedInv(s, usable, r);
    InvShape(s.(p := r), usable);
    if !ok {
      FailedMoves(s.(p := r), usable, t);
    }
    SameMoves(s, Reclaimed(s, t));
  }

  lemma WriteMoves(s: State, usable: set<nat>, t: nat, d: nat, i: nat, k: nat, v: Byte)
    requires Sound(s, usable) && Typed(s) && Enabled(s, Write(t, d, i, k, v))
    ensures MovesOn(s, Next(s, Write(t, d, i, k, v)))
  {
    forall u: nat | u < NR_TASKS && s.task[u].Moving?
      ensures s.task[u].r.page != At(s.p.mem, d, i).page
    {
      NamedNotMoving(s, usable, d, i, u);
    }
    hide Sound;
  }

  lemma QuietMoves(s: State, usable: set<nat>, step: Step)
    requires Sound(s, usable) && Typed(s) && Enabled(s, step) && step.Unshare?
    ensures MovesOn(s, Next(s, step))
  {
    UnshareQuiet(s, usable, step.t, step.d, step.i);
    hide Sound, F.UnWp;
  }

  lemma WokenMoves(s: State, t: nat)
    requires Typed(s) && Enabled(s, Wake(t))
    ensures MovesOn(s, Woken(s, t))
  {
    SameMoves(s, Woken(s, t));
  }

  /** No step but the end of a transfer moves the list up or fills a page being moved. */
  lemma StepMoves(s: State, usable: set<nat>, step: Step)
    requires Sound(s, usable) && Typed(s) && Enabled(s, step) && step != Complete
    ensures MovesOn(s, Next(s, step))
  {
    hide Sound, MovesOn, Reclaimed, Taken, Woken, FreeTables, C.CopyEntry, F.UnWp, GetFreePage;
    match step {
      case Copy(t) =>
        CopiedMem(s, usable, t);
        SameMoves(s, Next(s, step));
      case Take(t) => TakeMoves(s, usable, t);
      case Reclaim(t) => ReclaimMoves(s, usable, t);
      case Wake(t) => WokenMoves(s, t);
      case Exit(t) =>
        SoundPaging(s, usable);
        FreedData(s.p, s.held, usable, FirstDir(t), SLOT_DIRS);
        SameMoves(s, Next(s, step));
      case Write(t, d, i, k, v) => WriteMoves(s, usable, t, d, i, k, v);
      case Unshare(t, d, i) => QuietMoves(s, usable, step);
      case Put(_, _, _, _, _, _) => PutMoves(s, step);
      case Complete =>
      case _ => SameMoves(s, Next(s, step));
    }
  }

  lemma PutMoves(s: State, step: Step)
    requires Typed(s) && Enabled(s, step) && step.Put?
    ensures MovesOn(s, Next(s, step))
  {
    forall u: nat | u < NR_TASKS && s.task[u].Moving?
      ensures s.task[u].r.page != step.pn
    {
      assert !s.task[u].Owns(step.pn);
    }
  }

  lemma TakeMoves(s: State, usable: set<nat>, t: nat)
    requires Sound(s, usable) && Typed(s) && Enabled(s, Take(t))
    ensures MovesOn(s, Taken(s, t))
  {
    hide Sound, GetFreePage, MovingKept;
    TakeMoving(s, usable);
  }

  /** The page of the request has the bytes `f`, or the request is on the list and is going to bring them. */
  ghost predicate Awaits(s: State, r: Request, f: Frame) {
    && r.task < |s.task| && s.task[r.task].Moving? && s.task[r.task].r == r && r.slot < |s.p.disk|
    && if s.task[r.task].done then r.page < |s.p.mem.data| && s.p.mem.data[r.page] == f
       else exists k: nat :: k < |s.queue| && s.queue[k] == r && Coming(s, k) == f
  }

  /** A task whose transfer is done is touched by nobody before it goes on. */
  lemma DoneStays(s: State, usable: set<nat>, step: Step, t: nat)
    requires Sound(s, usable) && Typed(s) && Enabled(s, step) && step != Wake(t)
    requires t < NR_TASKS && s.task[t].Moving? && s.task[t].done
    ensures Next(s, step).task[t] == s.task[t]
  {
    hide Swap.Inv, PagesOk, Taken, Reclaimed, Copied, Woken, FreeTables, F.UnWp, F.ShareOver, C.Poke;
    match step {
      case Reclaim(u) => ReclaimBystander(s, usable, u, t);
      case Copy(u) => CopyBystander(s, usable, u, t);
      case Take(u) => TakeBystander(s, u, t);
      case Wake(u) => WokenOther(s, u, t);
      case Complete => assert Line(s)[0] == s.queue[0];
      case _ =>
    }
  }

  lemma ReclaimBystander(s: State, usable: set<nat>, u: nat, t: nat)
    requires Sound(s, usable) && Typed(s) && Enabled(s, Reclaim(u)) && t < NR_TASKS && s.task[t].Moving?
    ensures Reclaimed(s, u).task[t] == s.task[t]
  {
    hide Sound, Typed, Enabled, Reclaimed, Failed;
    ReclaimedTasks(s, u);
    NeedsIs(s, u);
    FailedTasks(s, u);
    if ForkAt(s.task[u]).Some? {
      ParentBorn(s, usable, u);
    }
  }

  lemma NeedsIs(s: State, u: nat)
    requires Typed(s) && Enabled(s, Reclaim(u))
    ensures u < NR_TASKS == |s.task| && s.task[u].Needing?
  {
    hide PcShape;
  }

  lemma ParentBorn(s: State, usable: set<nat>, u: nat)
    requires Sound(s, usable) && u < NR_TASKS && |s.task| == NR_TASKS && ForkAt(s.task[u]).Some?
    ensures ForkOf(s, u).child < NR_TASKS && s.task[ForkOf(s, u).child].Born?
  {
    assert PcOk(s.p.mem, s.task, u);
    hide Sound;
  }

  lemma CopyBystander(s: State, usable: set<nat>, u: nat, t: nat)
    requires Sound(s, usable) && Typed(s) && Enabled(s, Copy(u)) && t < NR_TASKS && s.task[t].Moving?
    ensures Copied(s, u).task[t] == s.task[t]
  {
    assert PcOk(s.p.mem, s.task, u);
    hide Sound, C.CopyEntry;
  }

  lemma TakeBystander(s: State, u: nat, t: nat)
    requires Typed(s) && Enabled(s, Take(u)) && t < NR_TASKS && s.task[t].Moving?
    ensures Taken(s, u).task[t] == s.task[t]
  {
    hide GetFreePage;
  }

  lemma AwaitsQueued(s: State, usable: set<nat>, s': State, k: nat, f: Frame)
    requires Sound(s, usable) && Sound(s', usable) && MovesOn(s, s') && k < |s.queue| && |s.p.disk| == SWAP_BITS
    requires s.queue[k].slot < SWAP_BITS && Coming(s, k) == f
    ensures Awaits(s', s.queue[k], f)
  {
    LineOf(s, usable);
    LineOf(s', usable);
    ComingKept(s, s', k);
    hide Sound, Flush;
    assert s'.queue[k] == s'.queue[..|s.queue|][k] == s.queue[k];
    assert Line(s')[k] == s'.queue[k];
    assert Coming(s', k) == f;
  }

  lemma AwaitsComplete(s: State, usable: set<nat>, k: nat, f: Frame)
    requires Sound(s, usable) && Typed(s) && s.queue != [] && k < |s.queue| && !s.queue[k].write
    requires s.queue[k].slot < SWAP_BITS && Coming(s, k) == f
    ensures Awaits(Completed(s), s.queue[k], f)
  {
    var s' := Completed(s);
    CompletedInv(s, usable);
    LineOf(s, usable);
    LineOf(s', usable);
    assert Line(s)[0] == s.queue[0];
    hide Sound;
    if k == 0 {
      assert s.queue[..0] == [];
    } else {
      CompletedComing(s, usable, k - 1);
      assert Line(s')[k - 1] == s'.queue[k - 1] == s.queue[k];
      assert Coming(s', k - 1) == f;
    }
  }

  lemma StepAwaits(s: State, usable: set<nat>, step: Step, r: Request, f: Frame)
    requires Sound(s, usable) && Typed(s) && Enabled(s, step) && step != Wake(r.task)
    requires !r.write && Awaits(s, r, f)
    ensures Awaits(Next(s, step), r, f)
  {
    StepInv(s, usable, step);
    hide Sound, Coming, MovesOn, Completed, Next;
    LineOf(s, usable);
    if step != Complete {
      StepMoves(s, usable, step);
    }
    if s.task[r.task].done {
      DoneStays(s, usable, step, r.task);
      DoneBytes(s, usable, step, r.task);
    } else {
      var k: nat :| k < |s.queue| && s.queue[k] == r && Coming(s, k) == f;
      if step == Complete {
        CompletedIs(s);
        AwaitsComplete(s, usable, k, f);
      } else {
        AwaitsQueued(s, usable, Next(s, step), k, f);
      }
    }
  }

  lemma CompletedIs(s: State)
    requires Typed(s) && s.queue != []
    ensures Next(s, Complete) == Completed(s)
  {
  }

  lemma DoneBytes(s: State, usable: set<nat>, step: Step, t: nat)
    requires Sound(s, usable) && Typed(s) && Enabled(s, step)
    requires t < NR_TASKS && s.task[t].Moving? && s.task[t].done
    ensures |Next(s, step).p.mem.data| == 0x1000 && |Next(s, step).p.disk| == SWAP_BITS
    ensures Next(s, step).p.mem.data[s.task[t].r.page] == s.p.mem.data[s.task[t].r.page]
  {
    StepInv(s, usable, step);
    Shapes(s, Next(s, step), usable);
    if step == Complete {
      LineOf(s, usable);
      assert Line(s)[0] == s.queue[0];
      DoneApart(s, usable, t);
    } else {
      hide Sound, Next;
      StepMoves(s, usable, step);
    }
  }

  lemma DoneApart(s: State, usable: set<nat>, t: nat)
    requires Sound(s, usable) && s.queue != [] && t < NR_TASKS && s.task[t].Moving? && s.task[t].done
    ensures s.queue[0].page != s.task[t].r.page
  {
    assert Line(s)[0] == s.queue[0];
    hide Swap.Inv, PcsOk;
  }

  /** A read on the list gets, in any run up to the point where its task goes on, exactly what its slot was going to
      hold: if that is not what the entry stood for, nothing that happens later mends it. */
  lemma {:induction false} QueuedReadGets(s: State, usable: set<nat>, steps: seq<Step>, r: Request, f: Frame)
    requires Sound(s, usable) && Legal(s, steps) && !r.write && Awaits(s, r, f) && Wake(r.task) !in steps
    ensures Awaits(Run(s, steps), r, f)
    decreases |steps|
  {
    if steps != [] {
      hide Sound, Next, Enabled, Typed, Awaits;
      StepInv(s, usable, steps[0]);
      StepAwaits(s, usable, steps[0], r, f);
      QueuedReadGets(Next(s, steps[0]), usable, steps[1..], r, f);
    }
  }

  /** A read that goes on the list is going to bring what its slot holds when the list so far is done. */
  lemma JoinAwaits(s: State, usable: set<nat>, step: Step)
    requires Sound(s, usable) && Typed(s) && Enabled(s, step) && Joins(s, step).Some? && !Joins(s, step).value.write
    ensures var r := Joins(s, step).value;
            r.slot < SWAP_BITS && |s.p.disk| == SWAP_BITS
            && Awaits(Next(s, step), r, Flush(s.p.disk, s.p.mem.data, s.queue)[r.slot])
  {
    var s', r := Next(s, step), Joins(s, step).value;
    StepInv(s, usable, step);
    LineOf(s, usable);
    LineOf(s', usable);
    InvShape(s', usable);
    hide Sound, Taken, Reclaimed, MovesOn, Flush;
    JoinPlace(s, usable, step);
    var n := |s.queue|;
    assert Line(s')[n] == s'.queue[n] == r;
    StepMoves(s, usable, step);
    GrownComing(s, s', n);
    assert s.queue[..n] == s.queue;
    assert Coming(s', n) == Flush(s.p.disk, s.p.mem.data, s.queue)[r.slot];
  }

  lemma GrownComing(s: State, s': State, k: nat)
    requires MovesOn(s, s') && LineOk(s.task, Line(s)) && k <= |s.queue|
    ensures Flush(s'.p.disk, s'.p.mem.data, s'.queue[..k]) == Flush(s.p.disk, s.p.mem.data, s.queue[..k])
  {
    ComingKept(s, s', k);
  }

  lemma JoinPlace(s: State, usable: set<nat>, step: Step)
    requires Sound(s, usable) && Typed(s) && Enabled(s, step) && Joins(s, step).Some?
    ensures |Next(s, step).queue| > |s.queue| && Next(s, step).queue[|s.queue|] == Joins(s, step).value
    ensures step != Complete && (forall t :: step != Wake(t))
  {
    hide Sound, Taken, Reclaimed;
  }

  /** A read that does harm by going on the list: whatever happens next, the page its task finds when the transfer is
      done is not what the slot stood for. A harmless one always is. */
  lemma ReadVerdict(s: State, usable: set<nat>, step: Step, steps: seq<Step>)
    requires Sound(s, usable) && Typed(s) && Enabled(s, step) && Joins(s, step).Some? && !Joins(s, step).value.write
    requires Legal(Next(s, step), steps) && Wake(Joins(s, step).value.task) !in steps
    ensures var r := Joins(s, step).value;
            var e := Run(Next(s, step), steps);
            && r.task < |e.task| && e.task[r.task].Moving? && e.task[r.task].r == r
            && r.slot < SWAP_BITS == |Synced(s).disk|
            && (e.task[r.task].done ==>
                  && r.page < |e.p.mem.data|
                  && (e.p.mem.data[r.page] == Synced(s).disk[r.slot] <==> Harmless(s, step)))
  {
    StepInv(s, usable, step);
    hide Sound, Next, Enabled, Typed, Joins, Flush;
    JoinAwaits(s, usable, step);
    var r := Joins(s, step).value;
    QueuedReadGets(Next(s, step), usable, steps, r, Flush(s.p.disk, s.p.mem.data, s.queue)[r.slot]);
  }
}

/**
 When the steps of SwapIo go on and when they give up: a task that needs a page gets one, or asks for a transfer, or
 runs out of memory, and which of these follows from the memory before the step.
*/
module SwapIoSteps {
  import opened PageTables
  import opened Swap
  import opened SwapScan
  import opened SwapIo

  /** The request is the last of the list, or of those that wait if the table of requests is full; its task sleeps. */
  ghost predicate Listed(s: State, r: Request, goal: Goal, s': State) {
    && r.task < |s.task| && s'.task == s.task[r.task := Moving(r, goal, false)]
    && s'.held == s.held + multiset{r.page} && s'.buffers == s.buffers
    && (if |s.queue| + s.buffers < NR_REQUEST then s'.queue == s.queue + [r] && s'.asked == s.asked
        else s'.asked == s.asked + [r] && s'.queue == s.queue)
  }

  /** The swapped-out entry that a task reads back. */
  ghost predicate Wants(m: Mem, t: nat, goal: Goal, slot: nat)
    requires PageTables.Shape(m) && t < NR_TASKS && GoalShape(goal)
  {
    (goal.Bring? && At(m, goal.d, goal.i) == Swapped(slot))
    || (goal.Dup? && At(m, From(t, goal.f), goal.f.i) == Swapped(slot))
  }

  /** A task that finds a free page never gives up: it has the page, or its new page table, or has asked for the
      contents of the entry it is about. */
  lemma TakeExact(s: State, usable: set<nat>, t: nat)
    requires Sound(s, usable) && Typed(s) && Enabled(s, Take(t))
    ensures var s', goal, pn := Next(s, Take(t)), s.task[t].goal, GetFreePage(s.p.mem).1;
            match goal
            case Page => s'.task == s.task[t := Ready] && s'.held == s.held + multiset{pn}
            case Table(f) => s'.task == s.task[t := Copying(f)] && s'.p.mem.dir == s.p.mem.dir[To(f) := pn]
            case _ => exists slot: nat ::
              Wants(s.p.mem, t, goal, slot) && Listed(s, Request(t, false, pn, slot), goal, s')
  {
    hide PageTables.Inv;
    var goal := s.task[t].goal;
    assert PcOk(s.p.mem, s.task, t);
    if goal.Bring? || goal.Dup? {
      var e := if goal.Bring? then At(s.p.mem, goal.d, goal.i) else At(s.p.mem, From(t, goal.f), goal.f.i);
      SlotKnown(s, usable, t);
      assert Wants(s.p.mem, t, goal, e.slot);
    }
  }

  predicate SlotKept(e: Entry) {
    e.Swapped? && e.slot < SWAP_BITS
  }

  lemma SlotKnown(s: State, usable: set<nat>, t: nat)
    requires Sound(s, usable) && Typed(s) && t < NR_TASKS && s.task[t].Needing?
    ensures var g := s.task[t].goal;
            && (g.Bring? ==> SlotKept(At(s.p.mem, g.d, g.i)))
            && (g.Dup? ==> SlotKept(At(s.p.mem, From(t, g.f), g.f.i)))
  {
    hide PageTables.Inv;
    var g := s.task[t].goal;
    assert PcOk(s.p.mem, s.task, t);
    if g.Bring? {
      SlotNamed(s.p, s.held, usable, g.d, g.i);
    } else if g.Dup? {
      SlotNamed(s.p, s.held, usable, From(t, g.f), g.f.i);
    }
  }

  /** The page of a user entry is on its way out: a clean one is dropped and its task looks for a page again, a dirty
      one is to be written to a slot that was free. */
  ghost predicate Evicted(s: State, t: nat, d: nat, i: nat, s': State)
    requires Typed(s) && t < NR_TASKS && s.task[t].Needing? && User(d, i)
  {
    var e := At(s.p.mem, d, i);
    && e.Present? && PageTables.Shape(s'.p.mem)
    && (if !e.dirty then
          At(s'.p.mem, d, i) == Absent && s'.task == s.task && s'.queue == s.queue && s'.asked == s.asked
        else exists nr :: 1 <= nr < SWAP_BITS && s.p.bits[nr] && s'.p.bits == s.p.bits[nr := false]
               && At(s'.p.mem, d, i) == Swapped(nr) && Listed(s, Request(t, true, e.page, nr), s.task[t].goal, s'))
  }

  /** The task is killed, or its fork is undone, or the kernel gets no page. */
  ghost predicate GivenUp(s: State, t: nat, s': State)
    requires Typed(s) && t < NR_TASKS && s.task[t].Needing?
  {
    match s.task[t].goal
    case Page => s'.task == s.task[t := Ready]
    case Bring(_, _) => s'.task == s.task[t := Empty]
    case Table(f) => s'.task == s.task[f.child := Empty][t := Ready]
    case Dup(f) => s'.task == s.task[f.child := Empty][t := Ready]
  }

  /** With no page free, a task gives up exactly if swap_out would find nothing; else some entry that can be swapped
      out is evicted. */
  lemma ReclaimExact(s: State, t: nat)
    requires Typed(s) && Enabled(s, Reclaim(t))
    ensures var s' := Next(s, Reclaim(t));
            if exists d: nat, i: nat :: User(d, i) && Swappable(s.p, d, i) && !Missed(s.p, d, i)
            then exists d: nat, i: nat :: User(d, i) && Swappable(s.p, d, i) && Evicted(s, t, d, i, s')
            else GivenUp(s, t, s')
  {
    hide SwapOut, Swappable, Missed, Evicted, TryToSwapOut, GetSwapPage, FreeTables;
    SwapOutExact(s.p);
    SwapOutTook(s.p);
    var (r, ok, tries) := SwapOut(s.p);
    if ok {
      var (d, i) := tries[|tries| - 1];
      EvictedOne(s, t, d, i, r);
    }
  }

  lemma EvictedOne(s: State, t: nat, d: nat, i: nat, r: Paging)
    requires Typed(s) && Enabled(s, Reclaim(t)) && SwapOut(s.p).0 == r && SwapOut(s.p).1
    requires Took(s.p, SwapOut(s.p).2, r) && (d, i) == SwapOut(s.p).2[|SwapOut(s.p).2| - 1] && User(d, i)
    ensures Swappable(s.p, d, i) && Evicted(s, t, d, i, Next(s, Reclaim(t)))
  {
    hide SwapOut;
    var q := s.p.(dirEntry := r.dirEntry, pageEntry := r.pageEntry);
    TryExact(q, d, i);
    var e := At(s.p.mem, d, i);
    if e.dirty {
      var nr := GetSwapPage(q).1;
      assert nr == FirstSet(s.p.bits, 1);
    }
  }

  /** How many turns a fork has left at most, not counting those for page tables. */
  function TurnsLeft(f: Fork): nat
    requires ForkShape(f)
  {
    (f.n - f.k) * (ENTRIES + 1) + (ENTRIES - f.i)
  }

  /** A fork goes on: each turn is its last, or leaves fewer, or waits for a page that the child really lacks: its page
      table, or one for an entry that is swapped out. */
  lemma CopyAdvances(s: State, t: nat)
    requires Typed(s) && Enabled(s, Copy(t)) && ForkOk(s.p.mem, s.task, t, s.task[t].f)
    ensures var s', f := Next(s, Copy(t)), s.task[t].f;
            match s'.task[t]
            case Ready => f.k == f.n && s'.task[f.child] == Ready
            case Copying(f') => f'.child == f.child && f'.n == f.n && ForkShape(f') && TurnsLeft(f') < TurnsLeft(f)
            case Needing(Table(f')) => f' == f && s.p.mem.dir[From(t, f)] != 0 && s.p.mem.dir[To(f)] == 0
            case Needing(Dup(f')) => f' == f && At(s.p.mem, From(t, f), f.i).Swapped?
            case _ => false
  {
    var f := s.task[t].f;
    if f.k < f.n {
      assert TurnsLeft(f) == (f.n - (f.k + 1)) * (ENTRIES + 1) + (ENTRIES + 1) + (ENTRIES - f.i);
    }
  }
}

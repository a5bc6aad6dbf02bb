/**
 What page-table entries stand for while pages are on their way to the swap device and back:
 the contents of memory and of the disk once the transfers of the line are done.
*/
module SwapIoContent {
  import opened PageTables
  import opened Swap
  import opened SwapIo
  import C = CowPaging
  import F = SwapFaults

  // ------------------------------------------------ the disk as it is going to be

  function Flush1(disk: seq<Frame>, data: seq<Frame>, r: Request): (d: seq<Frame>)
    ensures |d| == |disk|
  {
    if r.write && r.slot < |disk| && r.page < |data| then disk[r.slot := data[r.page]] else disk
  }

  /** The disk when all writes of the line are done. */
  function Flush(disk: seq<Frame>, data: seq<Frame>, line: seq<Request>): (d: seq<Frame>)
    ensures |d| == |disk|
    decreases |line|
  {
    if line == [] then disk else Flush(Flush1(disk, data, line[0]), data, line[1..])
  }

  lemma {:induction false} FlushConcat(disk: seq<Frame>, data: seq<Frame>, a: seq<Request>, b: seq<Request>)
    ensures Flush(disk, data, a + b) == Flush(Flush(disk, data, a), data, b)
    decreases |a|
  {
    if a == [] {
      assert a + b == b;
    } else {
      assert (a + b)[1..] == a[1..] + b;
      FlushConcat(Flush1(disk, data, a[0]), data, a[1..], b);
    }
  }

  /** A slot no write of the line is for. */
  lemma {:induction false} FlushOther(disk: seq<Frame>, data: seq<Frame>, line: seq<Request>, n: nat)
    requires n < |disk| && forall k {:trigger line[k]} :: 0 <= k < |line| && line[k].write ==> line[k].slot != n
    ensures Flush(disk, data, line)[n] == disk[n]
    decreases |line|
  {
    if line != [] {
      FlushOther(Flush1(disk, data, line[0]), data, line[1..], n);
    }
  }

  /** Only the pages of the writes matter. */
  lemma {:induction false} FlushData(disk: seq<Frame>, data: seq<Frame>, data': seq<Frame>, line: seq<Request>)
    requires |data| == |data'| && forall k {:trigger line[k]} :: 0 <= k < |line| && line[k].page < |data| ==>
        data'[line[k].page] == data[line[k].page]
    ensures Flush(disk, data', line) == Flush(disk, data, line)
    decreases |line|
  {
    if line != [] {
      FlushData(Flush1(disk, data, line[0]), data, data', line[1..]);
    }
  }

  lemma {:induction false} FlushFrames(disk: seq<Frame>, data: seq<Frame>, line: seq<Request>)
    requires (forall n :: 0 <= n < |disk| ==> |disk[n]| == PAGE_SIZE)
        && (forall k :: 0 <= k < |data| ==> |data[k]| == PAGE_SIZE)
    ensures forall n :: 0 <= n < |disk| ==> |Flush(disk, data, line)[n]| == PAGE_SIZE
    decreases |line|
  {
    if line != [] {
      FlushFrames(Flush1(disk, data, line[0]), data, line[1..]);
    }
  }

  lemma {:induction false} FlushLast(disk: seq<Frame>, data: seq<Frame>, line: seq<Request>, r: Request)
    ensures Flush(disk, data, line + [r]) == Flush1(Flush(disk, data, line), data, r)
  {
    FlushConcat(disk, data, line, [r]);
    assert [r][1..] == [];
  }

  /** The bytes the last write of slot `n` in the line brings, if there is one. */
  function LastBytes(data: seq<Frame>, line: seq<Request>, n: nat): Option<Frame>
    decreases |line|
  {
    if line == [] then None
    else
      var last := line[|line| - 1];
      if last.write && last.slot == n && last.page < |data| then Some(data[last.page])
      else LastBytes(data, line[..|line| - 1], n)
  }

  /** A slot ends up with what the last write of the line brings. */
  lemma {:induction false} FlushAt(disk: seq<Frame>, data: seq<Frame>, line: seq<Request>, n: nat)
    requires n < |disk|
    ensures Flush(disk, data, line)[n] == match LastBytes(data, line, n) case Some(f) => f case None => disk[n]
    decreases |line|
  {
    if line != [] {
      var front, r := line[..|line| - 1], line[|line| - 1];
      FlushAt(disk, data, front, n);
      FlushLast(disk, data, front, r);
      assert front + [r] == line;
    }
  }

  lemma {:induction false} LastConcat(data: seq<Frame>, a: seq<Request>, b: seq<Request>, n: nat)
    ensures LastBytes(data, a + b, n) == if LastBytes(data, b, n).Some? then LastBytes(data, b, n)
                                         else LastBytes(data, a, n)
    decreases |b|
  {
    if b == [] {
      assert a + b == a;
    } else {
      var front := b[..|b| - 1];
      assert (a + b)[..|a + b| - 1] == a + front;
      LastConcat(data, a, front, n);
    }
  }

  /** What becomes of a write's slot if it goes ahead of the requests `ahead`, with `behind` after them: it has the
      same bytes in the end if no write of the slot was overtaken, another one follows anyway, or the last one
      overtaken brings the same bytes. */
  predicate Unharmed(data: seq<Frame>, ahead: seq<Request>, r: Request, behind: seq<Request>) {
    || !r.write
    || LastBytes(data, ahead, r.slot).None? || LastBytes(data, behind, r.slot).Some?
    || (r.page < |data| && LastBytes(data, ahead, r.slot).value == data[r.page])
  }

  /** A request that overtakes others changes what its own slot ends up with, at most, and does so exactly if it
      does harm. */
  lemma FlushPass(
      disk: seq<Frame>, data: seq<Frame>, queue: seq<Request>, ahead: seq<Request>, r: Request, behind: seq<Request>)
    requires r.page < |data|
    ensures var a := Flush(disk, data, queue + [r] + ahead + behind);
            var b := Flush(disk, data, queue + ahead + [r] + behind);
            && (forall n :: 0 <= n < |disk| && n != r.slot ==> a[n] == b[n])
            && (r.slot < |disk| ==> (a[r.slot] == b[r.slot] <==> Unharmed(data, ahead, r, behind)))
  {
    forall n: nat | n < |disk|
      ensures var a := Flush(disk, data, queue + [r] + ahead + behind);
              var b := Flush(disk, data, queue + ahead + [r] + behind);
              if n == r.slot then a[n] == b[n] <==> Unharmed(data, ahead, r, behind) else a[n] == b[n]
    {
      FlushAt(disk, data, queue + [r] + ahead + behind, n);
      FlushAt(disk, data, queue + ahead + [r] + behind, n);
      LastConcat(data, queue + [r] + ahead, behind, n);
      LastConcat(data, queue + [r], ahead, n);
      LastConcat(data, queue, [r], n);
      LastConcat(data, queue + ahead + [r], behind, n);
      LastConcat(data, queue + ahead, [r], n);
      LastConcat(data, queue, ahead, n);
      assert [r][..0] == [];
    }
  }

  /** The paging state with the disk as it is going to be: what every entry stands for. */
  function Synced(s: State): Paging {
    s.p.(disk := Flush(s.p.disk, s.p.mem.data, Line(s)))
  }

  lemma SyncedInv(s: State, usable: set<nat>)
    requires Sound(s, usable)
    ensures Swap.Inv(Synced(s), s.held, usable) && WellFormed(s.p) && WellFormed(Synced(s))
  {
    hide PageTables.Inv, Slots;
    FlushFrames(s.p.disk, s.p.mem.data, Line(s));
  }

  /** No write of a slot waits behind a read of it. */
  ghost predicate Ordered(line: seq<Request>) {
    forall j, k {:trigger line[j], line[k]} :: 0 <= j < k < |line| && !line[j].write && line[k].write ==>
        line[j].slot != line[k].slot
  }

  /** What the slot of the k-th request on the list is going to hold when its turn comes. */
  function Coming(s: State, k: nat): Frame
    requires k < |s.queue| && s.queue[k].slot < |s.p.disk|
  {
    Flush(s.p.disk, s.p.mem.data, s.queue[..k])[s.queue[k].slot]
  }

  /** A page read in, or on the list to be read in, gets what its entry stands for. */
  ghost predicate Good(s: State)
  {
    && |s.task| == NR_TASKS && |s.p.mem.data| == 0x1000 && |s.p.disk| == SWAP_BITS && Ordered(s.asked)
    && (forall k: nat {:trigger s.queue[k]} :: k < |s.queue| && !s.queue[k].write && s.queue[k].slot < SWAP_BITS ==>
          Coming(s, k) == Synced(s).disk[s.queue[k].slot])
    && (forall t: nat {:trigger s.task[t]} ::
          t < NR_TASKS && s.task[t].Moving? && s.task[t].done && !s.task[t].r.write && s.task[t].r.slot < SWAP_BITS ==>
            s.p.mem.data[s.task[t].r.page] == Synced(s).disk[s.task[t].r.slot])
  }

  /** The request a step puts on the list, if it puts one there. */
  function Joins(s: State, step: Step): Option<Request>
    requires Typed(s) && Enabled(s, step)
  {
    match step
    case Admit(j) => Some(s.asked[j])
    case Take(t) => if |Next(s, step).queue| > |s.queue| then Some(Next(s, step).queue[|s.queue|]) else None
    case Reclaim(t) => if |Next(s, step).queue| > |s.queue| then Some(Next(s, step).queue[|s.queue|]) else None
    case _ => None
  }

  /** The earlier requests it goes ahead of, and those that came after it. */
  function Ahead(s: State, step: Step): seq<Request>
    requires Typed(s) && Enabled(s, step)
  {
    if step.Admit? then s.asked[..step.j] else s.asked
  }

  function Behind(s: State, step: Step): seq<Request>
    requires Typed(s) && Enabled(s, step)
  {
    if step.Admit? then s.asked[step.j + 1..] else []
  }

  /** The step lets no request overtake an earlier one for the same slot that still waits for room. */
  ghost predicate InOrder(s: State, step: Step)
    requires Typed(s) && Enabled(s, step)
  {
    Joins(s, step).Some? ==>
      forall k {:trigger Ahead(s, step)[k]} :: 0 <= k < |Ahead(s, step)| ==>
          Ahead(s, step)[k].slot != Joins(s, step).value.slot
  }

  /** A read put on the list now finds what its entry stands for when its turn comes. */
  ghost predicate Timely(s: State, r: Request) {
    r.write || (r.slot < |s.p.disk| && Flush(s.p.disk, s.p.mem.data, s.queue)[r.slot] == Synced(s).disk[r.slot])
  }

  /** A request that goes on the list does no harm: a read is timely; a write leaves its slot with the same bytes in
      the end, or no entry names the slot any more. */
  ghost predicate Harmless(s: State, step: Step)
    requires Typed(s) && Enabled(s, step)
  {
    match Joins(s, step)
    case None => true
    case Some(r) =>
      && Timely(s, r)
      && (|| Unharmed(s.p.mem.data, Ahead(s, step), r, Behind(s, step))
          || (step.Admit? && SlotUsers(s.p.mem, r.slot) == {}))
  }

  /** The pages being moved have the bytes they had. */
  ghost predicate MovingKept(s: State, data: seq<Frame>) {
    && |s.task| == NR_TASKS && |data| == |s.p.mem.data| == 0x1000
    && (forall u: nat {:trigger s.task[u]} :: u < NR_TASKS && s.task[u].Moving? ==>
        data[s.task[u].r.page] == s.p.mem.data[s.task[u].r.page])
  }

  /** So the requests of any part of the line bring what they would have brought. */
  lemma FlushMoving(s: State, data: seq<Frame>, disk: seq<Frame>, line: seq<Request>)
    requires MovingKept(s, data) && LineOk(s.task, Line(s)) && forall r :: r in line ==> r in Line(s)
    ensures Flush(disk, data, line) == Flush(disk, s.p.mem.data, line)
  {
    forall k | 0 <= k < |line| && line[k].page < 0x1000
      ensures data[line[k].page] == s.p.mem.data[line[k].page]
    {
      assert line[k] in Line(s);
      assert s.task[line[k].task].r == line[k];
    }
    FlushData(disk, s.p.mem.data, data, line);
  }

  /** Requests already on the list get what they would have got. */
  lemma ComingKept(s: State, s': State, k: nat)
    requires MovingKept(s, s'.p.mem.data) && LineOk(s.task, Line(s)) && s'.p.disk == s.p.disk
    requires k <= |s.queue| <= |s'.queue| && s'.queue[..|s.queue|] == s.queue
    ensures Flush(s'.p.disk, s'.p.mem.data, s'.queue[..k]) == Flush(s.p.disk, s.p.mem.data, s.queue[..k])
  {
    assert s'.queue[..k] == s'.queue[..|s.queue|][..k];
    FlushMoving(s, s'.p.mem.data, s.p.disk, s.queue[..k]);
  }

  /** The line, the moving pages and the disk are as they were: so is the disk as it is going to be. */
  lemma SameSynced(s: State, s': State)
    requires Good(s) && |s'.task| == NR_TASKS && LineOk(s.task, Line(s)) && s'.queue == s.queue && s'.asked == s.asked
    requires s'.p.disk == s.p.disk && MovingKept(s, s'.p.mem.data)
    requires forall u: nat {:trigger s'.task[u]} :: u < NR_TASKS && s'.task[u].Moving? ==> s'.task[u] == s.task[u]
    ensures Good(s') && Synced(s').disk == Synced(s).disk
  {
    FlushMoving(s, s'.p.mem.data, s.p.disk, Line(s));
    hide LineOk, Ordered, Flush;
    forall k: nat | k < |s'.queue| && !s'.queue[k].write && s'.queue[k].slot < SWAP_BITS
      ensures Coming(s', k) == Synced(s').disk[s'.queue[k].slot]
    {
      ComingKept(s, s', k);
      assert Coming(s, k) == Synced(s).disk[s.queue[k].slot];
    }
    forall t: nat | t < NR_TASKS && s'.task[t].Moving? && s'.task[t].done && !s'.task[t].r.write
        && s'.task[t].r.slot < SWAP_BITS
      ensures s'.p.mem.data[s'.task[t].r.page] == Synced(s').disk[s'.task[t].r.slot]
    {
      assert s'.task[t] == s.task[t];
    }
  }

  /** A slot being read is in use. */
  lemma ReadSlot(s: State, usable: set<nat>, t: nat)
    requires Sound(s, usable) && t < NR_TASKS && s.task[t].Moving? && !s.task[t].r.write
    ensures s.task[t].r.slot < SWAP_BITS && !s.p.bits[s.task[t].r.slot]
    ensures PageTables.Shape(s.p.mem) && SlotUsers(s.p.mem, s.task[t].r.slot) != {}
  {
    hide PageTables.Inv, Slots;
    assert PcOk(s.p.mem, s.task, t);
    match s.task[t].goal {
      case Bring(d, i) => SlotNamed(s.p, s.held, usable, d, i);
      case Dup(f) => SlotNamed(s.p, s.held, usable, From(t, f), f.i);
    }
  }

  /** The disk as it is going to be once the request is in the line. */
  lemma StartSynced(s: State, p: Paging, r: Request, goal: Goal)
    requires |s.task| == NR_TASKS && LineOk(s.task, Line(s)) && r.task < NR_TASKS
    requires p.disk == s.p.disk && |p.disk| == SWAP_BITS && MovingKept(s, p.mem.data) && r.slot < SWAP_BITS
    ensures var a, b := Synced(Start(s.(p := p), r, goal)).disk, Flush1(Synced(s).disk, p.mem.data, r);
            && (forall n :: 0 <= n < SWAP_BITS && n != r.slot ==> a[n] == b[n])
            && (a[r.slot] == b[r.slot] <==> !Room(s) || Unharmed(p.mem.data, s.asked, r, []))
  {
    FlushMoving(s, p.mem.data, s.p.disk, Line(s));
    FlushLast(p.disk, p.mem.data, Line(s), r);
    hide LineOk, Flush;
    if Room(s) {
      FlushPass(p.disk, p.mem.data, s.queue, s.asked, r, []);
      assert s.queue + [r] + s.asked + [] == s.queue + [r] + s.asked;
      assert s.queue + s.asked + [r] + [] == Line(s) + [r];
    } else {
      assert s.queue + (s.asked + [r]) == Line(s) + [r];
    }
  }

  lemma StartQueue(s: State, usable: set<nat>, p: Paging, r: Request, goal: Goal, k: nat)
    requires Sound(s, usable) && Good(s) && r.task < NR_TASKS && s.task[r.task] == Needing(goal) && r.slot < SWAP_BITS
    requires p.disk == s.p.disk && MovingKept(s, p.mem.data) && (r.write ==> s.p.bits[r.slot])
    requires k < |s.queue| && !s.queue[k].write && s.queue[k].slot < SWAP_BITS
    ensures var s' := Start(s.(p := p), r, goal);
            k < |s'.queue| && s'.queue[k] == s.queue[k] && Coming(s', k) == Synced(s').disk[s'.queue[k].slot]
  {
    hide Swap.Inv, PcsOk, PagesOk, Flush;
    var s' := Start(s.(p := p), r, goal);
    StartSynced(s, p, r, goal);
    ComingKept(s, s', k);
    assert Line(s)[k] == s.queue[k] && s'.queue[k] == s.queue[k];
    assert s.task[Line(s)[k].task].r == Line(s)[k];
    ReadSlot(s, usable, s.queue[k].task);
    assert Coming(s, k) == Synced(s).disk[s.queue[k].slot];
  }

  lemma StartAsked(s: State, usable: set<nat>, r: Request)
    requires Sound(s, usable) && Ordered(s.asked) && r.slot < SWAP_BITS && (r.write ==> s.p.bits[r.slot])
    ensures Ordered(s.asked + [r])
  {
    hide Swap.Inv, PcsOk, PagesOk;
    forall k | 0 <= k < |s.asked| && r.write && !s.asked[k].write
      ensures s.asked[k].slot != r.slot
    {
      assert Line(s)[|s.queue| + k] == s.asked[k];
      assert s.task[s.asked[k].task].r == s.asked[k];
      ReadSlot(s, usable, s.asked[k].task);
    }
  }

  /** The start of a transfer: all reads still find what they should, this one included if the list is timely. */
  lemma StartGood(s: State, usable: set<nat>, p: Paging, r: Request, goal: Goal)
    requires Sound(s, usable) && Good(s) && r.task < NR_TASKS && s.task[r.task] == Needing(goal) && r.slot < SWAP_BITS
    requires p.disk == s.p.disk && MovingKept(s, p.mem.data) && (r.write ==> s.p.bits[r.slot])
    ensures var s' := Start(s.(p := p), r, goal);
            Good(s') <==> !Room(s) || Timely(s, r)
  {
    hide Swap.Inv, PcsOk, PagesOk, Flush, LineOk, Unharmed;
    var s' := Start(s.(p := p), r, goal);
    InvShape(s, usable);
    LineOf(s, usable);
    StartSynced(s, p, r, goal);
    StartAsked(s, usable, r);
    if !r.write {
      ReadUnharmed(p.mem.data, s.asked, r);
    }
    forall k: nat | k < |s.queue| && !s.queue[k].write && s.queue[k].slot < SWAP_BITS
      ensures Coming(s', k) == Synced(s').disk[s'.queue[k].slot]
    {
      StartQueue(s, usable, p, r, goal, k);
    }
    forall t: nat | t < NR_TASKS && s'.task[t].Moving? && s'.task[t].done && !s'.task[t].r.write
        && s'.task[t].r.slot < SWAP_BITS
      ensures s'.p.mem.data[s'.task[t].r.page] == Synced(s').disk[s'.task[t].r.slot]
    {
      assert s'.task[t] == s.task[t];
      ReadSlot(s, usable, t);
    }
    if Room(s) {
      assert s'.queue[|s.queue|] == r && s'.queue[..|s.queue|] == s.queue;
      ComingKept(s, s', |s.queue|);
      assert s.queue[..|s.queue|] == s.queue;
    }
  }

  lemma LineOf(s: State, usable: set<nat>)
    requires Sound(s, usable)
    ensures |s.task| == NR_TASKS && LineOk(s.task, Line(s))
  {
    hide Swap.Inv, LineOk;
  }

  // ------------------------------------------------------- nothing is lost

  /** The step is about the entry: its owner writes it, fills it, exits, or is killed for want of memory,
      or the entry belongs to a child that a fork is filling or giving up. */
  ghost predicate Touches(s: State, step: Step, d: nat, i: nat)
    requires Typed(s) && Enabled(s, step)
  {
    match step
    case Write(_, d1, i1, _, _) => d == d1 && i == i1
    case Unshare(_, d1, i1) => d == d1 && i == i1
    case Borrow(t, _, k, i1) => d == DirAt(t, k) && i == i1
    case Put(_, d1, i1, _, _, _) => d == d1 && i == i1
    case Exit(t) => SlotOf(d) == t
    case Copy(t) => s.task[t].f.k < s.task[t].f.n && d == To(s.task[t].f) && i == s.task[t].f.i
    case Wake(t) => s.task[t].goal.Dup? && d == To(s.task[t].goal.f) && i == s.task[t].goal.f.i
    case Reclaim(t) =>
      && !SwapOut(s.p).1
      && (match s.task[t].goal
          case Page => false
          case Bring(_, _) => SlotOf(d) == t
          case Table(f) => SlotOf(d) == f.child
          case Dup(f) => SlotOf(d) == f.child)
    case _ => false
  }

  /** What the entry stands for, transfers under way included, survives from `s` to `s'`. */
  ghost predicate Stays(s: State, s': State, d: nat, i: nat) {
    WellFormed(Synced(s)) && WellFormed(Synced(s')) && User(d, i) && LastsAt(Synced(s), d, i, Synced(s'), d, i)
  }

  /** The entries agree, and so do the pages they name. */
  lemma SameStays(s: State, s': State, d: nat, i: nat)
    requires WellFormed(Synced(s)) && WellFormed(Synced(s')) && User(d, i) && Synced(s').disk == Synced(s).disk
    requires At(s'.p.mem, d, i) == At(s.p.mem, d, i) || (At(s.p.mem, d, i).Present?
        && At(s'.p.mem, d, i) == C.ReadOnly(At(s.p.mem, d, i)))
    requires At(s.p.mem, d, i).Present? ==>
        s'.p.mem.data[At(s.p.mem, d, i).page] == s.p.mem.data[At(s.p.mem, d, i).page]
    ensures Stays(s, s', d, i)
  {
  }

  /** LastsAt looks at memory and disk alone. */
  lemma StaysBy(s: State, s': State, q: Paging, d: nat, i: nat)
    requires WellFormed(Synced(s)) && WellFormed(Synced(s')) && AllLast(Synced(s), q) && User(d, i)
    requires q.mem == s'.p.mem && q.disk == Synced(s').disk
    ensures Stays(s, s', d, i)
  {
    assert LastsAt(Synced(s), d, i, q, d, i);
  }

  lemma MovingHeld(s: State, usable: set<nat>, t: nat)
    requires Sound(s, usable) && t < NR_TASKS && s.task[t].Moving?
    ensures s.held[s.task[t].r.page] == 1 && LOW_PAGES <= s.task[t].r.page < s.p.mem.high
  {
    hide PageTables.Inv, Slots, LineOk, PcsOk;
  }

  /** A page in an entry is none of the pages being moved. */
  lemma NamedNotMoving(s: State, usable: set<nat>, d: nat, i: nat, t: nat)
    requires Sound(s, usable) && t < NR_TASKS && s.task[t].Moving? && User(d, i) && At(s.p.mem, d, i).Present?
    ensures At(s.p.mem, d, i).page != s.task[t].r.page
  {
    MovingHeld(s, usable, t);
    HeldUnused(s.p.mem, s.held, s.task[t].r.page);
    assert (d, i) !in Users(s.p.mem, s.task[t].r.page);
  }

  lemma AdmitLine(s: State, j: nat)
    requires j < |s.asked| && |s.p.disk| == SWAP_BITS && s.asked[j].page < |s.p.mem.data|
    ensures var s' := s.(queue := s.queue + [s.asked[j]], asked := s.asked[..j] + s.asked[j + 1..]);
            var r := s.asked[j];
            && (forall n :: 0 <= n < SWAP_BITS && n != r.slot ==> Synced(s').disk[n] == Synced(s).disk[n])
            && (r.slot < SWAP_BITS ==>
                  (Synced(s').disk[r.slot] == Synced(s).disk[r.slot] <==>
                      Unharmed(s.p.mem.data, s.asked[..j], r, s.asked[j + 1..])))
  {
    hide Flush;
    var r := s.asked[j];
    var front, back := s.asked[..j], s.asked[j + 1..];
    FlushPass(s.p.disk, s.p.mem.data, s.queue, front, r, back);
    var s' := s.(queue := s.queue + [r], asked := front + back);
    assert Line(s') == s.queue + [r] + front + back;
    assert front + [r] + back == s.asked;
    assert Line(s) == s.queue + front + [r] + back;
    var a := Flush(s.p.disk, s.p.mem.data, s.queue + [r] + front + back);
    var b := Flush(s.p.disk, s.p.mem.data, s.queue + front + [r] + back);
    assert Synced(s').disk == a;
    assert Synced(s).disk == b;
    assert forall n :: 0 <= n < SWAP_BITS && n != r.slot ==> a[n] == b[n];
    assert r.slot < SWAP_BITS ==> (a[r.slot] == b[r.slot] <==> Unharmed(s.p.mem.data, front, r, back));
    assert s' == s.(queue := s.queue + [s.asked[j]], asked := s.asked[..j] + s.asked[j + 1..]);
  }

  /** A request that somebody waits with is one a task sleeps for. */
  lemma AskedMoving(s: State, usable: set<nat>, j: nat)
    requires Sound(s, usable) && j < |s.asked|
    ensures var r := s.asked[j];
            && |s.task| == NR_TASKS && r.task < NR_TASKS && s.task[r.task].Moving? && s.task[r.task].r == r
            && 0 < r.slot < SWAP_BITS && r.page < 0x1000
  {
    InvShape(s, usable);
    hide Swap.Inv, PagesOk;
    assert Line(s)[|s.queue| + j] == s.asked[j];
    assert PcOk(s.p.mem, s.task, s.asked[j].task);
  }

  /** Slots that entries name are going to have the same bytes. */
  ghost predicate NamedSame(s: State, s': State)
    requires WellFormed(s.p)
  {
    && |Synced(s).disk| == |Synced(s').disk| == SWAP_BITS
    && (forall n: nat {:trigger SlotUsers(s.p.mem, n)} :: n < SWAP_BITS && SlotUsers(s.p.mem, n) != {} ==>
        Synced(s').disk[n] == Synced(s).disk[n])
  }

  lemma AdmitNamed(s: State, usable: set<nat>, j: nat)
    requires Sound(s, usable) && Typed(s) && Enabled(s, Admit(j))
    ensures Harmless(s, Admit(j)) ==> NamedSame(s, Next(s, Admit(j)))
    ensures s.asked[j].write && !Harmless(s, Admit(j)) ==> !NamedSame(s, Next(s, Admit(j)))
  {
    hide Sound, Flush, Unharmed, SlotUsers;
    AskedMoving(s, usable, j);
    AdmitLine(s, j);
    if !s.asked[j].write {
      AdmitUnharmed(s, j);
    }
    var n := s.asked[j].slot;
    assert SlotUsers(s.p.mem, n) == {} || SlotUsers(s.p.mem, n) != {};
  }

  lemma AdmitUnharmed(s: State, j: nat)
    requires j < |s.asked| && !s.asked[j].write
    ensures Unharmed(s.p.mem.data, s.asked[..j], s.asked[j], s.asked[j + 1..])
  {
  }

  lemma AdmitReads(s: State, usable: set<nat>, j: nat, k: nat)
    requires Sound(s, usable) && Typed(s) && Enabled(s, Admit(j)) && Good(s) && NamedSame(s, Next(s, Admit(j)))
    requires k < |s.queue| && !s.queue[k].write
    ensures var s' := Next(s, Admit(j));
            s.queue[k].slot < |s'.p.disk| && Coming(s', k) == Synced(s').disk[s.queue[k].slot]
  {
    hide Swap.Inv, PcsOk, PagesOk, Flush;
    var s' := Next(s, Admit(j));
    ComingKept(s, s', k);
    assert Line(s)[k] == s.queue[k] && s'.queue[k] == s.queue[k];
    assert s.task[Line(s)[k].task].r == Line(s)[k];
    ReadSlot(s, usable, s.queue[k].task);
    assert Coming(s, k) == Synced(s).disk[s.queue[k].slot];
  }

  /** A request that goes on the list: the reads before it are not concerned, and it is read in time itself. */
  lemma AdmitGood(s: State, usable: set<nat>, j: nat)
    requires Sound(s, usable) && Typed(s) && Enabled(s, Admit(j)) && Good(s) && NamedSame(s, Next(s, Admit(j)))
    ensures Good(Next(s, Admit(j))) <==> Timely(s, s.asked[j])
  {
    hide Sound, LineOk, Flush, Unharmed, Line;
    var s' := Next(s, Admit(j));
    AskedMoving(s, usable, j);
    LineOf(s, usable);
    AdmitLine(s, j);
    if !s.asked[j].write {
      AdmitUnharmed(s, j);
    }
    assert Ordered(s'.asked) by {
      assert forall k :: 0 <= k < |s'.asked| ==> s'.asked[k] == s.asked[if k < j then k else k + 1];
    }
    forall k: nat | k < |s.queue| && !s.queue[k].write && s.queue[k].slot < SWAP_BITS
      ensures Coming(s', k) == Synced(s').disk[s'.queue[k].slot]
    {
      AdmitReads(s, usable, j, k);
    }
    forall t: nat | t < NR_TASKS && s'.task[t].Moving? && s'.task[t].done && !s'.task[t].r.write
        && s'.task[t].r.slot < SWAP_BITS
      ensures s'.p.mem.data[s'.task[t].r.page] == Synced(s').disk[s'.task[t].r.slot]
    {
      ReadSlot(s, usable, t);
      assert s'.task[t] == s.task[t] && NamedSame(s, s');
    }
    assert s'.queue[|s.queue|] == s.asked[j] && s'.queue[..|s.queue|] == s.queue;
    ComingKept(s, s', |s.queue|);
    assert s.queue[..|s.queue|] == s.queue;
  }

  lemma NamedStays(s: State, s': State, d: nat, i: nat)
    requires WellFormed(s.p) && WellFormed(Synced(s)) && WellFormed(Synced(s')) && User(d, i)
    requires s'.p.mem == s.p.mem && NamedSame(s, s')
    ensures Stays(s, s', d, i)
  {
    if At(s.p.mem, d, i).Swapped? {
      assert (d, i) in SlotUsers(s.p.mem, At(s.p.mem, d, i).slot);
    }
  }

  /** If all entries stay, no slot that an entry names is going to have other bytes. */
  lemma StaysNamed(s: State, s': State)
    requires WellFormed(s.p) && WellFormed(Synced(s)) && WellFormed(Synced(s')) && s'.p.mem == s.p.mem
    requires forall d: nat, i: nat :: User(d, i) ==> Stays(s, s', d, i)
    ensures NamedSame(s, s')
  {
    forall n: nat | n < SWAP_BITS && SlotUsers(s.p.mem, n) != {}
      ensures Synced(s').disk[n] == Synced(s).disk[n]
    {
      var x :| x in SlotUsers(s.p.mem, n);
      assert Stays(s, s', x.0, x.1);
    }
  }

  lemma AdmitStays(s: State, usable: set<nat>, j: nat, d: nat, i: nat)
    requires Sound(s, usable) && Typed(s) && Enabled(s, Admit(j)) && Good(s) && Harmless(s, Admit(j)) && User(d, i)
    ensures Good(Next(s, Admit(j))) && Stays(s, Next(s, Admit(j)), d, i)
  {
    var s' := Next(s, Admit(j));
    AdmitInv(s, usable, j);
    SyncedInv(s, usable);
    SyncedInv(s', usable);
    hide Sound, Swap.Inv, Good, NamedSame, Flush, Unharmed, SlotUsers;
    AdmitNamed(s, usable, j);
    AdmitGood(s, usable, j);
    AskedMoving(s, usable, j);
    NamedStays(s, s', d, i);
  }

  /** A request that does harm: a read is going to miss what its entry stands for, or an entry no longer stands for
      what it stood for. */
  lemma AdmitHarms(s: State, usable: set<nat>, j: nat)
    requires Sound(s, usable) && Typed(s) && Enabled(s, Admit(j)) && Good(s) && !Harmless(s, Admit(j))
    requires forall d: nat, i: nat :: User(d, i) ==> Stays(s, Next(s, Admit(j)), d, i)
    ensures !Good(Next(s, Admit(j)))
  {
    var s' := Next(s, Admit(j));
    AdmitInv(s, usable, j);
    SyncedInv(s, usable);
    SyncedInv(s', usable);
    hide Sound, Swap.Inv, Good, NamedSame, Flush, Unharmed, SlotUsers, Stays;
    StaysNamed(s, s');
    AdmitNamed(s, usable, j);
    AdmitGood(s, usable, j);
    AskedMoving(s, usable, j);
  }

  /** No transfer begins or ends, and no moving page changes. */
  ghost predicate QuietStep(s: State, s': State) {
    true == (
      && |s.task| == |s'.task| == NR_TASKS && s'.queue == s.queue && s'.asked == s.asked && s'.p.disk == s.p.disk
      && |s'.p.mem.data| == 0x1000 == |s.p.mem.data|
      && (forall u: nat {:trigger s.task[u]} :: u < NR_TASKS && s.task[u].Moving? ==>
          s'.p.mem.data[s.task[u].r.page] == s.p.mem.data[s.task[u].r.page])
      && (forall u: nat {:trigger s'.task[u]} :: u < NR_TASKS && s'.task[u].Moving? ==> s'.task[u] == s.task[u]))
  }

  lemma QuietGood(s: State, usable: set<nat>, s': State)
    requires Sound(s, usable) && Good(s) && QuietStep(s, s')
    ensures Good(s') && Synced(s').disk == Synced(s).disk
  {
    hide PageTables.Inv, Slots, PcsOk, PagesOk;
    SameSynced(s, s');
  }

  /** Memory changed from `s` to `s'` as it does from `q` to `r`, and `q` is `s` with its transfers done. */
  lemma QuietStays(s: State, usable: set<nat>, s': State, r: Paging, d: nat, i: nat)
    requires Sound(s, usable) && Sound(s', usable) && Good(s) && QuietStep(s, s') && User(d, i)
    requires AllLast(Synced(s), r) && r.mem == s'.p.mem && r.disk == Synced(s).disk
    ensures Good(s') && Stays(s, s', d, i)
  {
    QuietGood(s, usable, s');
    SyncedInv(s, usable);
    SyncedInv(s', usable);
    hide Swap.Inv, Sound, Good, QuietStep;
    StaysBy(s, s', r, d, i);
  }

  /** The entry's page and bytes are as they were. */
  lemma QuietSame(s: State, usable: set<nat>, s': State, d: nat, i: nat)
    requires Sound(s, usable) && Sound(s', usable) && Good(s) && QuietStep(s, s') && User(d, i)
    requires WellFormed(s.p) && WellFormed(s'.p)
    requires At(s'.p.mem, d, i) == At(s.p.mem, d, i) || (At(s.p.mem, d, i).Present?
        && At(s'.p.mem, d, i) == C.ReadOnly(At(s.p.mem, d, i)))
    requires At(s.p.mem, d, i).Present? ==>
        s'.p.mem.data[At(s.p.mem, d, i).page] == s.p.mem.data[At(s.p.mem, d, i).page]
    ensures Good(s') && Stays(s, s', d, i)
  {
    QuietGood(s, usable, s');
    SyncedInv(s, usable);
    SyncedInv(s', usable);
    hide Swap.Inv, Sound, Good, QuietStep;
    SameStays(s, s', d, i);
  }

  lemma TakeSynced(s: State, usable: set<nat>)
    requires Sound(s, usable) && GetFreePage(s.p.mem).1 != 0
    ensures var (m, pn) := GetFreePage(s.p.mem);
            var q := Synced(s).(mem := m);
            Got(Synced(s), s.held, usable, q, pn) && AllLast(Synced(s), q)
  {
    SyncedInv(s, usable);
    hide PageTables.Inv, Slots, AllLast, Sound;
    TakenKept(Synced(s), s.held, usable);
    var pn := GetFreePage(s.p.mem).1;
    assert Kept(Synced(s), s.held + multiset{pn}, usable, Synced(s).(mem := GetFreePage(s.p.mem).0));
  }

  lemma TakeMoving(s: State, usable: set<nat>)
    requires Sound(s, usable) && GetFreePage(s.p.mem).1 != 0
    ensures MovingKept(s, GetFreePage(s.p.mem).0.data)
  {
    hide PageTables.Inv, Slots, AllLast, LineOk, PcsOk, Outside, Got;
    TakePage(s, usable);
  }

  lemma TakeStays(s: State, usable: set<nat>, t: nat, d: nat, i: nat)
    requires Sound(s, usable) && Typed(s) && Enabled(s, Take(t)) && Good(s) && User(d, i)
    ensures Good(Taken(s, t)) <==> Harmless(s, Take(t))
    ensures Good(Taken(s, t)) ==> Stays(s, Taken(s, t), d, i)
  {
    TakenInv(s, usable, t);
    TakeMoving(s, usable);
    TakeSynced(s, usable);
    var s' := Taken(s, t);
    var (m, pn) := GetFreePage(s.p.mem);
    match s.task[t].goal {
      case Page =>
        hide Sound, Swap.Inv, AllLast, Good, Got, GetFreePage;
        QuietStays(s, usable, s', Synced(s).(mem := m), d, i);
      case Table(f) =>
        TakeTableSynced(s, usable, t, f);
        hide Sound, Swap.Inv, AllLast, Good, Got, GetFreePage;
        QuietStays(s, usable, s', Synced(s).(mem := m.(dir := m.dir[To(f) := pn])), d, i);
      case Bring(d1, i1) =>
        TakeRead(s, usable, t, Request(t, false, pn, SlotIn(At(s.p.mem, d1, i1))), d, i);
      case Dup(f) =>
        TakeRead(s, usable, t, Request(t, false, pn, SlotIn(At(s.p.mem, From(t, f), f.i))), d, i);
    }
  }

  lemma ReadUnharmed(data: seq<Frame>, ahead: seq<Request>, r: Request)
    requires !r.write
    ensures Unharmed(data, ahead, r, [])
  {
  }

  lemma TakeRead(s: State, usable: set<nat>, t: nat, r: Request, d: nat, i: nat)
    requires Sound(s, usable) && Typed(s) && Enabled(s, Take(t)) && Good(s) && User(d, i)
    requires var (m, pn) := GetFreePage(s.p.mem);
             && r.task == t && !r.write && r.page == pn && r.slot < SWAP_BITS
             && Taken(s, t) == Start(s.(p := s.p.(mem := m)), r, s.task[t].goal)
    ensures Good(Taken(s, t)) <==> Harmless(s, Take(t))
    ensures Stays(s, Taken(s, t), d, i)
  {
    TakenInv(s, usable, t);
    TakeMoving(s, usable);
    TakeSynced(s, usable);
    LineOf(s, usable);
    var s' := Taken(s, t);
    var m := GetFreePage(s.p.mem).0;
    assert Joins(s, Take(t)) == if Room(s) then Some(r) else None;
    hide Good, Got, AllLast, GetFreePage, Taken, Unharmed, LineOk, MovingKept, Flush;
    ReadUnharmed(m.data, s.asked, r);
    StartGood(s, usable, s.p.(mem := m), r, s.task[t].goal);
    StartSynced(s, s.p.(mem := m), r, s.task[t].goal);
    SyncedInv(s, usable);
    SyncedInv(s', usable);
    hide Sound, Swap.Inv;
    assert Synced(s').disk == Synced(s).disk;
    StaysBy(s, s', Synced(s).(mem := m), d, i);
  }

  lemma TakeTableSynced(s: State, usable: set<nat>, t: nat, f: Fork)
    requires Sound(s, usable) && Typed(s) && Enabled(s, Take(t)) && s.task[t].goal == Table(f)
    ensures var (m, pn) := GetFreePage(s.p.mem);
            AllLast(Synced(s), Synced(s).(mem := m.(dir := m.dir[To(f) := pn])))
  {
    hide PageTables.Inv, Slots, AllLast, Got;
    assert PcOk(s.p.mem, s.task, t);
    assert SlotOf(To(f)) == f.child;
    SyncedInv(s, usable);
    TakeSynced(s, usable);
    var (m, pn) := GetFreePage(s.p.mem);
    NewTable(Synced(s), s.held, usable, To(f), Synced(s).(mem := m), pn);
  }

  /** Freed directory entries are all that goes. */
  lemma FreedStays(s: State, usable: set<nat>, s': State, held: multiset<PageNo>, d1: nat, n: nat, d: nat, i: nat)
    requires Sound(s, usable) && Sound(s', usable) && Good(s) && QuietStep(s, s') && User(d, i)
        && Freed(s.p, held, usable, d1, n, s'.p)
    ensures Good(s') && (d1 <= d < d1 + n || Stays(s, s', d, i))
  {
    hide PageTables.Inv, Slots, QuietStep, Good, PcsOk, PagesOk, LineOk;
    if d1 <= d < d1 + n {
      QuietGood(s, usable, s');
    } else {
      assert At(s'.p.mem, d, i) == At(s.p.mem, d, i);
      QuietSame(s, usable, s', d, i);
    }
  }

  /** Cursors are not looked at. */
  lemma FreedQuiet(s: State, s1: State, d1: nat, n: nat, s': State, usable: set<nat>)
    requires s1 == s.(p := s1.p) && s1.p == s.p.(dirEntry := s1.p.dirEntry, pageEntry := s1.p.pageEntry)
        && WellFormed(s.p)
    requires Freed(s1.p, s.held, usable, d1, n, s'.p) && |s.task| == |s'.task| == NR_TASKS && s'.queue == s.queue
        && s'.asked == s.asked
    requires forall u: nat {:trigger s'.task[u]} :: u < NR_TASKS && s'.task[u].Moving? ==> s'.task[u] == s.task[u]
    ensures Freed(s.p, s.held, usable, d1, n, s'.p) && QuietStep(s, s')
  {
    hide PageTables.Inv, Slots;
  }

  lemma FailBring(s: State, usable: set<nat>, s1: State, t: nat, d: nat, i: nat)
    requires Sound(s, usable) && Good(s) && User(d, i) && Sound(s1, usable) && Typed(s1) && 0 < t < NR_TASKS
        && s.task[t].Needing?
    requires s1 == s.(p := s1.p) && s1.p == s.p.(dirEntry := s1.p.dirEntry, pageEntry := s1.p.pageEntry)
    ensures var s' := s1.(p := FreeTables(s1.p, FirstDir(t), SLOT_DIRS), task := s.task[t := Empty]);
            Sound(s', usable) && Good(s') && (SlotOf(d) == t || Stays(s, s', d, i))
  {
    hide Swap.Inv, Good, PcsOk, PagesOk, LineOk, FreeTables, Freed;
    ExitInv(s1, usable, t);
    var s' := s1.(p := FreeTables(s1.p, FirstDir(t), SLOT_DIRS), task := s.task[t := Empty]);
    SyncedInv(s, usable);
    FreedQuiet(s, s1, FirstDir(t), SLOT_DIRS, s', usable);
    FreedStays(s, usable, s', s.held, FirstDir(t), SLOT_DIRS, d, i);
  }

  lemma FailFork(s: State, usable: set<nat>, s1: State, t: nat, f: Fork, d: nat, i: nat)
    requires Sound(s, usable) && Good(s) && User(d, i) && Sound(s1, usable) && Typed(s1) && t < NR_TASKS
        && s.task[t].Needing?
    requires s1 == s.(p := s1.p) && s1.p == s.p.(dirEntry := s1.p.dirEntry, pageEntry := s1.p.pageEntry)
    requires ForkOk(s1.p.mem, s1.task, t, f) && f.k < f.n
    ensures var s' := s1.(p := FreeTables(s1.p, FirstDir(f.child), f.n), task := s.task[f.child := Empty][t := Ready]);
            Sound(s', usable) && Good(s') && (SlotOf(d) == f.child || Stays(s, s', d, i))
  {
    ParentOf(s1.p.mem, s1.task, t, f);
    assert f.n <= SLOT_DIRS;
    hide Swap.Inv, Good, PcsOk, PagesOk, LineOk, FreeTables, Freed, ForkOk;
    UndoInv(s1, usable, t, f);
    var s' := s1.(p := FreeTables(s1.p, FirstDir(f.child), f.n), task := s.task[f.child := Empty][t := Ready]);
    SyncedInv(s, usable);
    FreedQuiet(s, s1, FirstDir(f.child), f.n, s', usable);
    FreedStays(s, usable, s', s.held, FirstDir(f.child), f.n, d, i);
  }

  lemma FailStays(s: State, usable: set<nat>, r: Paging, t: nat, d: nat, i: nat)
    requires Sound(s, usable) && Typed(s) && Enabled(s, Reclaim(t)) && Good(s) && User(d, i)
    requires r == s.p.(dirEntry := r.dirEntry, pageEntry := r.pageEntry) && Sound(s.(p := r), usable) && !SwapOut(s.p).1
    ensures var s' := Failed(s.(p := r), t);
            Sound(s', usable) && Good(s') && (Touches(s, Reclaim(t), d, i) || Stays(s, s', d, i))
  {
    var s1 := s.(p := r);
    InvShape(s1, usable);
    hide Swap.Inv, Good, SwapOut, PagesOk, LineOk, FreeTables, ForkOk, Stays;
    assert PcOk(s1.p.mem, s1.task, t);
    match s.task[t].goal {
      case Page => FailPage(s, usable, s1, t, d, i);
      case Bring(_, _) => FailBring(s, usable, s1, t, d, i);
      case Table(f) => FailFork(s, usable, s1, t, f, d, i);
      case Dup(f) => FailFork(s, usable, s1, t, f, d, i);
    }
  }

  lemma FailPage(s: State, usable: set<nat>, s1: State, t: nat, d: nat, i: nat)
    requires Sound(s, usable) && Good(s) && User(d, i) && Sound(s1, usable) && t < NR_TASKS
        && s.task[t] == Needing(Page)
    requires s1 == s.(p := s1.p) && s1.p == s.p.(dirEntry := s1.p.dirEntry, pageEntry := s1.p.pageEntry)
    ensures var s' := s1.(task := s.task[t := Ready]);
            Sound(s', usable) && Good(s') && Stays(s, s', d, i)
  {
    var s' := s1.(task := s.task[t := Ready]);
    TaskInv(s1, usable, t, Ready);
    SyncedInv(s, usable);
    SyncedInv(s', usable);
    hide Swap.Inv, Good, PcsOk, PagesOk, LineOk;
    QuietSame(s, usable, s', d, i);
  }

  /** A clean page is dropped. */
  lemma DropStays(s: State, usable: set<nat>, r: Paging, d1: nat, i1: nat, d: nat, i: nat)
    requires Sound(s, usable) && Good(s) && User(d, i) && User(d1, i1) && Sound(s.(p := r), usable) && WellFormed(s.p)
        && s.p.mem.dir[d1] != 0
    requires FIRST_DIR <= r.dirEntry < DIRS && -1 <= r.pageEntry < ENTRIES
    requires At(s.p.mem, d1, i1).Present? && !At(s.p.mem, d1, i1).dirty
    requires TryToSwapOut(s.p.(dirEntry := r.dirEntry, pageEntry := r.pageEntry), s.p.mem.dir[d1], i1) == (r, true)
    ensures Good(s.(p := r)) && Stays(s, s.(p := r), d, i)
  {
    SyncedInv(s, usable);
    var q := Synced(s).(dirEntry := r.dirEntry, pageEntry := r.pageEntry);
    hide PageTables.Inv, Slots, Good;
    CursorKept(Synced(s), s.held, usable, r.dirEntry, r.pageEntry);
    TryKept(q, s.held, usable, d1, i1);
    var q' := TryToSwapOut(q, q.mem.dir[d1], i1).0;
    assert q'.mem == r.mem && q'.disk == Synced(s).disk;
    assert AllLast(Synced(s), q') by {
      AllLastTwice(Synced(s), q, q');
    }
    assert QuietStep(s, s.(p := r));
    QuietStays(s, usable, s.(p := r), q', d, i);
  }

  /** A dirty page goes to a slot: from here on the slot stands for it, unless a write that the new one overtakes
      is still going to put other bytes there. */
  lemma EvictStays(s: State, usable: set<nat>, t: nat, dirEntry: nat, pageEntry: int, d1: nat, i1: nat, d: nat, i: nat)
    requires Sound(s, usable) && Typed(s) && t < NR_TASKS && s.task[t].Needing? && User(d1, i1) && s.p.mem.dir[d1] != 0
        && Good(s) && User(d, i)
    requires FIRST_DIR <= dirEntry < DIRS && -1 <= pageEntry < ENTRIES
    requires TryToSwapOut(s.p.(dirEntry := dirEntry, pageEntry := pageEntry), s.p.mem.dir[d1], i1).1
        && At(s.p.mem, d1, i1).dirty
    ensures var (p1, nr) := GetSwapPage(s.p.(dirEntry := dirEntry, pageEntry := pageEntry));
            var r := Request(t, true, At(s.p.mem, d1, i1).page, nr);
            var s' := Start(s.(p := p1.(mem := Store(s.p.mem, s.p.mem.dir[d1], i1, Swapped(nr)))), r, s.task[t].goal);
            && Good(s')
            && (!Room(s) || Unharmed(s.p.mem.data, s.asked, r, []) ==> Stays(s, s', d, i))
            && (Stays(s, s', d1, i1) ==> !Room(s) || Unharmed(s.p.mem.data, s.asked, r, []))
  {
    var p := s.p.(dirEntry := dirEntry, pageEntry := pageEntry);
    var (p1, nr) := GetSwapPage(p);
    var p2 := p1.(mem := Store(s.p.mem, s.p.mem.dir[d1], i1, Swapped(nr)));
    var r := Request(t, true, At(s.p.mem, d1, i1).page, nr);
    EvictInv(p, s.held, usable, d1, i1);
    EvictedInv(s, usable, t, dirEntry, pageEntry, d1, i1);
    LineOf(s, usable);
    var s' := Start(s.(p := p2), r, s.task[t].goal);
    SyncedInv(s, usable);
    SyncedInv(s', usable);
    hide PageTables.Inv, Slots, Good, PcsOk, PagesOk, LineOk, Unharmed, Flush;
    StartGood(s, usable, p2, r, s.task[t].goal);
    StartSynced(s, p2, r, s.task[t].goal);
    var q := Synced(s);
    var q' := q.(mem := p2.mem, disk := q.disk[nr := s.p.mem.data[r.page]]);
    if !Room(s) || Unharmed(s.p.mem.data, s.asked, r, []) {
      SwapOutLasts(q, s.held, usable, d1, i1, nr, q');
      assert Synced(s').disk == q'.disk;
      StaysBy(s, s', q', d, i);
    }
  }

  /** Other entries do not name the slot. */
  lemma ReclaimStays(s: State, usable: set<nat>, t: nat, d: nat, i: nat)
    requires Sound(s, usable) && Typed(s) && Enabled(s, Reclaim(t)) && Good(s) && User(d, i)
    ensures var s' := Reclaimed(s, t);
            && Good(s')
            && (Harmless(s, Reclaim(t)) ==> Touches(s, Reclaim(t), d, i) || Stays(s, s', d, i))
            && (!Harmless(s, Reclaim(t)) ==>
                  exists d1: nat, i1: nat :: User(d1, i1) && !Touches(s, Reclaim(t), d1, i1) && !Stays(s, s', d1, i1))
  {
    hide SwapOut, Sound, Swap.Inv, AllLast, Kept, Failed, Good, Unharmed, Stays, PcShape, SlotUsers;
    SoundPaging(s, usable);
    SwapOutTook(s.p);
    SwapOutInv(s.p, s.held, usable);
    var (r, ok, tries) := SwapOut(s.p);
    DroppedInv(s, usable, r);
    if !ok {
      FailStays(s, usable, r, t, d, i);
      ReclaimNoJoin(s, t);
      return;
    }
    var (d1, i1) := tries[|tries| - 1];
    if !At(s.p.mem, d1, i1).dirty {
      DropStays(s, usable, r, d1, i1, d, i);
    } else {
      var nr := GetSwapPage(s.p.(dirEntry := r.dirEntry, pageEntry := r.pageEntry)).1;
      var req := Request(t, true, At(s.p.mem, d1, i1).page, nr);
      assert Joins(s, Reclaim(t)) == if Room(s) then Some(req) else None;
      EvictStays(s, usable, t, r.dirEntry, r.pageEntry, d1, i1, d, i);
      assert !Touches(s, Reclaim(t), d1, i1);
    }
  }

  lemma SoundPaging(s: State, usable: set<nat>)
    requires Sound(s, usable)
    ensures Swap.Inv(s.p, s.held, usable)
  {
    hide Swap.Inv, PcsOk, PagesOk, LineOk;
  }

  lemma ReclaimNoJoin(s: State, t: nat)
    requires Typed(s) && Enabled(s, Reclaim(t)) && !SwapOut(s.p).1
    ensures Joins(s, Reclaim(t)) == None
  {
    hide SwapOut, FreeTables;
  }

  lemma CopyStays(s: State, usable: set<nat>, t: nat, d: nat, i: nat)
    requires Sound(s, usable) && Typed(s) && Enabled(s, Copy(t)) && Good(s) && User(d, i)
    ensures var s' := Copied(s, t);
            Good(s') && (Touches(s, Copy(t), d, i) || Stays(s, s', d, i))
  {
    CopiedInv(s, usable, t);
    var s' := Copied(s, t);
    hide Sound, Swap.Inv, Good, Copied, QuietStep, Stays;
    CopiedQuiet(s, usable, t);
    Shapes(s, s', usable);
    if Touches(s, Copy(t), d, i) {
      QuietGood(s, usable, s');
    } else {
      CopiedEntry(s, usable, t, d, i);
      QuietSame(s, usable, s', d, i);
    }
  }

  lemma Shapes(s: State, s': State, usable: set<nat>)
    requires Sound(s, usable) && Sound(s', usable)
    ensures WellFormed(s.p) && WellFormed(s'.p)
  {
    hide PageTables.Inv, Slots, PcsOk, PagesOk, LineOk;
  }

  /** What Copy does to memory: nothing, or one entry is shared. */
  lemma CopiedMem(s: State, usable: set<nat>, t: nat)
    requires Sound(s, usable) && Typed(s) && Enabled(s, Copy(t))
    ensures var f := s.task[t].f;
            var m := Copied(s, t).p.mem;
            && m.data == s.p.mem.data
            && (m == s.p.mem
                || (f.k < f.n && f.i < ENTRIES
                    && forall d: nat, j: nat {:trigger At(m, d, j)} :: User(d, j) && !(d == To(f) && j == f.i) ==>
                         At(m, d, j) == At(s.p.mem, d, j)
                         || (At(s.p.mem, d, j).Present? && At(m, d, j) == C.ReadOnly(At(s.p.mem, d, j)))))
  {
    var f := s.task[t].f;
    assert PcOk(s.p.mem, s.task, t);
    if f.k < f.n && f.i < ENTRIES && s.p.mem.dir[From(t, f)] != 0 && s.p.mem.dir[To(f)] != 0
        && At(s.p.mem, From(t, f), f.i).Present? {
      var fd, td := From(t, f), To(f);
      assert SlotOf(fd) == t && SlotOf(td) == f.child && InSlot(fd) == InSlot(td) && At(s.p.mem, td, f.i) == Absent;
      C.CopyEntryInv(s.p.mem, s.held, fd, td, f.i);
    }
    hide PageTables.Inv, Slots, PcsOk, PagesOk, LineOk, C.CopyEntry;
  }

  lemma CopiedEntry(s: State, usable: set<nat>, t: nat, d: nat, i: nat)
    requires Sound(s, usable) && Typed(s) && Enabled(s, Copy(t)) && User(d, i) && !Touches(s, Copy(t), d, i)
    requires PageTables.Shape(Copied(s, t).p.mem)
    ensures var m := Copied(s, t).p.mem;
            && m.data == s.p.mem.data
            && (At(m, d, i) == At(s.p.mem, d, i)
                || (At(s.p.mem, d, i).Present? && At(m, d, i) == C.ReadOnly(At(s.p.mem, d, i))))
  {
    hide Sound, Copied, At;
    CopiedMem(s, usable, t);
    var x := At(Copied(s, t).p.mem, d, i);
  }

  lemma CopiedQuiet(s: State, usable: set<nat>, t: nat)
    requires Sound(s, usable) && Typed(s) && Enabled(s, Copy(t))
    ensures QuietStep(s, Copied(s, t))
  {
    CopiedMem(s, usable, t);
    hide Sound, C.CopyEntry;
  }

  /** The first write reaches the disk, or the first read memory: only the former was awaited by its slot, and
      the latter finds what the slot stands for. */
  lemma CompleteStays(s: State, usable: set<nat>, d: nat, i: nat)
    requires Sound(s, usable) && Typed(s) && Enabled(s, Complete) && Good(s) && User(d, i)
    ensures Good(Completed(s)) && Stays(s, Completed(s), d, i)
  {
    hide Sound, Swap.Inv, Good, Completed, Stays, Synced;
    CompletedInv(s, usable);
    SyncedInv(s, usable);
    SyncedInv(Completed(s), usable);
    CompletedSynced(s, usable);
    CompletedEntry(s, usable, d, i);
    SameStays(s, Completed(s), d, i);
    CompletedGood(s, usable);
  }

  /** No page that an entry names has been filled. */
  lemma CompletedEntry(s: State, usable: set<nat>, d: nat, i: nat)
    requires Sound(s, usable) && Typed(s) && s.queue != [] && User(d, i)
    ensures var s' := Completed(s);
            && s'.p.mem.dir == s.p.mem.dir && s'.p.mem.table == s.p.mem.table
            && (At(s.p.mem, d, i).Present? ==>
                s'.p.mem.data[At(s.p.mem, d, i).page] == s.p.mem.data[At(s.p.mem, d, i).page])
  {
    if At(s.p.mem, d, i).Present? {
      NamedNotFirst(s, usable, d, i);
    }
    hide Sound;
  }

  lemma NamedNotFirst(s: State, usable: set<nat>, d: nat, i: nat)
    requires Sound(s, usable) && Typed(s) && s.queue != [] && User(d, i) && At(s.p.mem, d, i).Present?
    ensures At(s.p.mem, d, i).page != s.queue[0].page
  {
    assert Line(s)[0] == s.queue[0];
    assert s.task[s.queue[0].task].r == s.queue[0];
    NamedNotMoving(s, usable, d, i, s.queue[0].task);
  }

  /** Different requests move different pages. */
  lemma LinePages(s: State, usable: set<nat>, j: nat, k: nat)
    requires Sound(s, usable) && j < |Line(s)| && k < |Line(s)| && j != k
    ensures Line(s)[j].page != Line(s)[k].page
  {
    hide Swap.Inv, PcsOk;
    var a, b := Line(s)[j], Line(s)[k];
    assert s.task[a.task].r == a && s.task[b.task].r == b && a.task != b.task;
  }

  lemma CompletedSynced(s: State, usable: set<nat>)
    requires Sound(s, usable) && Typed(s) && s.queue != []
    ensures Synced(Completed(s)).disk == Synced(s).disk
  {
    var r := s.queue[0];
    var rest := Line(s)[1..];
    assert Line(s)[0] == r && Line(Completed(s)) == rest;
    if !r.write {
      forall k | 0 <= k < |rest|
        ensures rest[k].page != r.page
      {
        LinePages(s, usable, 0, k + 1);
      }
      hide Sound;
      FlushData(s.p.disk, s.p.mem.data, Completed(s).p.mem.data, rest);
    }
  }

  /** The list moves up by one. */
  lemma CompletedComing(s: State, usable: set<nat>, k: nat)
    requires Sound(s, usable) && Typed(s) && s.queue != [] && k + 1 < |s.queue|
    ensures s.queue[k + 1].slot < SWAP_BITS && Coming(Completed(s), k) == Coming(s, k + 1)
  {
    var r, s' := s.queue[0], Completed(s);
    assert s'.queue[..k] == s.queue[1..k + 1] && s.queue[..k + 1][1..] == s.queue[1..k + 1];
    assert Line(s)[0] == r;
    if !r.write {
      forall j | 0 <= j < k
        ensures s'.queue[..k][j].page != r.page
      {
        assert Line(s)[j + 1] == s.queue[j + 1];
        LinePages(s, usable, 0, j + 1);
      }
      hide Sound;
      FlushData(s.p.disk, s.p.mem.data, s'.p.mem.data, s'.queue[..k]);
    }
  }

  lemma CompletedGood(s: State, usable: set<nat>)
    requires Sound(s, usable) && Typed(s) && s.queue != [] && Good(s)
    requires Synced(Completed(s)).disk == Synced(s).disk
    ensures Good(Completed(s))
  {
    var s' := Completed(s);
    var r := s.queue[0];
    assert Line(s)[0] == r;
    assert s.task[r.task].Moving? && s.task[r.task].r == r;
    assert !r.write ==> s.p.disk[r.slot] == Synced(s).disk[r.slot] by {
      assert s.queue[..0] == [];
      assert !r.write ==> Coming(s, 0) == Synced(s).disk[s.queue[0].slot];
    }
    hide Swap.Inv, PcsOk, LineOk, Ordered, Flush;
    forall k: nat | k < |s'.queue| && !s'.queue[k].write && s'.queue[k].slot < SWAP_BITS
      ensures Coming(s', k) == Synced(s').disk[s'.queue[k].slot]
    {
      CompletedComing(s, usable, k);
      assert Coming(s, k + 1) == Synced(s).disk[s.queue[k + 1].slot];
    }
    forall t: nat | t < NR_TASKS && s'.task[t].Moving? && s'.task[t].done && !s'.task[t].r.write
        && s'.task[t].r.slot < SWAP_BITS
      ensures s'.p.mem.data[s'.task[t].r.page] == Synced(s').disk[s'.task[t].r.slot]
    {
      if t != r.task {
        assert s'.task[t] == s.task[t] && s.task[t].r.page != s.task[r.task].r.page;
      }
    }
  }

  lemma WakeStays(s: State, usable: set<nat>, t: nat, d: nat, i: nat)
    requires Sound(s, usable) && Typed(s) && Enabled(s, Wake(t)) && Good(s) && User(d, i)
    ensures var s' := Woken(s, t);
            Good(s') && (Touches(s, Wake(t), d, i) || Stays(s, s', d, i))
  {
    assert PcOk(s.p.mem, s.task, t);
    if s.task[t].r.write {
      WrittenStays(s, usable, t, d, i);
    } else if s.task[t].goal.Bring? {
      BroughtStays(s, usable, t, d, i);
    } else {
      DupedStays(s, usable, t, d, i);
    }
  }

  lemma WrittenStays(s: State, usable: set<nat>, t: nat, d: nat, i: nat)
    requires Sound(s, usable) && Typed(s) && Enabled(s, Wake(t)) && Good(s) && User(d, i) && s.task[t].r.write
    ensures Good(Woken(s, t)) && Stays(s, Woken(s, t), d, i)
  {
    WokenInv(s, usable, t);
    MovingHeld(s, usable, t);
    ReleaseInv(s.p, s.held, usable, s.task[t].r.page);
    var s' := Woken(s, t);
    hide PageTables.Inv, Slots, Good, PcsOk, PagesOk, LineOk, FreePage;
    assert QuietStep(s, s');
    QuietSame(s, usable, s', d, i);
  }

  /** The entries after a page has come in. */
  lemma BroughtEntries(s: State, usable: set<nat>, t: nat)
    requires Sound(s, usable) && Typed(s) && Enabled(s, Wake(t)) && !s.task[t].r.write && s.task[t].goal.Bring?
    ensures var Moving(r, Bring(d, i), _) := s.task[t];
            var m := Woken(s, t).p.mem;
            && r.slot < SWAP_BITS && Users(s.p.mem, r.page) == {} && At(s.p.mem, d, i) == Swapped(r.slot)
            && OneEntry(s.p.mem, m, d, i) && At(m, d, i) == Present(r.page, true, true) && m.data == s.p.mem.data
  {
    assert PcOk(s.p.mem, s.task, t);
    var Moving(r, Bring(d, i), _) := s.task[t];
    MovingHeld(s, usable, t);
    HeldUnused(s.p.mem, s.held, r.page);
    Installed(s.p, s.held, usable, d, i, r.page, r.slot);
  }

  lemma BroughtStays(s: State, usable: set<nat>, t: nat, d: nat, i: nat)
    requires Sound(s, usable) && Typed(s) && Enabled(s, Wake(t)) && Good(s) && User(d, i) && !s.task[t].r.write
        && s.task[t].goal.Bring?
    ensures Good(Woken(s, t)) && Stays(s, Woken(s, t), d, i)
  {
    hide Sound, Swap.Inv, Flush, Store, OneEntry;
    WokenInv(s, usable, t);
    SyncedInv(s, usable);
    BroughtEntries(s, usable, t);
    var Moving(r, Bring(d1, i1), _) := s.task[t];
    var s' := Woken(s, t);
    var q := Synced(s);
    var q' := q.(mem := s'.p.mem);
    assert q.disk[r.slot] == q.mem.data[r.page];
    assert q.mem.data[r.page := q.disk[r.slot]] == q.mem.data;
    InstalledLasts(q, d1, i1, r.page, r.slot, q');
    assert QuietStep(s, s');
    QuietStays(s, usable, s', q', d, i);
  }

  /** The entries after a swapped page has been doubled. */
  lemma DupedEntries(s: State, usable: set<nat>, t: nat)
    requires Sound(s, usable) && Typed(s) && Enabled(s, Wake(t)) && !s.task[t].r.write && s.task[t].goal.Dup?
    ensures var Moving(r, Dup(f), _) := s.task[t];
            var m := Woken(s, t).p.mem;
            && r.slot < SWAP_BITS && User(From(t, f), f.i) && User(To(f), f.i) && From(t, f) != To(f)
            && At(s.p.mem, From(t, f), f.i) == Swapped(r.slot) && At(s.p.mem, To(f), f.i) == Absent
            && m.data == s.p.mem.data
            && (forall d: nat, j: nat {:trigger At(m, d, j)} :: User(d, j) ==>
                  At(m, d, j) == if d == From(t, f) && j == f.i then Present(r.page, true, true)
                                 else if d == To(f) && j == f.i then Swapped(r.slot) else At(s.p.mem, d, j))
  {
    assert PcOk(s.p.mem, s.task, t);
    var Moving(r, Dup(f), _) := s.task[t];
    var fd, td := From(t, f), To(f);
    assert SlotOf(fd) == t && SlotOf(td) == f.child && f.child != t && At(s.p.mem, td, f.i) == Absent;
    MovingHeld(s, usable, t);
    Duped(s.p, s.held, usable, fd, td, f.i, r.page, r.slot);
  }

  lemma DupedStays(s: State, usable: set<nat>, t: nat, d: nat, i: nat)
    requires Sound(s, usable) && Typed(s) && Enabled(s, Wake(t)) && Good(s) && User(d, i) && !s.task[t].r.write
        && s.task[t].goal.Dup?
    ensures Good(Woken(s, t)) && (Touches(s, Wake(t), d, i) || Stays(s, Woken(s, t), d, i))
  {
    hide Sound, Swap.Inv, Flush, Store;
    WokenInv(s, usable, t);
    SyncedInv(s, usable);
    DupedEntries(s, usable, t);
    var Moving(r, Dup(f), _) := s.task[t];
    var s' := Woken(s, t);
    SyncedInv(s', usable);
    assert s.p.mem.data[r.page] == Synced(s).disk[r.slot];
    assert QuietStep(s, s');
    QuietGood(s, usable, s');
    if d == From(t, f) && i == f.i {
      assert At(s'.p.mem, d, i) == Present(r.page, true, true);
    } else if !(d == To(f) && i == f.i) {
      QuietSame(s, usable, s', d, i);
    }
  }

  lemma ExitStays(s: State, usable: set<nat>, t: nat, d: nat, i: nat)
    requires Sound(s, usable) && Typed(s) && Enabled(s, Exit(t)) && Good(s) && User(d, i)
    ensures var s' := Next(s, Exit(t));
            Good(s') && (SlotOf(d) == t || Stays(s, s', d, i))
  {
    hide Swap.Inv, Good, PcsOk, PagesOk, LineOk, FreeTables, Freed;
    ExitInv(s, usable, t);
    SyncedInv(s, usable);
    FreedQuiet(s, s, FirstDir(t), SLOT_DIRS, Next(s, Exit(t)), usable);
    FreedStays(s, usable, Next(s, Exit(t)), s.held, FirstDir(t), SLOT_DIRS, d, i);
  }

  lemma WriteStays(s: State, usable: set<nat>, t: nat, d1: nat, i1: nat, k: nat, v: Byte, d: nat, i: nat)
    requires Sound(s, usable) && Typed(s) && Enabled(s, Write(t, d1, i1, k, v)) && Good(s) && User(d, i)
    ensures var s' := Next(s, Write(t, d1, i1, k, v));
            Good(s') && ((d == d1 && i == i1) || Stays(s, s', d, i))
  {
    var s' := Next(s, Write(t, d1, i1, k, v));
    WriteInv(s, usable, t, d1, i1, k, v);
    C.PokeInv(s.p.mem, s.held, d1, i1, k, v);
    UsersAligned(s.p.mem, s.held, d1, i1);
    var pn := At(s.p.mem, d1, i1).page;
    forall u: nat | u < NR_TASKS && s.task[u].Moving?
      ensures s.task[u].r.page != pn
    {
      NamedNotMoving(s, usable, d1, i1, u);
    }
    hide PageTables.Inv, Slots, Good, PcsOk, PagesOk, LineOk;
    assert QuietStep(s, s');
    if d == d1 && i == i1 {
      QuietGood(s, usable, s');
    } else {
      assert At(s'.p.mem, d, i) == At(s.p.mem, d, i);
      QuietSame(s, usable, s', d, i);
    }
  }

  /** A page being moved is held by the kernel, and a copy goes to one that is not. */
  lemma UnshareQuiet(s: State, usable: set<nat>, t: nat, d: nat, i: nat)
    requires Sound(s, usable) && Typed(s) && Enabled(s, Unshare(t, d, i))
    ensures QuietStep(s, Next(s, Unshare(t, d, i)))
  {
    SoundPaging(s, usable);
    F.UnWpFrame(s.p, s.held, usable, d, i);
    forall u: nat | u < NR_TASKS && s.task[u].Moving?
      ensures s.held[s.task[u].r.page] > 0
    {
      MovingHeld(s, usable, u);
    }
    hide Sound, Swap.Inv, F.UnWp, At;
  }

  lemma UnshareStays(s: State, usable: set<nat>, t: nat, d1: nat, i1: nat, d: nat, i: nat)
    requires Sound(s, usable) && Typed(s) && Enabled(s, Unshare(t, d1, i1)) && Good(s) && User(d, i)
    ensures var s' := Next(s, Unshare(t, d1, i1));
            Good(s') && ((d == d1 && i == i1) || Stays(s, s', d, i))
  {
    hide Sound, Swap.Inv, Good, QuietStep, F.UnWp, Stays;
    var s' := Next(s, Unshare(t, d1, i1));
    UnshareInv(s, usable, t, d1, i1);
    UnshareQuiet(s, usable, t, d1, i1);
    SoundPaging(s, usable);
    F.UnWpFrame(s.p, s.held, usable, d1, i1);
    Shapes(s, s', usable);
    if d == d1 && i == i1 {
      QuietGood(s, usable, s');
    } else {
      assert At(s'.p.mem, d, i) == At(s.p.mem, d, i);
      QuietSame(s, usable, s', d, i);
    }
  }

  lemma BorrowStays(s: State, usable: set<nat>, t: nat, u: nat, k: nat, i1: nat, d: nat, i: nat)
    requires Sound(s, usable) && Typed(s) && Enabled(s, Borrow(t, u, k, i1)) && Good(s) && User(d, i)
    ensures var s' := Next(s, Borrow(t, u, k, i1));
            Good(s') && ((d == DirAt(t, k) && i == i1) || Stays(s, s', d, i))
  {
    var s' := Next(s, Borrow(t, u, k, i1));
    BorrowInv(s, usable, t, u, k, i1);
    F.ShareOverInv(s.p, s.held, usable, DirAt(u, k), DirAt(t, k), i1);
    hide PageTables.Inv, Slots, Good, PcsOk, PagesOk, LineOk, F.ShareOver;
    assert QuietStep(s, s');
    if d == DirAt(t, k) && i == i1 {
      QuietGood(s, usable, s');
    } else {
      var x := At(s'.p.mem, d, i);
      QuietSame(s, usable, s', d, i);
    }
  }

  lemma PutStays(
      s: State, usable: set<nat>, t: nat, d1: nat, i1: nat, pn: PageNo, f: Frame, dirty: bool, d: nat, i: nat)
    requires Sound(s, usable) && Typed(s) && Enabled(s, Put(t, d1, i1, pn, f, dirty)) && Good(s) && User(d, i)
    ensures var s' := Next(s, Put(t, d1, i1, pn, f, dirty));
            Good(s') && ((d == d1 && i == i1) || Stays(s, s', d, i))
  {
    var s' := Next(s, Put(t, d1, i1, pn, f, dirty));
    PutInv(s, usable, t, d1, i1, pn, f, dirty);
    PutEntry(s.p, s.held, usable, d1, i1, pn, f, dirty);
    HeldUnused(s.p.mem, s.held, pn);
    assert !At(s.p.mem, d, i).Names(pn) by {
      assert (d, i) !in Users(s.p.mem, pn);
    }
    assert s'.p.mem.data == s.p.mem.data[pn := f];
    hide PageTables.Inv, Slots, Good, PcsOk, PagesOk, LineOk, Store;
    assert QuietStep(s, s');
    if d == d1 && i == i1 {
      QuietGood(s, usable, s');
    } else {
      assert At(s'.p.mem, d, i) == At(s.p.mem, d, i);
      QuietSame(s, usable, s', d, i);
    }
  }

  lemma PutTableStays(s: State, usable: set<nat>, t: nat, d1: nat, pn: PageNo, d: nat, i: nat)
    requires Sound(s, usable) && Typed(s) && Enabled(s, PutTable(t, d1, pn)) && Good(s) && User(d, i)
    ensures Good(Next(s, PutTable(t, d1, pn))) && Stays(s, Next(s, PutTable(t, d1, pn)), d, i)
  {
    PutTableInv(s, usable, t, d1, pn);
    var s' := Next(s, PutTable(t, d1, pn));
    hide PageTables.Inv, Slots, Good, PcsOk, PagesOk, LineOk, At;
    assert QuietStep(s, s');
    QuietSame(s, usable, s', d, i);
  }

  lemma ReleaseStays(s: State, usable: set<nat>, pn: PageNo, d: nat, i: nat)
    requires Sound(s, usable) && Typed(s) && Enabled(s, Release(pn)) && Good(s) && User(d, i)
    ensures Good(Next(s, Release(pn))) && Stays(s, Next(s, Release(pn)), d, i)
  {
    ReleasedInv(s, usable, pn);
    ReleaseInv(s.p, s.held, usable, pn);
    var s' := Next(s, Release(pn));
    hide PageTables.Inv, Slots, Good, PcsOk, PagesOk, LineOk, FreePage;
    assert QuietStep(s, s');
    QuietSame(s, usable, s', d, i);
  }

  lemma CallStays(s: State, usable: set<nat>, step: Step, d: nat, i: nat)
    requires Sound(s, usable) && Typed(s) && Enabled(s, step) && Good(s) && User(d, i)
    requires step.Fault? || step.Ask? || step.Clone? || step.Buffers?
    ensures Good(Next(s, step)) && Stays(s, Next(s, step), d, i)
  {
    StepInv(s, usable, step);
    SyncedInv(s, usable);
    SyncedInv(Next(s, step), usable);
    hide Swap.Inv, Good, PcsOk, PagesOk, LineOk;
    assert QuietStep(s, Next(s, step));
    QuietSame(s, usable, Next(s, step), d, i);
  }

  /** One step: an entry it is not about goes on standing for what it stood for, however far its page has got on
      the way to the disk or back, unless the step puts a request on the list that does harm. */
  lemma StepStays(s: State, usable: set<nat>, step: Step, d: nat, i: nat)
    requires Sound(s, usable) && Typed(s) && Enabled(s, step) && Good(s) && Harmless(s, step) && User(d, i)
    ensures Good(Next(s, step)) && (Touches(s, step, d, i) || Stays(s, Next(s, step), d, i))
  {
    hide Sound, Good, Stays, Taken, Reclaimed, Copied, Completed, Woken, FreeTables, Unharmed, Flush;
    match step {
      case Copy(t) => CopyStays(s, usable, t, d, i);
      case Take(t) => TakeStays(s, usable, t, d, i);
      case Reclaim(t) => ReclaimStays(s, usable, t, d, i);
      case Admit(j) => AdmitStays(s, usable, j, d, i);
      case Complete => CompleteStays(s, usable, d, i);
      case Wake(t) => WakeStays(s, usable, t, d, i);
      case Exit(t) => ExitStays(s, usable, t, d, i);
      case Write(t, d1, i1, k, v) => WriteStays(s, usable, t, d1, i1, k, v, d, i);
      case Unshare(t, d1, i1) => UnshareStays(s, usable, t, d1, i1, d, i);
      case Borrow(t, u, k, i1) => BorrowStays(s, usable, t, u, k, i1, d, i);
      case Put(t, d1, i1, pn, f, dirty) => PutStays(s, usable, t, d1, i1, pn, f, dirty, d, i);
      case PutTable(t, d1, pn) => PutTableStays(s, usable, t, d1, pn, d, i);
      case Release(pn) => ReleaseStays(s, usable, pn, d, i);
      case _ => CallStays(s, usable, step, d, i);
    }
  }

  /** Nothing is lost by the step: reads find what their entries stand for, and entries it is not about go on
      standing for what they stood for. */
  ghost predicate LosesNothing(s: State, step: Step)
    requires Typed(s) && Enabled(s, step)
  {
    && Good(Next(s, step))
    && (forall d: nat, i: nat {:trigger Stays(s, Next(s, step), d, i)} :: User(d, i) && !Touches(s, step, d, i) ==>
        Stays(s, Next(s, step), d, i))
  }

  /** The condition is exact, for any step, whatever requests are on the list and whatever others wait. */
  lemma StepExact(s: State, usable: set<nat>, step: Step)
    requires Sound(s, usable) && Typed(s) && Enabled(s, step) && Good(s)
    ensures LosesNothing(s, step) <==> Harmless(s, step)
  {
    hide Sound, Good, Stays, Next, Enabled, Typed, Touches, Harmless;
    if Harmless(s, step) {
      StepStays(s, usable, step, SLOT_DIRS, 0);
      forall d: nat, i: nat | User(d, i) && !Touches(s, step, d, i)
        ensures Stays(s, Next(s, step), d, i)
      {
        StepStays(s, usable, step, d, i);
      }
    } else {
      HarmLoses(s, usable, step);
    }
  }

  lemma HarmLoses(s: State, usable: set<nat>, step: Step)
    requires Sound(s, usable) && Typed(s) && Enabled(s, step) && Good(s) && !Harmless(s, step)
    ensures !LosesNothing(s, step)
  {
    hide Sound, Good, Stays, Taken, Reclaimed, Unharmed, Flush;
    match step {
      case Take(t) => TakeStays(s, usable, t, SLOT_DIRS, 0);
      case Reclaim(t) => ReclaimStays(s, usable, t, SLOT_DIRS, 0);
      case Admit(j) =>
        if forall d: nat, i: nat :: User(d, i) ==> Stays(s, Next(s, step), d, i) {
          AdmitHarms(s, usable, j);
        }
      case _ =>
    }
  }

  /** A request that overtakes none for its slot does no harm. */
  lemma InOrderHarmless(s: State, usable: set<nat>, step: Step)
    requires Sound(s, usable) && Typed(s) && Enabled(s, step) && Good(s) && InOrder(s, step)
    ensures Harmless(s, step)
  {
    hide Sound, Flush, Taken, Reclaimed;
    if Joins(s, step).Some? {
      var r := Joins(s, step).value;
      NoneAhead(s.p.mem.data, Ahead(s, step), r.slot);
      StepInv(s, usable, step);
      InvShape(Next(s, step), usable);
      if !r.write {
        FlushConcat(s.p.disk, s.p.mem.data, s.queue, s.asked);
        forall k | 0 <= k < |s.asked| && s.asked[k].write
          ensures s.asked[k].slot != r.slot
        {
          if k < |Ahead(s, step)| {
            assert Ahead(s, step)[k] == s.asked[k];
          } else {
            assert step.Admit? && s.asked[step.j] == r;
          }
        }
        FlushOther(Flush(s.p.disk, s.p.mem.data, s.queue), s.p.mem.data, s.asked, r.slot);
      }
    }
  }

  lemma {:induction false} NoneAhead(data: seq<Frame>, line: seq<Request>, n: nat)
    requires forall k {:trigger line[k]} :: 0 <= k < |line| ==> line[k].slot != n
    ensures LastBytes(data, line, n) == None
    decreases |line|
  {
    if line != [] {
      NoneAhead(data, line[..|line| - 1], n);
    }
  }
}

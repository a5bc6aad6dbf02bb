/**
 Swapping with its disk transfers taken apart: a task sleeps while a page is written or read, and the
 others go on. The request list of the swap device is first in, first out for pages; it shares a table
 of 32 requests with the buffers, and a task that finds the table full waits with its request.

 get_free_page never sleeps between looking for a page and using it, nor does swap_out before it
 writes; the steps below may still be interleaved with the others there, so the runs include more
 than the kernel can do.
*/
module SwapIo {
  import opened PageTables
  import opened Swap
  import C = CowPaging
  import F = SwapFaults

  const NR_REQUEST: nat := 32

  /** How far a fork is: at entry `i` of its directory entry `k`, of `n`. */
  datatype Fork = Fork(child: nat, n: nat, k: nat, i: nat)

  /** What a task wants a page for. */
  datatype Goal =
    | Page                      // the kernel's own use
    | Bring(d: nat, i: nat)     // swap_in
    | Table(f: Fork)            // a page table of the child
    | Dup(f: Fork)              // a swapped entry of the parent

  /** One transfer between page `page` and swap slot `slot`, for which `task` sleeps. */
  datatype Request = Request(task: nat, write: bool, page: PageNo, slot: nat)

  datatype Pc =
    | Empty                                          // no such task
    | Ready                                          // outside the code below
    | Born(parent: nat)                              // being built by a fork
    | Copying(f: Fork)                               // in copy_page_tables
    | Needing(goal: Goal)                            // in get_free_page
    | Moving(r: Request, goal: Goal, done: bool)     // asleep in ll_rw_page until the transfer is done
  {
    predicate Owns(pn: PageNo) {
      Moving? && r.page == pn
    }
  }

  /** `queue` is the list of page requests, `asked` those that wait for a free request, in the order they came. */
  datatype State = State(
    p: Paging,
    held: multiset<PageNo>,     // pages the kernel holds
    task: seq<Pc>,
    queue: seq<Request>,
    asked: seq<Request>,
    buffers: nat)               // requests the buffers occupy

  ghost predicate ForkShape(f: Fork) {
    0 < f.child < NR_TASKS && f.k <= f.n <= SLOT_DIRS && f.i <= ENTRIES
  }

  ghost predicate GoalShape(g: Goal) {
    match g
    case Page => true
    case Bring(d, i) => User(d, i)
    case Table(f) => ForkShape(f) && f.k < f.n && f.i < ENTRIES
    case Dup(f) => ForkShape(f) && f.k < f.n && f.i < ENTRIES
  }

  ghost predicate PcShape(pc: Pc) {
    match pc
    case Copying(f) => ForkShape(f)
    case Needing(g) => GoalShape(g)
    case Moving(r, g, _) => GoalShape(g) && r.task < NR_TASKS && r.slot < SWAP_BITS
    case _ => true
  }

  ghost predicate Typed(s: State) {
    && WellFormed(s.p) && |s.task| == NR_TASKS
    && (forall t {:trigger s.task[t]} :: 0 <= t < NR_TASKS ==> PcShape(s.task[t]))
    && (forall k {:trigger s.queue[k]} :: 0 <= k < |s.queue| ==>
        s.queue[k].task < NR_TASKS && s.queue[k].slot < SWAP_BITS)
    && (forall k {:trigger s.asked[k]} :: 0 <= k < |s.asked| ==>
        s.asked[k].task < NR_TASKS && s.asked[k].slot < SWAP_BITS)
  }

  /** The swap slot an entry names; 0 is none. */
  function SlotIn(e: Entry): (n: nat)
    ensures n < SWAP_BITS
  {
    if e.Swapped? && e.slot < SWAP_BITS then e.slot else 0
  }

  // -------------------------------------------------------------------- steps

  datatype Step =
    | Fault(t: nat, d: nat, i: nat)                    // a page fault on a swapped entry
    | Ask(t: nat)                                      // the kernel asks for a page on behalf of `t`
    | Clone(t: nat, child: nat, n: nat)                // copy_mem starts
    | Copy(t: nat)                                     // one entry of copy_page_tables
    | Take(t: nat)                                     // get_free_page finds a free page
    | Reclaim(t: nat)                                  // it finds none and calls swap_out
    | Admit(j: nat)                                    // a waiting request is put on the list
    | Complete                                         // the first transfer of the list is done
    | Wake(t: nat)                                     // its task runs again
    | Exit(t: nat)
    | Write(t: nat, d: nat, i: nat, k: nat, v: Byte)   // a user writes to a page it may write
    | Unshare(t: nat, d: nat, i: nat)                  // un_wp_page that need not wait for a page
    | Borrow(t: nat, u: nat, k: nat, i: nat)           // try_to_share from task `u`, with a page table in place
    | Put(t: nat, d: nat, i: nat, pn: PageNo, f: Frame, dirty: bool)    // put_page, put_dirty_page
    | PutTable(t: nat, d: nat, pn: PageNo)             // their page table
    | Release(pn: PageNo)                              // the kernel frees a page it holds
    | Buffers(n: nat)                                  // buffer requests come and go

  /** A page of the kernel's that no transfer is about. */
  ghost predicate Spare(s: State, pn: PageNo)
    requires Typed(s)
  {
    LOW_PAGES <= pn < s.p.mem.high && s.held[pn] == 1 && forall t: nat :: t < NR_TASKS ==> !s.task[t].Owns(pn)
  }

  /** The page is counted once. */
  predicate Alone(m: Mem, pn: PageNo)
    requires PageTables.Shape(m)
  {
    LOW_PAGES <= pn && m.count[pn - LOW_PAGES] == 1
  }

  predicate Room(s: State) {
    |s.queue| + s.buffers < NR_REQUEST
  }

  /** Task `t` runs, and directory entry `d` is its own. */
  predicate Runs(s: State, t: nat, d: nat)
    requires |s.task| == NR_TASKS
  {
    0 < t < NR_TASKS && s.task[t].Ready? && SLOT_DIRS <= d < DIRS && SlotOf(d) == t
  }

  ghost predicate Enabled(s: State, step: Step)
    requires Typed(s)
  {
    var m := s.p.mem;
    match step
    case Fault(t, d, i) => Runs(s, t, d) && i < ENTRIES && m.dir[d] != 0 && At(m, d, i).Swapped?
    case Ask(t) => t < NR_TASKS && s.task[t].Ready?
    case Clone(t, c, n) => 0 < t < NR_TASKS && 0 < c < NR_TASKS && n <= SLOT_DIRS && s.task[t].Ready?
        && s.task[c].Empty?
    case Copy(t) => 0 < t < NR_TASKS && s.task[t].Copying?
    case Take(t) => t < NR_TASKS && s.task[t].Needing? && GetFreePage(m).1 != 0
    case Reclaim(t) => t < NR_TASKS && s.task[t].Needing? && GetFreePage(m).1 == 0
    case Admit(j) => j < |s.asked| && Room(s)
    case Complete => s.queue != []
    case Wake(t) => t < NR_TASKS && s.task[t].Moving? && s.task[t].done
    case Exit(t) => 0 < t < NR_TASKS && s.task[t].Ready?
    case Write(t, d, i, k, _) => Runs(s, t, d) && i < ENTRIES && k < PAGE_SIZE && At(m, d, i).Present? && At(m, d, i).rw
    case Unshare(t, d, i) => Runs(s, t, d) && i < ENTRIES && At(m, d, i).Present? && !At(m, d, i).rw
        && (Alone(m, At(m, d, i).page) || GetFreePage(m).1 != 0)
    case Borrow(t, u, k, i) => 0 < u < NR_TASKS && u != t && k < SLOT_DIRS && i < ENTRIES && Runs(s, t, DirAt(t, k))
        && m.dir[DirAt(t, k)] != 0 && At(m, DirAt(t, k), i) == Absent
        && (var e := At(m, DirAt(u, k), i); e.Present? && !e.dirty && LOW_PAGES <= e.page < m.high)
    case Put(t, d, i, pn, f, _) => Runs(s, t, d) && i < ENTRIES && m.dir[d] != 0 && At(m, d, i) == Absent
        && Spare(s, pn) && |f| == PAGE_SIZE
    case PutTable(t, d, pn) => Runs(s, t, d) && m.dir[d] == 0 && Spare(s, pn) && m.table[pn] == NoEntries()
    case Release(pn) => Spare(s, pn)
    case Buffers(n) => |s.queue| + n <= NR_REQUEST
  }

  /** The directory entries a fork is at: the parent's and the child's. */
  function From(t: nat, f: Fork): nat { DirAt(t, f.k) }

  function To(f: Fork): nat { DirAt(f.child, f.k) }

  /** ll_rw_page: the request goes on the list if the table has room, and its task sleeps. */
  function Start(s: State, r: Request, goal: Goal): (s': State)
    requires |s.task| == NR_TASKS && r.task < NR_TASKS
    ensures |s'.task| == NR_TASKS
  {
    var s1 := s.(task := s.task[r.task := Moving(r, goal, false)], held := s.held + multiset{r.page});
    if Room(s) then s1.(queue := s.queue + [r]) else s1.(asked := s.asked + [r])
  }

  /** get_free_page has a page: what follows up to the next sleep. */
  function Taken(s: State, t: nat): (s': State)
    requires Typed(s) && 0 <= t < NR_TASKS && s.task[t].Needing?
    ensures |s'.task| == NR_TASKS
  {
    var (m, pn) := GetFreePage(s.p.mem);
    var s1 := s.(p := s.p.(mem := m));
    match s.task[t].goal
    case Page => s1.(held := s.held + multiset{pn}, task := s.task[t := Ready])
    case Bring(d, i) => Start(s1, Request(t, false, pn, SlotIn(At(s.p.mem, d, i))), Bring(d, i))
    case Table(f) => s1.(p := s1.p.(mem := m.(dir := m.dir[To(f) := pn])), task := s.task[t := Copying(f)])
    case Dup(f) => Start(s1, Request(t, false, pn, SlotIn(At(s.p.mem, From(t, f), f.i))), Dup(f))
  }

  /** Out of memory: a fault kills its task, a fork is undone. */
  function Failed(s: State, t: nat): (s': State)
    requires Typed(s) && 0 <= t < NR_TASKS && s.task[t].Needing?
    ensures |s'.task| == NR_TASKS
  {
    match s.task[t].goal
    case Page => s.(task := s.task[t := Ready])
    case Bring(_, _) => s.(p := FreeTables(s.p, FirstDir(t), SLOT_DIRS), task := s.task[t := Empty])
    case Table(f) => s.(p := FreeTables(s.p, FirstDir(f.child), f.n), task := s.task[f.child := Empty][t := Ready])
    case Dup(f) => s.(p := FreeTables(s.p, FirstDir(f.child), f.n), task := s.task[f.child := Empty][t := Ready])
  }

  /** swap_out: a clean page is dropped and the search for a page goes on; a dirty one is written first. */
  function Reclaimed(s: State, t: nat): (s': State)
    requires Typed(s) && 0 <= t < NR_TASKS && s.task[t].Needing?
    ensures |s'.task| == NR_TASKS
  {
    SwapOutTook(s.p);
    var (r, ok, tries) := SwapOut(s.p);
    if !ok then Failed(s.(p := r), t)
    else
      var (d, i) := tries[|tries| - 1];
      var e := At(s.p.mem, d, i);
      if !e.dirty then s.(p := r)
      else
        var (p1, nr) := GetSwapPage(s.p.(dirEntry := r.dirEntry, pageEntry := r.pageEntry));
        Start(s.(p := p1.(mem := Store(s.p.mem, s.p.mem.dir[d], i, Swapped(nr)))), Request(t, true, e.page, nr),
            s.task[t].goal)
  }

  /** One entry of copy_page_tables. */
  function Copied(s: State, t: nat): (s': State)
    requires Typed(s) && 0 <= t < NR_TASKS && s.task[t].Copying?
    ensures |s'.task| == NR_TASKS
  {
    var f := s.task[t].f;
    if f.k == f.n then s.(task := s.task[f.child := Ready][t := Ready])
    else
      var ft, tt := s.p.mem.dir[From(t, f)], s.p.mem.dir[To(f)];
      if f.i == ENTRIES || (f.i == 0 && ft == 0) then s.(task := s.task[t := Copying(f.(k := f.k + 1, i := 0))])
      else if f.i == 0 && tt == 0 then s.(task := s.task[t := Needing(Table(f))])
      else
        match s.p.mem.table[ft][f.i]
        case Absent => s.(task := s.task[t := Copying(f.(i := f.i + 1))])
        case Present(_, _, _) =>
          s.(p := s.p.(mem := C.CopyEntry(s.p.mem, ft, tt, f.i)), task := s.task[t := Copying(f.(i := f.i + 1))])
        case Swapped(_) => s.(task := s.task[t := Needing(Dup(f))])
  }

  function Done(pc: Pc): Pc {
    match pc
    case Moving(r, g, _) => Moving(r, g, true)
    case _ => pc
  }

  /** The device has moved the page of the first request; the other buffers' requests stay. */
  function Completed(s: State): (s': State)
    requires Typed(s) && s.queue != []
    ensures |s'.task| == NR_TASKS
  {
    var r := s.queue[0];
    var s1 := s.(queue := s.queue[1..], task := s.task[r.task := Done(s.task[r.task])]);
    if r.write then s1.(p := s.p.(disk := s.p.disk[r.slot := s.p.mem.data[r.page]]))
    else s1.(p := s.p.(mem := s.p.mem.(data := s.p.mem.data[r.page := s.p.disk[r.slot]])))
  }

  /** What a task does when its transfer is done, up to its next look for a page, entry to copy, or its user code. */
  function Woken(s: State, t: nat): (s': State)
    requires Typed(s) && 0 <= t < NR_TASKS && s.task[t].Moving?
    ensures |s'.task| == NR_TASKS
  {
    var Moving(r, goal, _) := s.task[t];
    var s1 := s.(held := s.held - multiset{r.page});
    if r.write then s1.(p := s.p.(mem := FreePage(s.p.mem, r.page)), task := s.task[t := Needing(goal)])
    else
      match goal
      case Bring(d, i) =>
        s1.(p := s.p.(mem := Store(s.p.mem, s.p.mem.dir[d], i, Present(r.page, true, true)),
            bits := s.p.bits[r.slot := true]),
            task := s.task[t := Ready])
      case Dup(f) =>
        var m := Store(s.p.mem, s.p.mem.dir[To(f)], f.i, Swapped(r.slot));
        s1.(p := s.p.(mem := Store(m, m.dir[From(t, f)], f.i, Present(r.page, true, true))),
            task := s.task[t := Copying(f.(i := f.i + 1))])
      case _ => s
  }

  function Next(s: State, step: Step): (s': State)
    requires Typed(s) && Enabled(s, step)
    ensures |s'.task| == NR_TASKS
  {
    match step
    case Fault(t, d, i) => s.(task := s.task[t := Needing(Bring(d, i))])
    case Ask(t) => s.(task := s.task[t := Needing(Page)])
    case Clone(t, c, n) => s.(task := s.task[c := Born(t)][t := Copying(Fork(c, n, 0, 0))])
    case Copy(t) => Copied(s, t)
    case Take(t) => Taken(s, t)
    case Reclaim(t) => Reclaimed(s, t)
    case Admit(j) => s.(queue := s.queue + [s.asked[j]], asked := s.asked[..j] + s.asked[j + 1..])
    case Complete => Completed(s)
    case Wake(t) => Woken(s, t)
    case Exit(t) => s.(p := FreeTables(s.p, FirstDir(t), SLOT_DIRS), task := s.task[t := Empty])
    case Write(t, d, i, k, v) => s.(p := s.p.(mem := C.Poke(s.p.mem, s.p.mem.dir[d], i, k, v)))
    case Unshare(t, d, i) => s.(p := F.UnWp(s.p, s.p.mem.dir[d], i).0)
    case Borrow(t, u, k, i) =>
      var fd := DirAt(u, k);
      s.(p := F.ShareOver(s.p, s.p.mem.dir[fd], s.p.mem.dir[DirAt(t, k)], i, At(s.p.mem, fd, i).page))
    case Put(t, d, i, pn, f, dirty) =>
      s.(p := s.p.(mem := Store(s.p.mem.(data := s.p.mem.data[pn := f]), s.p.mem.dir[d], i, Present(pn, true, dirty))),
         held := s.held - multiset{pn})
    case PutTable(t, d, pn) => s.(p := s.p.(mem := s.p.mem.(dir := s.p.mem.dir[d := pn])),
        held := s.held - multiset{pn})
    case Release(pn) => s.(p := s.p.(mem := FreePage(s.p.mem, pn)), held := s.held - multiset{pn})
    case Buffers(n) => s.(buffers := n)
  }

  // ---------------------------------------------------------------- invariant

  /** The child is this task's, its directory entries behind the one being copied are empty, and so are the entries
      of that one behind the one being copied. */
  ghost predicate ForkOk(m: Mem, task: seq<Pc>, t: nat, f: Fork)
    requires PageTables.Shape(m) && |task| == NR_TASKS
  {
    && 0 < t < NR_TASKS && ForkShape(f) && task[f.child] == Born(t)
    && (forall k: nat {:trigger DirAt(f.child, k)} :: f.k < k < SLOT_DIRS ==> m.dir[DirAt(f.child, k)] == 0)
    && (f.k < f.n ==> forall j: nat {:trigger At(m, To(f), j)} :: f.i <= j < ENTRIES ==> At(m, To(f), j) == Absent)
    && (f.k < f.n && f.i > 0 ==> m.dir[From(t, f)] != 0 && m.dir[To(f)] != 0)
  }

  /** The entry a transfer into memory is for. */
  ghost predicate Names(m: Mem, t: nat, g: Goal, slot: nat)
    requires PageTables.Shape(m) && t < NR_TASKS && GoalShape(g)
  {
    match g
    case Bring(d, i) => At(m, d, i) == Swapped(slot)
    case Dup(f) => At(m, From(t, f), f.i) == Swapped(slot)
    case _ => false
  }

  ghost predicate GoalOk(m: Mem, task: seq<Pc>, t: nat, g: Goal)
    requires PageTables.Shape(m) && |task| == NR_TASKS && t < NR_TASKS
  {
    && GoalShape(g)
    && match g
       case Page => true
       case Bring(d, i) => 0 < t && SlotOf(d) == t && m.dir[d] != 0 && At(m, d, i).Swapped?
       case Table(f) => ForkOk(m, task, t, f) && f.i == 0 && m.dir[From(t, f)] != 0 && m.dir[To(f)] == 0
       case Dup(f) =>
         && ForkOk(m, task, t, f) && m.dir[From(t, f)] != 0 && m.dir[To(f)] != 0
         && At(m, From(t, f), f.i).Swapped?
  }

  ghost predicate PcOk(m: Mem, task: seq<Pc>, t: nat)
    requires PageTables.Shape(m) && |task| == NR_TASKS && t < NR_TASKS
  {
    match task[t]
    case Empty => t > 0 ==> forall k: nat {:trigger DirAt(t, k)} :: k < SLOT_DIRS ==> m.dir[DirAt(t, k)] == 0
    case Copying(f) => ForkOk(m, task, t, f)
    case Needing(g) => GoalOk(m, task, t, g)
    case Moving(r, g, _) =>
      GoalOk(m, task, t, g) && r.task == t && 0 < r.slot < SWAP_BITS && (r.write || Names(m, t, g, r.slot))
    case _ => true
  }

  function Line(s: State): seq<Request> {
    s.queue + s.asked
  }

  /** Each request is that of a sleeping task, and no task has two. */
  ghost predicate LineOk(task: seq<Pc>, line: seq<Request>)
    requires |task| == NR_TASKS
  {
    && (forall k {:trigger line[k]} :: 0 <= k < |line| ==>
          line[k].task < NR_TASKS && task[line[k].task].Moving? && task[line[k].task].r == line[k]
              && !task[line[k].task].done)
    && (forall j, k {:trigger line[j], line[k]} :: 0 <= j < k < |line| ==> line[j].task != line[k].task)
  }

  /** A page being moved is held once, for this one transfer. */
  ghost predicate PagesOk(m: Mem, held: multiset<PageNo>, task: seq<Pc>)
    requires |task| == NR_TASKS
  {
    && (forall t: nat {:trigger task[t]} :: t < NR_TASKS && task[t].Moving? ==>
        LOW_PAGES <= task[t].r.page < m.high && held[task[t].r.page] == 1)
    && (forall t: nat, u: nat {:trigger task[t], task[u]} ::
          t < NR_TASKS && u < NR_TASKS && t != u && task[t].Moving? && task[u].Moving? ==>
              task[t].r.page != task[u].r.page)
  }

  ghost predicate PcsOk(m: Mem, task: seq<Pc>)
    requires PageTables.Shape(m) && |task| == NR_TASKS
  {
    forall t: nat {:trigger PcOk(m, task, t)} :: t < NR_TASKS ==> PcOk(m, task, t)
  }

  ghost predicate Sound(s: State, usable: set<nat>) {
    true == (
      && |s.task| == NR_TASKS && Swap.Inv(s.p, s.held, usable)
      && PcsOk(s.p.mem, s.task) && PagesOk(s.p.mem, s.held, s.task) && LineOk(s.task, Line(s)))
  }

  lemma InvShape(s: State, usable: set<nat>)
    requires Sound(s, usable)
    ensures Typed(s)
  {
    hide PageTables.Inv, Slots;
    forall t: nat | t < NR_TASKS
      ensures PcShape(s.task[t])
    {
      assert PcOk(s.p.mem, s.task, t);
    }
    forall k: nat | k < |Line(s)|
      ensures Line(s)[k].task < NR_TASKS && Line(s)[k].slot < SWAP_BITS
    {
      var r := Line(s)[k];
      assert s.task[r.task].Moving? && s.task[r.task].r == r;
      assert PcOk(s.p.mem, s.task, r.task);
    }
    assert forall k :: 0 <= k < |s.queue| ==> s.queue[k] == Line(s)[k];
    assert forall k :: 0 <= k < |s.asked| ==> s.asked[k] == Line(s)[|s.queue| + k];
  }

  // -------------------------------------------------- what the others rely on

  /** Outside tasks `a` and `b`, tables and entries without a page are as they were. */
  ghost predicate Outside(m: Mem, r: Mem, a: nat, b: nat) {
    && PageTables.Shape(m) && PageTables.Shape(r)
    && (forall d: nat {:trigger r.dir[d]} :: SLOT_DIRS <= d < DIRS && SlotOf(d) != a && SlotOf(d) != b ==>
        r.dir[d] == m.dir[d])
    && (forall d: nat, i: nat {:trigger At(r, d, i)} ::
          User(d, i) && SlotOf(d) != a && SlotOf(d) != b && !At(m, d, i).Present? ==> At(r, d, i) == At(m, d, i))
  }

  /** The task table has changed for `a` and `b` only, and `b` is a child of `a`, or no task, before and after. */
  ghost predicate OnlyChanged(task: seq<Pc>, task': seq<Pc>, a: nat, b: nat) {
    && |task| == |task'| == NR_TASKS
    && (forall u: nat {:trigger task'[u]} :: u < NR_TASKS && u != a && u != b ==> task'[u] == task[u])
    && (a < NR_TASKS ==> !task[a].Born?)
    && (b < NR_TASKS ==> task[b] == Empty || task[b] == Born(a))
  }

  lemma ForkKept(m: Mem, r: Mem, task: seq<Pc>, task': seq<Pc>, a: nat, b: nat, t: nat, f: Fork)
    requires Outside(m, r, a, b) && OnlyChanged(task, task', a, b) && t != a && t != b && ForkOk(m, task, t, f)
    ensures ForkOk(r, task', t, f)
  {
    assert f.child != a && f.child != b;
    assert task'[f.child] == task[f.child];
    forall k: nat | f.k < k < SLOT_DIRS
      ensures r.dir[DirAt(f.child, k)] == 0
    {
      assert SlotOf(DirAt(f.child, k)) == f.child;
    }
    if f.k < f.n {
      assert SlotOf(To(f)) == f.child && SlotOf(From(t, f)) == t;
      assert r.dir[To(f)] == m.dir[To(f)] && r.dir[From(t, f)] == m.dir[From(t, f)];
      forall j: nat | f.i <= j < ENTRIES
        ensures At(r, To(f), j) == Absent
      {
        assert At(m, To(f), j) == Absent;
      }
    }
  }

  lemma GoalKept(m: Mem, r: Mem, task: seq<Pc>, task': seq<Pc>, a: nat, b: nat, t: nat, g: Goal)
    requires Outside(m, r, a, b) && OnlyChanged(task, task', a, b) && t < NR_TASKS && t != a && t != b
        && GoalOk(m, task, t, g)
    ensures GoalOk(r, task', t, g)
    ensures forall slot: nat :: Names(m, t, g, slot) ==> Names(r, t, g, slot)
  {
    match g {
      case Page =>
      case Bring(d, i) =>
        assert r.dir[d] == m.dir[d] && At(r, d, i) == At(m, d, i);
      case Table(f) =>
        ForkKept(m, r, task, task', a, b, t, f);
        assert SlotOf(To(f)) == f.child && SlotOf(From(t, f)) == t && f.child != a && f.child != b;
        assert r.dir[To(f)] == m.dir[To(f)] && r.dir[From(t, f)] == m.dir[From(t, f)];
      case Dup(f) =>
        ForkKept(m, r, task, task', a, b, t, f);
        assert SlotOf(To(f)) == f.child && SlotOf(From(t, f)) == t && f.child != a && f.child != b;
        assert r.dir[To(f)] == m.dir[To(f)] && r.dir[From(t, f)] == m.dir[From(t, f)];
        assert At(r, From(t, f), f.i) == At(m, From(t, f), f.i);
    }
  }

  lemma PcKept(m: Mem, r: Mem, task: seq<Pc>, task': seq<Pc>, a: nat, b: nat, t: nat)
    requires Outside(m, r, a, b) && OnlyChanged(task, task', a, b) && t < NR_TASKS && t != a && t != b
        && PcOk(m, task, t)
    ensures PcOk(r, task', t)
  {
    hide GoalOk, ForkOk, Names;
    assert task'[t] == task[t];
    match task[t] {
      case Empty =>
        forall k: nat | t > 0 && k < SLOT_DIRS
          ensures r.dir[DirAt(t, k)] == 0
        {
          assert SlotOf(DirAt(t, k)) == t;
        }
      case Copying(f) => ForkKept(m, r, task, task', a, b, t, f);
      case Needing(g) => GoalKept(m, r, task, task', a, b, t, g);
      case Moving(_, g, _) => GoalKept(m, r, task, task', a, b, t, g);
      case _ =>
    }
  }

  /** The states of all tasks, from the states of the ones that changed. */
  lemma PcsKept(m: Mem, r: Mem, task: seq<Pc>, task': seq<Pc>, a: nat, b: nat)
    requires Outside(m, r, a, b) && OnlyChanged(task, task', a, b) && PcsOk(m, task)
    requires a < NR_TASKS ==> PcOk(r, task', a)
    requires b < NR_TASKS ==> PcOk(r, task', b)
    ensures PcsOk(r, task')
  {
    forall t: nat | t < NR_TASKS
      ensures PcOk(r, task', t)
    {
      if t != a && t != b {
        assert PcOk(m, task, t);
        PcKept(m, r, task, task', a, b, t);
      }
    }
  }

  // ------------------------------------------------------ what each step keeps

  lemma OutsideSame(m: Mem, a: nat, b: nat)
    requires PageTables.Shape(m)
    ensures Outside(m, m, a, b)
  {
  }

  lemma OutsideMore(m: Mem, r: Mem, a: nat, b: nat)
    requires Outside(m, r, NR_TASKS, NR_TASKS)
    ensures Outside(m, r, a, b)
  {
  }

  lemma OutsideKept(s: Paging, held: multiset<PageNo>, usable: set<nat>, r: Paging)
    requires WellFormed(s) && Kept(s, held, usable, r)
    ensures Outside(s.mem, r.mem, NR_TASKS, NR_TASKS)
  {
    hide AllLast, Slots, PageTables.Inv;
  }

  lemma LineKept(task: seq<Pc>, task': seq<Pc>, line: seq<Request>)
    requires |task| == |task'| == NR_TASKS && LineOk(task, line)
    requires forall u: nat {:trigger task'[u]} :: u < NR_TASKS && task[u].Moving? && !task[u].done ==>
        task'[u] == task[u]
    ensures LineOk(task', line)
  {
    forall k | 0 <= k < |line|
      ensures task'[line[k].task] == task[line[k].task]
    {
    }
  }

  lemma PagesKept(m: Mem, held: multiset<PageNo>, task: seq<Pc>, r: Mem, held': multiset<PageNo>, task': seq<Pc>)
    requires |task| == |task'| == NR_TASKS && PagesOk(m, held, task) && r.high == m.high
    requires forall u: nat {:trigger task'[u]} :: u < NR_TASKS && task'[u].Moving? ==>
               task[u].Moving? && task[u].r == task'[u].r && held'[task'[u].r.page] == held[task'[u].r.page]
    ensures PagesOk(r, held', task')
  {
    forall t: nat, u: nat | t < NR_TASKS && u < NR_TASKS && t != u && task'[t].Moving? && task'[u].Moving?
      ensures task'[t].r.page != task'[u].r.page
    {
      assert task[t].r == task'[t].r && task[u].r == task'[u].r;
    }
    forall t: nat | t < NR_TASKS && task'[t].Moving?
      ensures LOW_PAGES <= task'[t].r.page < r.high && held'[task'[t].r.page] == 1
    {
      assert task[t].r == task'[t].r;
    }
  }

  /** Only the state of a task that is not moving a page has changed. */
  lemma TaskInv(s: State, usable: set<nat>, t: nat, pc: Pc)
    requires Sound(s, usable) && t < NR_TASKS && !s.task[t].Born? && !s.task[t].Moving? && !pc.Moving?
    requires PcOk(s.p.mem, s.task[t := pc], t)
    ensures Sound(s.(task := s.task[t := pc]), usable)
  {
    hide Slots, PageTables.Inv, PcOk;
    OutsideSame(s.p.mem, t, NR_TASKS);
    PcsKept(s.p.mem, s.p.mem, s.task, s.task[t := pc], t, NR_TASKS);
    PagesKept(s.p.mem, s.held, s.task, s.p.mem, s.held, s.task[t := pc]);
    LineKept(s.task, s.task[t := pc], Line(s));
  }

  /** A task's goal does not depend on its own state. */
  lemma GoalOwn(m: Mem, task: seq<Pc>, t: nat, g: Goal, pc: Pc)
    requires PageTables.Shape(m) && |task| == NR_TASKS && t < NR_TASKS && GoalOk(m, task, t, g) && !task[t].Born?
    ensures GoalOk(m, task[t := pc], t, g)
  {
    match g {
      case Table(f) => assert f.child != t;
      case Dup(f) => assert f.child != t;
      case _ =>
    }
  }

  lemma CloneInv(s: State, usable: set<nat>, t: nat, c: nat, n: nat)
    requires Sound(s, usable) && Typed(s) && Enabled(s, Clone(t, c, n))
    ensures Sound(Next(s, Clone(t, c, n)), usable)
  {
    hide Slots, PageTables.Inv;
    var task' := s.task[c := Born(t)][t := Copying(Fork(c, n, 0, 0))];
    assert PcOk(s.p.mem, s.task, c);
    forall j: nat | n > 0 && j < ENTRIES
      ensures At(s.p.mem, DirAt(c, 0), j) == Absent
    {
    }
    OutsideSame(s.p.mem, t, c);
    PcsKept(s.p.mem, s.p.mem, s.task, task', t, c);
    PagesKept(s.p.mem, s.held, s.task, s.p.mem, s.held, task');
    LineKept(s.task, task', Line(s));
  }

  lemma AdmitInv(s: State, usable: set<nat>, j: nat)
    requires Sound(s, usable) && Typed(s) && Enabled(s, Admit(j))
    ensures Sound(Next(s, Admit(j)), usable)
  {
    hide Slots, PageTables.Inv, PcsOk, PagesOk;
    var s' := Next(s, Admit(j));
    var n := |s.queue|;
    assert forall k :: 0 <= k < |Line(s')| ==>
      Line(s')[k] == Line(s)[if k < n then k else if k == n then n + j else if k <= n + j then k - 1 else k];
  }

  /** A transfer of a page nobody held begins. */
  lemma StartInv(s: State, usable: set<nat>, p: Paging, r: Request, goal: Goal)
    requires Sound(s, usable) && r.task < NR_TASKS && s.task[r.task] == Needing(goal)
    requires Swap.Inv(p, s.held + multiset{r.page}, usable) && s.held[r.page] == 0
        && LOW_PAGES <= r.page < p.mem.high == s.p.mem.high
    requires Outside(s.p.mem, p.mem, NR_TASKS, NR_TASKS)
    requires GoalOk(s.p.mem, s.task, r.task, goal) && 0 < r.slot < SWAP_BITS
        && (r.write || Names(s.p.mem, r.task, goal, r.slot))
    ensures Sound(Start(s.(p := p), r, goal), usable)
  {
    hide Slots, PageTables.Inv, ForkOk, GoalOk, Names;
    var t := r.task;
    var pc := Moving(r, goal, false);
    var task' := s.task[t := pc];
    GoalKept(s.p.mem, p.mem, s.task, s.task, NR_TASKS, NR_TASKS, t, goal);
    GoalOwn(p.mem, s.task, t, goal, pc);
    PcsKept(s.p.mem, p.mem, s.task, task', t, NR_TASKS);
    StartPages(s, p.mem, r, pc);
    StartLine(s, r, goal);
  }

  lemma StartPages(s: State, m: Mem, r: Request, pc: Pc)
    requires |s.task| == NR_TASKS && PagesOk(s.p.mem, s.held, s.task) && r.task < NR_TASKS && !s.task[r.task].Moving?
    requires pc.Moving? && pc.r == r && s.held[r.page] == 0 && LOW_PAGES <= r.page < m.high == s.p.mem.high
    ensures PagesOk(m, s.held + multiset{r.page}, s.task[r.task := pc])
  {
    var task' := s.task[r.task := pc];
    forall u: nat | u < NR_TASKS && u != r.task && s.task[u].Moving?
      ensures s.task[u].r.page != r.page && task'[u] == s.task[u]
    {
    }
  }

  /** A new request anywhere in the line. */
  lemma LineInsert(task: seq<Pc>, line: seq<Request>, n: nat, r: Request, goal: Goal)
    requires |task| == NR_TASKS && LineOk(task, line) && r.task < NR_TASKS && !task[r.task].Moving? && n <= |line|
    ensures LineOk(task[r.task := Moving(r, goal, false)], line[..n] + [r] + line[n..])
  {
    var task' := task[r.task := Moving(r, goal, false)];
    var line' := line[..n] + [r] + line[n..];
    forall k | 0 <= k < |line|
      ensures line[k].task != r.task && task'[line[k].task] == task[line[k].task]
    {
    }
    assert forall k :: 0 <= k < |line'| ==> line'[k] == if k < n then line[k] else if k == n then r else line[k - 1];
  }

  lemma StartLine(s: State, r: Request, goal: Goal)
    requires |s.task| == NR_TASKS && LineOk(s.task, Line(s)) && r.task < NR_TASKS && !s.task[r.task].Moving?
    ensures LineOk(Start(s, r, goal).task, Line(Start(s, r, goal)))
  {
    hide LineOk;
    var s' := Start(s, r, goal);
    if Room(s) {
      LineInsert(s.task, Line(s), |s.queue|, r, goal);
      assert Line(s') == Line(s)[..|s.queue|] + [r] + Line(s)[|s.queue|..];
    } else {
      LineInsert(s.task, Line(s), |Line(s)|, r, goal);
      assert Line(s') == Line(s)[..|Line(s)|] + [r] + Line(s)[|Line(s)|..];
    }
  }

  lemma ReadGoal(s: State, usable: set<nat>, t: nat)
    requires Sound(s, usable) && Typed(s) && t < NR_TASKS && s.task[t].Needing?
        && (s.task[t].goal.Bring? || s.task[t].goal.Dup?)
    ensures GoalOk(s.p.mem, s.task, t, s.task[t].goal)
    ensures var e := match s.task[t].goal case Bring(d, i) => At(s.p.mem, d, i)
        case Dup(f) => At(s.p.mem, From(t, f), f.i) case _ => Absent;
            0 < SlotIn(e) < SWAP_BITS && Names(s.p.mem, t, s.task[t].goal, SlotIn(e))
  {
    hide Slots, PageTables.Inv;
    assert PcOk(s.p.mem, s.task, t);
    match s.task[t].goal {
      case Bring(d, i) => SlotNamed(s.p, s.held, usable, d, i);
      case Dup(f) => SlotNamed(s.p, s.held, usable, From(t, f), f.i);
    }
  }

  // ------------------------------------------------------------ get_free_page

  /** What get_free_page gives, for the whole state. */
  lemma TakePage(s: State, usable: set<nat>)
    requires Sound(s, usable) && GetFreePage(s.p.mem).1 != 0
    ensures var (m, pn) := GetFreePage(s.p.mem);
            var p := s.p.(mem := m);
            && Got(s.p, s.held, usable, p, pn) && Swap.Inv(p, s.held + multiset{pn}, usable) && AllLast(s.p, p)
            && m.dir == s.p.mem.dir
            && s.held[pn] == 0 && LOW_PAGES <= pn < m.high == s.p.mem.high && Outside(s.p.mem, m, NR_TASKS, NR_TASKS)
            && m.table[pn] == NoEntries() && (forall q: PageNo :: q != pn ==> m.data[q] == s.p.mem.data[q])
  {
    hide Slots, PageTables.Inv, AllLast, Outside;
    TakenKept(s.p, s.held, usable);
    GetFreePageInv(s.p.mem, s.held);
    var (m, pn) := GetFreePage(s.p.mem);
    OutsideKept(s.p, s.held + multiset{pn}, usable, s.p.(mem := m));
  }

  lemma TakenInv(s: State, usable: set<nat>, t: nat)
    requires Sound(s, usable) && Typed(s) && Enabled(s, Take(t))
    ensures Sound(Taken(s, t), usable)
  {
    hide Slots, PageTables.Inv, AllLast, Outside, PcShape, ForkOk, Names;
    var (m, pn) := GetFreePage(s.p.mem);
    var p := s.p.(mem := m);
    TakePage(s, usable);
    match s.task[t].goal {
      case Page => TakenPage(s, usable, t);
      case Bring(d, i) =>
        ReadGoal(s, usable, t);
        StartInv(s, usable, p, Request(t, false, pn, SlotIn(At(s.p.mem, d, i))), Bring(d, i));
      case Table(f) => TakenTable(s, usable, t, f);
      case Dup(f) =>
        ReadGoal(s, usable, t);
        StartInv(s, usable, p, Request(t, false, pn, SlotIn(At(s.p.mem, From(t, f), f.i))), Dup(f));
    }
  }

  lemma TakenPage(s: State, usable: set<nat>, t: nat)
    requires Sound(s, usable) && Typed(s) && Enabled(s, Take(t)) && s.task[t].goal == Page
    ensures Sound(Taken(s, t), usable)
  {
    hide Slots, PageTables.Inv, AllLast, Outside, Got;
    var (m, pn) := GetFreePage(s.p.mem);
    TakePage(s, usable);
    var task' := s.task[t := Ready];
    OutsideMore(s.p.mem, m, t, NR_TASKS);
    PcsKept(s.p.mem, m, s.task, task', t, NR_TASKS);
    PagesKept(s.p.mem, s.held, s.task, m, s.held + multiset{pn}, task');
    LineKept(s.task, task', Line(s));
  }

  lemma TakenTable(s: State, usable: set<nat>, t: nat, f: Fork)
    requires Sound(s, usable) && Typed(s) && Enabled(s, Take(t)) && s.task[t].goal == Table(f)
    ensures Sound(Taken(s, t), usable)
    ensures AllLast(s.p, Taken(s, t).p)
  {
    hide Slots, PageTables.Inv, AllLast, Got;
    assert PcOk(s.p.mem, s.task, t);
    var (m, pn) := GetFreePage(s.p.mem);
    TakePage(s, usable);
    var td := To(f);
    assert SlotOf(td) == f.child;
    NewTable(s.p, s.held, usable, td, s.p.(mem := m), pn);
    var r := m.(dir := m.dir[td := pn]);
    var task' := s.task[t := Copying(f)];
    assert ForkOk(r, task', t, f);
    assert Outside(s.p.mem, r, t, f.child);
    hide PcOk, Outside;
    BornOk(r, task', f.child);
    PcsKept(s.p.mem, r, s.task, task', t, f.child);
    PagesKept(s.p.mem, s.held, s.task, r, s.held, task');
    LineKept(s.task, task', Line(s));
  }

  lemma BornOk(m: Mem, task: seq<Pc>, t: nat)
    requires PageTables.Shape(m) && |task| == NR_TASKS && t < NR_TASKS && (task[t].Born? || task[t].Ready?)
    ensures PcOk(m, task, t)
  {
  }

  // ----------------------------------------------------------------- swap_out

  /** A dirty page leaves its entry; the page stays held until it is written. */
  lemma EvictInv(p: Paging, held: multiset<PageNo>, usable: set<nat>, d: nat, i: nat)
    requires Swap.Inv(p, held, usable) && User(d, i) && p.mem.dir[d] != 0 && TryToSwapOut(p, p.mem.dir[d], i).1
        && At(p.mem, d, i).dirty
    ensures var pn := At(p.mem, d, i).page;
            var (p1, nr) := GetSwapPage(p);
            var r := p1.(mem := Store(p.mem, p.mem.dir[d], i, Swapped(nr)));
            && held[pn] == 0 && LOW_PAGES <= pn < p.mem.high && 0 < nr < SWAP_BITS && p.bits[nr]
            && Swap.Inv(r, held + multiset{pn}, usable) && OneEntry(p.mem, r.mem, d, i)
            && At(r.mem, d, i) == Swapped(nr)
  {
    var e := At(p.mem, d, i);
    var pn := e.page;
    var (p1, nr) := GetSwapPage(p);
    var r := p1.(mem := Store(p.mem, p.mem.dir[d], i, Swapped(nr)));
    StoreAt(p.mem, d, i, Swapped(nr));
    WritableUnique(p.mem, held, d, i);
    CountsPage(p.mem, held, d, i);
    Replace(p.mem, held, r.mem, held + multiset{pn}, d, i);
    hide PageTables.Inv;
    SlotsOneEntry(p.mem, p.bits, usable, r.mem, r.bits, d, i);
  }

  lemma CountsPage(m: Mem, held: multiset<PageNo>, d: nat, i: nat)
    requires PageTables.Inv(m, held) && User(d, i) && At(m, d, i).Present? && LOW_PAGES <= At(m, d, i).page
    ensures held[At(m, d, i).page] == 0 && At(m, d, i).page < m.high && !IsTable(m, At(m, d, i).page)
  {
  }

  /** The task goes on looking; only pages have left entries. */
  lemma DroppedInv(s: State, usable: set<nat>, r: Paging)
    requires Sound(s, usable) && Kept(s.p, s.held, usable, r)
    ensures Sound(s.(p := r), usable)
  {
    hide Slots, PageTables.Inv, AllLast, Outside, PcsOk, LineOk;
    OutsideKept(s.p, s.held, usable, r);
    PcsKept(s.p.mem, r.mem, s.task, s.task, NR_TASKS, NR_TASKS);
    PagesKept(s.p.mem, s.held, s.task, r.mem, s.held, s.task);
  }

  /** The address space of slot `u`, or its first `n` directory entries, is freed. */
  lemma FreedOutside(s: Paging, held: multiset<PageNo>, usable: set<nat>, u: nat, n: nat, r: Paging, a: nat)
    requires Freed(s, held, usable, FirstDir(u), n, r) && n <= SLOT_DIRS && 0 < u < NR_TASKS
    ensures Outside(s.mem, r.mem, a, u) && Outside(s.mem, r.mem, u, a)
    ensures (forall k: nat :: n <= k < SLOT_DIRS ==> s.mem.dir[DirAt(u, k)] == 0) ==> forall k: nat :: k < SLOT_DIRS ==>
        r.mem.dir[DirAt(u, k)] == 0
  {
    hide Slots, PageTables.Inv;
  }

  lemma ExitInv(s: State, usable: set<nat>, t: nat)
    requires Sound(s, usable) && Typed(s) && 0 < t < NR_TASKS && !s.task[t].Born? && !s.task[t].Moving?
    ensures var r := FreeTables(s.p, FirstDir(t), SLOT_DIRS);
            Sound(s.(p := r, task := s.task[t := Empty]), usable)
                && Freed(s.p, s.held, usable, FirstDir(t), SLOT_DIRS, r)
  {
    hide Slots, PageTables.Inv, Outside, FreeTables, LineOk;
    FreeTablesInv(s.p, s.held, usable, FirstDir(t), SLOT_DIRS);
    var r := FreeTables(s.p, FirstDir(t), SLOT_DIRS);
    FreedOutside(s.p, s.held, usable, t, SLOT_DIRS, r, NR_TASKS);
    var task' := s.task[t := Empty];
    assert PcOk(r.mem, task', t);
    PcsKept(s.p.mem, r.mem, s.task, task', t, NR_TASKS);
    PagesKept(s.p.mem, s.held, s.task, r.mem, s.held, task');
    LineKept(s.task, task', Line(s));
  }

  /** A fork gives up: the child is gone. */
  lemma UndoInv(s: State, usable: set<nat>, t: nat, f: Fork)
    requires Sound(s, usable) && Typed(s) && 0 < t < NR_TASKS && !s.task[t].Born? && !s.task[t].Moving?
        && ForkOk(s.p.mem, s.task, t, f) && f.k < f.n
    ensures var r := FreeTables(s.p, FirstDir(f.child), f.n);
            && Sound(s.(p := r, task := s.task[f.child := Empty][t := Ready]), usable)
            && Freed(s.p, s.held, usable, FirstDir(f.child), f.n, r)
  {
    FreeTablesInv(s.p, s.held, usable, FirstDir(f.child), f.n);
    hide Slots, PageTables.Inv, Outside, FreeTables;
    var r := FreeTables(s.p, FirstDir(f.child), f.n);
    FreedOutside(s.p, s.held, usable, f.child, f.n, r, t);
    var task' := s.task[f.child := Empty][t := Ready];
    PcsKept(s.p.mem, r.mem, s.task, task', t, f.child);
    PagesKept(s.p.mem, s.held, s.task, r.mem, s.held, task');
    LineKept(s.task, task', Line(s));
  }

  lemma FailedInv(s: State, usable: set<nat>, t: nat)
    requires Sound(s, usable) && Typed(s) && t < NR_TASKS && s.task[t].Needing?
    ensures Sound(Failed(s, t), usable)
  {
    assert PcOk(s.p.mem, s.task, t);
    hide Slots, PageTables.Inv, Freed, FreeTables, ForkOk;
    match s.task[t].goal {
      case Page => TaskInv(s, usable, t, Ready);
      case Bring(_, _) => ExitInv(s, usable, t);
      case Table(f) => ParentOf(s.p.mem, s.task, t, f); UndoInv(s, usable, t, f);
      case Dup(f) => ParentOf(s.p.mem, s.task, t, f); UndoInv(s, usable, t, f);
    }
  }

  lemma ParentOf(m: Mem, task: seq<Pc>, t: nat, f: Fork)
    requires PageTables.Shape(m) && |task| == NR_TASKS && ForkOk(m, task, t, f)
    ensures 0 < t < NR_TASKS && 0 < f.child < NR_TASKS && (f.k < f.n ==> task[f.child] == Born(t))
  {
  }

  lemma ReclaimedInv(s: State, usable: set<nat>, t: nat)
    requires Sound(s, usable) && Typed(s) && Enabled(s, Reclaim(t))
    ensures Sound(Reclaimed(s, t), usable)
  {
    SwapOutTook(s.p);
    SwapOutInv(s.p, s.held, usable);
    var (r, ok, tries) := SwapOut(s.p);
    hide SwapOut, Slots, PageTables.Inv, AllLast, Kept, PcShape, PcsOk, PagesOk, LineOk, Failed;
    DroppedInv(s, usable, r);
    if !ok {
      InvShape(s.(p := r), usable);
      FailedInv(s.(p := r), usable, t);
      return;
    }
    var (d, i) := tries[|tries| - 1];
    if At(s.p.mem, d, i).dirty {
      EvictedInv(s, usable, t, r.dirEntry, r.pageEntry, d, i);
    }
  }

  lemma EvictedInv(s: State, usable: set<nat>, t: nat, dirEntry: nat, pageEntry: int, d: nat, i: nat)
    requires Sound(s, usable) && Typed(s) && t < NR_TASKS && s.task[t].Needing? && User(d, i) && s.p.mem.dir[d] != 0
    requires FIRST_DIR <= dirEntry < DIRS && -1 <= pageEntry < ENTRIES
    requires TryToSwapOut(s.p.(dirEntry := dirEntry, pageEntry := pageEntry), s.p.mem.dir[d], i).1
        && At(s.p.mem, d, i).dirty
    ensures var (p1, nr) := GetSwapPage(s.p.(dirEntry := dirEntry, pageEntry := pageEntry));
            Sound(Start(s.(p := p1.(mem := Store(s.p.mem, s.p.mem.dir[d], i, Swapped(nr)))),
                      Request(t, true, At(s.p.mem, d, i).page, nr), s.task[t].goal), usable)
  {
    var p := s.p.(dirEntry := dirEntry, pageEntry := pageEntry);
    assert PcOk(s.p.mem, s.task, t);
    EvictInv(p, s.held, usable, d, i);
    var (p1, nr) := GetSwapPage(p);
    var m := Store(s.p.mem, s.p.mem.dir[d], i, Swapped(nr));
    assert Outside(s.p.mem, m, NR_TASKS, NR_TASKS);
    hide Slots, PageTables.Inv, Outside, GoalOk, GetSwapPage;
    StartInv(s, usable, p1.(mem := m), Request(t, true, At(s.p.mem, d, i).page, nr), s.task[t].goal);
  }

  // --------------------------------------------------------- copy_page_tables

  lemma CopiedInv(s: State, usable: set<nat>, t: nat)
    requires Sound(s, usable) && Typed(s) && Enabled(s, Copy(t))
    ensures Sound(Copied(s, t), usable)
  {
    var f := s.task[t].f;
    assert PcOk(s.p.mem, s.task, t);
    hide Slots, PageTables.Inv;
    if f.k == f.n {
      ForkEnds(s, usable, t);
      return;
    }
    var ft, tt := s.p.mem.dir[From(t, f)], s.p.mem.dir[To(f)];
    if f.i < ENTRIES && !(f.i == 0 && (ft == 0 || tt == 0)) && s.p.mem.table[ft][f.i].Present? {
      CopiedPresent(s, usable, t);
      return;
    }
    var f' := Copied(s, t).task[t];
    hide C.CopyEntry;
    CopiedNext(s.p.mem, s.task, t, f);
    TaskInv(s, usable, t, f');
  }

  lemma ForkEnds(s: State, usable: set<nat>, t: nat)
    requires Sound(s, usable) && Typed(s) && Enabled(s, Copy(t)) && s.task[t].f.k == s.task[t].f.n
    ensures Sound(Copied(s, t), usable)
  {
    hide Slots, PageTables.Inv;
    assert PcOk(s.p.mem, s.task, t);
    var f := s.task[t].f;
    var task' := s.task[f.child := Ready][t := Ready];
    OutsideSame(s.p.mem, t, f.child);
    PcsKept(s.p.mem, s.p.mem, s.task, task', t, f.child);
    PagesKept(s.p.mem, s.held, s.task, s.p.mem, s.held, task');
    LineKept(s.task, task', Line(s));
  }

  /** The next state of a fork that has nothing to copy at `f`. */
  lemma CopiedNext(m: Mem, task: seq<Pc>, t: nat, f: Fork)
    requires PageTables.Shape(m) && |task| == NR_TASKS && ForkOk(m, task, t, f) && f.k < f.n && task[t] == Copying(f)
    ensures var ft, tt := m.dir[From(t, f)], m.dir[To(f)];
            && (f.i == ENTRIES || (f.i == 0 && ft == 0) ==> PcOk(m, task[t := Copying(f.(k := f.k + 1, i := 0))], t))
            && (f.i < ENTRIES && f.i == 0 && ft != 0 && tt == 0 ==> PcOk(m, task[t := Needing(Table(f))], t))
            && (f.i < ENTRIES && ft != 0 && tt != 0 && m.table[ft][f.i] == Absent ==>
                PcOk(m, task[t := Copying(f.(i := f.i + 1))], t))
            && (f.i < ENTRIES && ft != 0 && tt != 0 && m.table[ft][f.i].Swapped? ==>
                PcOk(m, task[t := Needing(Dup(f))], t))
  {
    assert f.child != t;
    if f.i == ENTRIES || (f.i == 0 && m.dir[From(t, f)] == 0) {
      var f' := f.(k := f.k + 1, i := 0);
      if f'.k < f'.n {
        assert m.dir[DirAt(f.child, f'.k)] == 0;
        assert forall j: nat :: j < ENTRIES ==> At(m, To(f'), j) == Absent;
      }
    }
  }

  /** From one state to the next, `f` having moved on by one entry that the child now has. */
  lemma ForkStepped(m: Mem, r: Mem, task: seq<Pc>, task': seq<Pc>, t: nat, f: Fork)
    requires PageTables.Shape(m) && PageTables.Shape(r) && |task| == |task'| == NR_TASKS && ForkOk(m, task, t, f)
        && f.k < f.n && f.i < ENTRIES
    requires r.dir == m.dir && m.dir[From(t, f)] != 0 && m.dir[To(f)] != 0 && task'[f.child] == task[f.child]
    requires forall j: nat {:trigger At(r, To(f), j)} :: f.i < j < ENTRIES ==> At(r, To(f), j) == At(m, To(f), j)
    ensures ForkOk(r, task', t, f.(i := f.i + 1))
  {
    var f' := f.(i := f.i + 1);
    assert To(f') == To(f) && From(t, f') == From(t, f);
    forall j: nat | f'.i <= j < ENTRIES
      ensures At(r, To(f'), j) == Absent
    {
      assert At(m, To(f), j) == Absent;
    }
  }

  /** Memory after a present entry has been shared. */
  lemma SharedEntry(s: State, usable: set<nat>, t: nat, f: Fork)
    requires Sound(s, usable) && Typed(s) && t < NR_TASKS && s.task[t] == Copying(f)
    requires f.k < f.n && f.i < ENTRIES && s.p.mem.dir[From(t, f)] != 0 && s.p.mem.dir[To(f)] != 0
        && At(s.p.mem, From(t, f), f.i).Present?
    ensures var r := C.CopyEntry(s.p.mem, s.p.mem.dir[From(t, f)], s.p.mem.dir[To(f)], f.i);
            && Swap.Inv(s.p.(mem := r), s.held, usable) && r.dir == s.p.mem.dir && r.high == s.p.mem.high
            && Outside(s.p.mem, r, t, f.child)
            && forall j: nat {:trigger At(r, To(f), j)} :: f.i < j < ENTRIES ==>
                At(r, To(f), j) == At(s.p.mem, To(f), j)
  {
    assert PcOk(s.p.mem, s.task, t);
    var fd, td := From(t, f), To(f);
    assert SlotOf(fd) == t && SlotOf(td) == f.child && InSlot(fd) == InSlot(td);
    assert At(s.p.mem, td, f.i) == Absent;
    C.CopyEntryInv(s.p.mem, s.held, fd, td, f.i);
    var r := C.CopyEntry(s.p.mem, s.p.mem.dir[fd], s.p.mem.dir[td], f.i);
    hide PageTables.Inv, C.CopyEntry, PcsOk, PagesOk, LineOk;
    SlotsNoSwap(s.p.mem, s.p.bits, usable, r);
  }

  lemma CopiedPresent(s: State, usable: set<nat>, t: nat)
    requires Sound(s, usable) && Typed(s) && Enabled(s, Copy(t))
    requires var f := s.task[t].f;
             && f.k < f.n && f.i < ENTRIES && s.p.mem.dir[From(t, f)] != 0 && s.p.mem.dir[To(f)] != 0
             && At(s.p.mem, From(t, f), f.i).Present?
    ensures Sound(Copied(s, t), usable)
  {
    hide PageTables.Inv, Slots, C.CopyEntry, Outside, LineOk;
    assert PcOk(s.p.mem, s.task, t);
    var f := s.task[t].f;
    SharedEntry(s, usable, t, f);
    var r := C.CopyEntry(s.p.mem, s.p.mem.dir[From(t, f)], s.p.mem.dir[To(f)], f.i);
    var task' := s.task[t := Copying(f.(i := f.i + 1))];
    assert f.child != t && task'[f.child] == s.task[f.child];
    ForkStepped(s.p.mem, r, s.task, task', t, f);
    BornOk(r, task', f.child);
    PcsKept(s.p.mem, r, s.task, task', t, f.child);
    PagesKept(s.p.mem, s.held, s.task, r, s.held, task');
    LineKept(s.task, task', Line(s));
  }

  // ---------------------------------------------------------------- transfers

  /** A page the kernel holds is nobody's table and in nobody's entry. */
  lemma HeldUnused(m: Mem, held: multiset<PageNo>, pn: PageNo)
    requires PageTables.Inv(m, held) && held[pn] > 0 && LOW_PAGES <= pn
    ensures Users(m, pn) == {} && !IsTable(m, pn) && m.count[pn - LOW_PAGES] == held[pn]
  {
    forall d: nat, i: nat | User(d, i)
      ensures !At(m, d, i).Names(pn)
    {
    }
  }

  lemma LetGo(held: multiset<PageNo>, pn: PageNo)
    requires held[pn] > 0
    ensures var h := held - multiset{pn};
            h + multiset{pn} == held && h[pn] == held[pn] - 1 && forall q: PageNo :: q != pn ==> h[q] == held[q]
  {
  }

  /** Pages the kernel holds may be filled. */
  lemma FillInv(p: Paging, held: multiset<PageNo>, usable: set<nat>, pn: PageNo, f: Frame)
    requires Swap.Inv(p, held, usable) && held[pn] > 0 && LOW_PAGES <= pn < p.mem.high && |f| == PAGE_SIZE
    ensures var m := p.mem.(data := p.mem.data[pn := f]);
            Swap.Inv(p.(mem := m), held, usable) && forall d: nat, i: nat {:trigger At(m, d, i)} :: User(d, i) ==>
                At(m, d, i) == At(p.mem, d, i)
  {
    var m := p.mem.(data := p.mem.data[pn := f]);
    HeldUnused(p.mem, held, pn);
    assert forall d: nat, i: nat :: User(d, i) ==> At(m, d, i) == At(p.mem, d, i);
    TakeInv(p.mem, held, m, held, pn);
    hide PageTables.Inv;
    SlotsSame(p.mem, p.bits, usable, m);
  }

  /** The kernel gives a page back. */
  lemma ReleaseInv(p: Paging, held: multiset<PageNo>, usable: set<nat>, pn: PageNo)
    requires Swap.Inv(p, held, usable) && held[pn] == 1 && LOW_PAGES <= pn < p.mem.high
    ensures var m := FreePage(p.mem, pn);
            && Swap.Inv(p.(mem := m), held - multiset{pn}, usable) && m.dir == p.mem.dir && m.data == p.mem.data
            && m.high == p.mem.high
            && forall d: nat, i: nat {:trigger At(m, d, i)} :: User(d, i) ==> At(m, d, i) == At(p.mem, d, i)
  {
    var m := FreePage(p.mem, pn);
    HeldUnused(p.mem, held, pn);
    LetGo(held, pn);
    assert forall d: nat, i: nat :: User(d, i) ==> At(m, d, i) == At(p.mem, d, i);
    TakeInv(p.mem, held, m, held - multiset{pn}, pn);
    hide PageTables.Inv;
    SlotsSame(p.mem, p.bits, usable, m);
  }

  /** The first request leaves the line. */
  lemma CompletedLine(task: seq<Pc>, line: seq<Request>)
    requires |task| == NR_TASKS && LineOk(task, line) && line != []
    ensures LineOk(task[line[0].task := Done(task[line[0].task])], line[1..])
  {
    var task' := task[line[0].task := Done(task[line[0].task])];
    forall k | 0 <= k < |line[1..]|
      ensures task'[line[1..][k].task] == task[line[k + 1].task] && line[k + 1].task < NR_TASKS
          && line[1..][k] == line[k + 1]
    {
      assert line[0].task != line[k + 1].task;
    }
  }

  lemma CompletedInv(s: State, usable: set<nat>)
    requires Sound(s, usable) && Typed(s) && Enabled(s, Complete)
    ensures Sound(Completed(s), usable)
  {
    var r := s.queue[0];
    assert Line(s)[0] == r;
    var s' := Completed(s);
    assert Line(s') == Line(s)[1..];
    CompletedLine(s.task, Line(s));
    assert PcOk(s.p.mem, s.task, r.task);
    if !r.write {
      FillInv(s.p, s.held, usable, r.page, s.p.disk[r.slot]);
    }
    hide Slots, PageTables.Inv;
    assert Outside(s.p.mem, s'.p.mem, NR_TASKS, NR_TASKS);
    PagesKept(s.p.mem, s.held, s.task, s'.p.mem, s.held, s'.task);
    hide LineOk, PagesOk;
    MovedOk(s.p.mem, s'.p.mem, s.task, r.task);
    OutsideMore(s.p.mem, s'.p.mem, r.task, NR_TASKS);
    hide PcOk, Outside;
    PcsKept(s.p.mem, s'.p.mem, s.task, s'.task, r.task, NR_TASKS);
  }

  lemma MovedOk(m: Mem, r: Mem, task: seq<Pc>, t: nat)
    requires Outside(m, r, NR_TASKS, NR_TASKS) && |task| == NR_TASKS && t < NR_TASKS && task[t].Moving?
        && PcOk(m, task, t)
    ensures PcOk(r, task[t := Done(task[t])], t)
  {
    hide GoalOk, Names;
    GoalKept(m, r, task, task, NR_TASKS, NR_TASKS, t, task[t].goal);
    GoalOwn(r, task, t, task[t].goal, Done(task[t]));
  }

  lemma WokenInv(s: State, usable: set<nat>, t: nat)
    requires Sound(s, usable) && Typed(s) && Enabled(s, Wake(t))
    ensures Sound(Woken(s, t), usable)
  {
    assert PcOk(s.p.mem, s.task, t);
    hide Slots, PageTables.Inv, ForkOk, LineOk, PagesOk;
    var Moving(r, goal, _) := s.task[t];
    if r.write {
      WrittenInv(s, usable, t);
    } else if goal.Bring? {
      BroughtInv(s, usable, t);
    } else {
      DupedInv(s, usable, t);
    }
  }

  /** What is left to show once the page of a transfer has been given away and the task goes on as `pc`. */
  lemma WakeInv(s: State, usable: set<nat>, t: nat, p: Paging, pc: Pc, b: nat)
    requires Sound(s, usable) && Typed(s) && t < NR_TASKS && s.task[t].Moving? && s.task[t].done && !pc.Moving?
    requires Swap.Inv(p, s.held - multiset{s.task[t].r.page}, usable) && p.mem.high == s.p.mem.high
        && Outside(s.p.mem, p.mem, t, b)
    requires b == NR_TASKS || (b < NR_TASKS && s.task[b] == Born(t))
    requires PcOk(p.mem, s.task[t := pc], t)
    ensures Sound(s.(p := p, held := s.held - multiset{s.task[t].r.page}, task := s.task[t := pc]), usable)
  {
    hide Slots, PageTables.Inv, Outside, PcOk;
    var pn := s.task[t].r.page;
    var task' := s.task[t := pc];
    LetGo(s.held, pn);
    if b < NR_TASKS {
      BornOk(p.mem, task', b);
    }
    PcsKept(s.p.mem, p.mem, s.task, task', t, b);
    PagesKept(s.p.mem, s.held, s.task, p.mem, s.held - multiset{pn}, task');
    LineKept(s.task, task', Line(s));
  }

  lemma WrittenInv(s: State, usable: set<nat>, t: nat)
    requires Sound(s, usable) && Typed(s) && Enabled(s, Wake(t)) && s.task[t].r.write
    ensures Sound(Woken(s, t), usable)
  {
    assert PcOk(s.p.mem, s.task, t);
    var Moving(r, goal, _) := s.task[t];
    ReleaseInv(s.p, s.held, usable, r.page);
    var p := s.p.(mem := FreePage(s.p.mem, r.page));
    hide Slots, PageTables.Inv, FreePage, LineOk;
    assert Outside(s.p.mem, p.mem, NR_TASKS, NR_TASKS);
    hide ForkOk, GoalOk, Outside, Names;
    GoalKept(s.p.mem, p.mem, s.task, s.task, NR_TASKS, NR_TASKS, t, goal);
    GoalOwn(p.mem, s.task, t, goal, Needing(goal));
    OutsideMore(s.p.mem, p.mem, t, NR_TASKS);
    WakeInv(s, usable, t, p, Needing(goal), NR_TASKS);
  }

  lemma SamePage(m: Mem, pn: PageNo)
    requires PageTables.Shape(m)
    ensures m.(data := m.data[pn := m.data[pn]]) == m
  {
    assert m.data[pn := m.data[pn]] == m.data;
  }

  /** A page that holds a copy of the slot's contents, or will, takes the entry's place. */
  lemma Installed(p: Paging, held: multiset<PageNo>, usable: set<nat>, d: nat, i: nat, pn: PageNo, nr: nat)
    requires Swap.Inv(p, held, usable) && held[pn] == 1 && LOW_PAGES <= pn < p.mem.high
    requires User(d, i) && p.mem.dir[d] != 0 && At(p.mem, d, i) == Swapped(nr) && 0 < nr < SWAP_BITS
    ensures var r := p.(mem := Store(p.mem, p.mem.dir[d], i, Present(pn, true, true)), bits := p.bits[nr := true]);
            Swap.Inv(r, held - multiset{pn}, usable) && OneEntry(p.mem, r.mem, d, i)
                && At(r.mem, d, i) == Present(pn, true, true)
  {
    HeldUnused(p.mem, held, pn);
    LetGo(held, pn);
    SamePage(p.mem, pn);
    InstallInv(p.mem, held - multiset{pn}, d, i, pn, p.mem.data[pn]);
    SlotNamed(p, held, usable, d, i);
    hide PageTables.Inv;
    var r := p.(mem := Store(p.mem, p.mem.dir[d], i, Present(pn, true, true)), bits := p.bits[nr := true]);
    SlotsOneEntry(p.mem, p.bits, usable, r.mem, r.bits, d, i);
  }

  lemma BroughtInv(s: State, usable: set<nat>, t: nat)
    requires Sound(s, usable) && Typed(s) && Enabled(s, Wake(t)) && !s.task[t].r.write && s.task[t].goal.Bring?
    ensures Sound(Woken(s, t), usable)
  {
    assert PcOk(s.p.mem, s.task, t);
    var Moving(r, Bring(d, i), _) := s.task[t];
    Installed(s.p, s.held, usable, d, i, r.page, r.slot);
    hide Slots, PageTables.Inv, LineOk;
    var p := s.p.(mem := Store(s.p.mem, s.p.mem.dir[d], i, Present(r.page, true, true)),
        bits := s.p.bits[r.slot := true]);
    assert Outside(s.p.mem, p.mem, t, NR_TASKS);
    WakeInv(s, usable, t, p, Ready, NR_TASKS);
  }

  /** The parent's entry gets the page, the child's empty one the slot. */
  lemma Duped(p: Paging, held: multiset<PageNo>, usable: set<nat>, fd: nat, td: nat, i: nat, pn: PageNo, nr: nat)
    requires Swap.Inv(p, held, usable) && held[pn] == 1 && LOW_PAGES <= pn < p.mem.high && User(fd, i) && User(td, i)
        && fd != td
    requires p.mem.dir[fd] != 0 && p.mem.dir[td] != 0 && At(p.mem, fd, i) == Swapped(nr) && At(p.mem, td, i) == Absent
        && 0 < nr < SWAP_BITS
    ensures var m := Store(p.mem, p.mem.dir[td], i, Swapped(nr));
            var r := p.(mem := Store(m, p.mem.dir[fd], i, Present(pn, true, true)));
            && Swap.Inv(r, held - multiset{pn}, usable) && r.mem.dir == p.mem.dir
            && (forall d: nat, j: nat {:trigger At(r.mem, d, j)} :: User(d, j) ==>
                  At(r.mem, d, j) == if d == fd && j == i then Present(pn, true, true) else if d == td
                      && j == i then Swapped(nr) else At(p.mem, d, j))
  {
    SlotNamed(p, held, usable, fd, i);
    assert Apart(p.mem, fd, td);
    StoreBoth(p.mem, p.mem.dir[fd], p.mem.dir[td], i, Swapped(nr), Present(pn, true, true));
    Installed(p, held, usable, fd, i, pn, nr);
    var q := p.(mem := Store(p.mem, p.mem.dir[fd], i, Present(pn, true, true)), bits := p.bits[nr := true]);
    StoreAt(q.mem, td, i, Swapped(nr));
    var r := q.(mem := Store(q.mem, p.mem.dir[td], i, Swapped(nr)), bits := p.bits);
    Replace(q.mem, held - multiset{pn}, r.mem, held - multiset{pn}, td, i);
    hide PageTables.Inv;
    SlotsOneEntry(q.mem, q.bits, usable, r.mem, r.bits, td, i);
  }

  lemma DupedInv(s: State, usable: set<nat>, t: nat)
    requires Sound(s, usable) && Typed(s) && Enabled(s, Wake(t)) && !s.task[t].r.write && s.task[t].goal.Dup?
    ensures Sound(Woken(s, t), usable)
  {
    assert PcOk(s.p.mem, s.task, t);
    var Moving(r, Dup(f), _) := s.task[t];
    var fd, td := From(t, f), To(f);
    assert SlotOf(fd) == t && SlotOf(td) == f.child && f.child != t;
    assert At(s.p.mem, td, f.i) == Absent;
    Duped(s.p, s.held, usable, fd, td, f.i, r.page, r.slot);
    hide Slots, PageTables.Inv, LineOk, Store;
    var m := Store(s.p.mem, s.p.mem.dir[td], f.i, Swapped(r.slot));
    var p := s.p.(mem := Store(m, s.p.mem.dir[fd], f.i, Present(r.page, true, true)));
    assert m.dir == s.p.mem.dir;
    var task' := s.task[t := Copying(f.(i := f.i + 1))];
    assert task'[f.child] == s.task[f.child];
    ForkStepped(s.p.mem, p.mem, s.task, task', t, f);
    hide ForkOk;
    assert Outside(s.p.mem, p.mem, t, f.child);
    WakeInv(s, usable, t, p, Copying(f.(i := f.i + 1)), f.child);
  }

  // -------------------------------------------- the other steps, and every step

  /** No task's state has changed, and what the kernel holds only for spare pages. */
  lemma PagingInv(s: State, usable: set<nat>, p: Paging, held: multiset<PageNo>, t: nat)
    requires Sound(s, usable) && Swap.Inv(p, held, usable) && p.mem.high == s.p.mem.high
        && Outside(s.p.mem, p.mem, t, NR_TASKS)
    requires t < NR_TASKS ==> s.task[t].Ready?
    requires forall u: nat :: u < NR_TASKS && s.task[u].Moving? ==> held[s.task[u].r.page] == s.held[s.task[u].r.page]
    ensures Sound(s.(p := p, held := held), usable)
  {
    hide Slots, PageTables.Inv, Outside, PcOk, LineOk;
    if t < NR_TASKS {
      BornOk(p.mem, s.task, t);
    }
    PcsKept(s.p.mem, p.mem, s.task, s.task, t, NR_TASKS);
    PagesKept(s.p.mem, s.held, s.task, p.mem, held, s.task);
  }

  lemma WriteInv(s: State, usable: set<nat>, t: nat, d: nat, i: nat, k: nat, v: Byte)
    requires Sound(s, usable) && Typed(s) && Enabled(s, Write(t, d, i, k, v))
    ensures Sound(Next(s, Write(t, d, i, k, v)), usable)
  {
    C.PokeInv(s.p.mem, s.held, d, i, k, v);
    var m := C.Poke(s.p.mem, s.p.mem.dir[d], i, k, v);
    hide PageTables.Inv, C.Poke;
    SlotsNoSwap(s.p.mem, s.p.bits, usable, m);
    hide Slots, PcsOk, PagesOk, LineOk;
    assert Outside(s.p.mem, m, t, NR_TASKS);
    PagingInv(s, usable, s.p.(mem := m), s.held, t);
  }

  lemma UnshareInv(s: State, usable: set<nat>, t: nat, d: nat, i: nat)
    requires Sound(s, usable) && Typed(s) && Enabled(s, Unshare(t, d, i))
    ensures Sound(Next(s, Unshare(t, d, i)), usable)
  {
    F.UnWpFrame(s.p, s.held, usable, d, i);
    hide PageTables.Inv, Slots, F.UnWp, PcsOk, PagesOk, LineOk;
    var p := F.UnWp(s.p, s.p.mem.dir[d], i).0;
    assert Outside(s.p.mem, p.mem, t, NR_TASKS);
    PagingInv(s, usable, p, s.held, t);
  }

  lemma BorrowInv(s: State, usable: set<nat>, t: nat, u: nat, k: nat, i: nat)
    requires Sound(s, usable) && Typed(s) && Enabled(s, Borrow(t, u, k, i))
    ensures Sound(Next(s, Borrow(t, u, k, i)), usable)
  {
    var fd, td := DirAt(u, k), DirAt(t, k);
    F.ShareOverInv(s.p, s.held, usable, fd, td, i);
    var p := F.ShareOver(s.p, s.p.mem.dir[fd], s.p.mem.dir[td], i, At(s.p.mem, fd, i).page);
    assert p.mem.dir == s.p.mem.dir && p.mem.high == s.p.mem.high;
    hide PageTables.Inv, Slots, F.ShareOver, PcsOk, PagesOk, LineOk;
    assert Outside(s.p.mem, p.mem, t, NR_TASKS);
    PagingInv(s, usable, p, s.held, t);
  }

  /** A page of the kernel's goes into an empty entry. */
  lemma PutEntry(p: Paging, held: multiset<PageNo>, usable: set<nat>, d: nat, i: nat, pn: PageNo, f: Frame, dirty: bool)
    requires Swap.Inv(p, held, usable) && held[pn] == 1 && LOW_PAGES <= pn < p.mem.high && |f| == PAGE_SIZE
    requires User(d, i) && p.mem.dir[d] != 0 && At(p.mem, d, i) == Absent
    ensures var m := Store(p.mem.(data := p.mem.data[pn := f]), p.mem.dir[d], i, Present(pn, true, dirty));
            && Swap.Inv(p.(mem := m), held - multiset{pn}, usable) && OneEntry(p.mem, m, d, i)
            && At(m, d, i) == Present(pn, true, dirty)
  {
    FillInv(p, held, usable, pn, f);
    var q := p.mem.(data := p.mem.data[pn := f]);
    var e := Present(pn, true, dirty);
    var m := Store(q, p.mem.dir[d], i, e);
    HeldUnused(q, held, pn);
    LetGo(held, pn);
    StoreAt(q, d, i, e);
    assert forall d': nat, i': nat :: User(d', i') && At(q, d', i').Names(pn) ==> (d', i') in Users(q, pn);
    Replace(q, held, m, held - multiset{pn}, d, i);
    hide PageTables.Inv;
    SlotsOneEntry(q, p.bits, usable, m, p.bits, d, i);
  }

  lemma PutInv(s: State, usable: set<nat>, t: nat, d: nat, i: nat, pn: PageNo, f: Frame, dirty: bool)
    requires Sound(s, usable) && Typed(s) && Enabled(s, Put(t, d, i, pn, f, dirty))
    ensures Sound(Next(s, Put(t, d, i, pn, f, dirty)), usable)
  {
    PutEntry(s.p, s.held, usable, d, i, pn, f, dirty);
    LetGo(s.held, pn);
    var m := Store(s.p.mem.(data := s.p.mem.data[pn := f]), s.p.mem.dir[d], i, Present(pn, true, dirty));
    hide Slots, PageTables.Inv, Store, PcsOk, PagesOk, LineOk;
    assert Outside(s.p.mem, m, t, NR_TASKS);
    PagingInv(s, usable, s.p.(mem := m), s.held - multiset{pn}, t);
  }

  lemma PutTableInv(s: State, usable: set<nat>, t: nat, d: nat, pn: PageNo)
    requires Sound(s, usable) && Typed(s) && Enabled(s, PutTable(t, d, pn))
    ensures Sound(Next(s, PutTable(t, d, pn)), usable)
    ensures forall e: nat, j: nat :: User(e, j) ==> At(Next(s, PutTable(t, d, pn)).p.mem, e, j) == At(s.p.mem, e, j)
  {
    LetGo(s.held, pn);
    SetDirInv(s.p.mem, s.held - multiset{pn}, d, pn);
    var m := s.p.mem.(dir := s.p.mem.dir[d := pn]);
    hide PageTables.Inv;
    SlotsSame(s.p.mem, s.p.bits, usable, m);
    hide Slots, PcsOk, PagesOk, LineOk;
    assert Outside(s.p.mem, m, t, NR_TASKS);
    PagingInv(s, usable, s.p.(mem := m), s.held - multiset{pn}, t);
  }

  lemma ReleasedInv(s: State, usable: set<nat>, pn: PageNo)
    requires Sound(s, usable) && Typed(s) && Enabled(s, Release(pn))
    ensures Sound(Next(s, Release(pn)), usable)
  {
    ReleaseInv(s.p, s.held, usable, pn);
    LetGo(s.held, pn);
    var m := FreePage(s.p.mem, pn);
    hide Slots, PageTables.Inv, FreePage, PcsOk, PagesOk, LineOk;
    assert Outside(s.p.mem, m, NR_TASKS, NR_TASKS);
    PagingInv(s, usable, s.p.(mem := m), s.held - multiset{pn}, NR_TASKS);
  }

  lemma FaultInv(s: State, usable: set<nat>, t: nat, d: nat, i: nat)
    requires Sound(s, usable) && Typed(s) && Enabled(s, Fault(t, d, i))
    ensures Sound(Next(s, Fault(t, d, i)), usable)
  {
    hide Slots, PageTables.Inv, PcsOk, PagesOk, LineOk;
    TaskInv(s, usable, t, Needing(Bring(d, i)));
  }

  /** Every step keeps the balance of pages and slots: in any interleaving with the transfers, each count is exact
      and each usable slot is free or named by one entry. */
  lemma StepInv(s: State, usable: set<nat>, step: Step)
    requires Sound(s, usable) && Typed(s) && Enabled(s, step)
    ensures Sound(Next(s, step), usable)
  {
    hide Sound, Slots, PageTables.Inv, Taken, Reclaimed, Copied, Completed, Woken, FreeTables;
    match step {
      case Fault(t, d, i) => FaultInv(s, usable, t, d, i);
      case Ask(t) => TaskInv(s, usable, t, Needing(Page));
      case Clone(t, c, n) => CloneInv(s, usable, t, c, n);
      case Copy(t) => CopiedInv(s, usable, t);
      case Take(t) => TakenInv(s, usable, t);
      case Reclaim(t) => ReclaimedInv(s, usable, t);
      case Admit(j) => AdmitInv(s, usable, j);
      case Complete => CompletedInv(s, usable);
      case Wake(t) => WokenInv(s, usable, t);
      case Exit(t) => ExitInv(s, usable, t);
      case Write(t, d, i, k, v) => WriteInv(s, usable, t, d, i, k, v);
      case Unshare(t, d, i) => UnshareInv(s, usable, t, d, i);
      case Borrow(t, u, k, i) => BorrowInv(s, usable, t, u, k, i);
      case Put(t, d, i, pn, f, dirty) => PutInv(s, usable, t, d, i, pn, f, dirty);
      case PutTable(t, d, pn) => PutTableInv(s, usable, t, d, pn);
      case Release(pn) => ReleasedInv(s, usable, pn);
      case Buffers(n) => BuffersInv(s, usable, n);
    }
  }

  lemma BuffersInv(s: State, usable: set<nat>, n: nat)
    requires Sound(s, usable)
    ensures Sound(s.(buffers := n), usable)
  {
    hide Slots, PageTables.Inv;
    assert Line(s.(buffers := n)) == Line(s);
  }
}

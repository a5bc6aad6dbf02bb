/**
 Whole runs of forks, writes, page faults, execves and exits, compared with a system in
 which every task owns a private copy of every page: fork copies eagerly, a fault
 always loads a fresh page, and no two tasks ever share anything.
*/
module EagerCopy {
  import opened PageTables
  import opened CowPaging
  import opened ExecPages
  import opened PageDemand

  /** task[t] is the page of the task structure, 0 for an empty slot; exec[t] is the executable, 0 for none.
      image[x] lists the pages of executable x up to end_data, as a demand load leaves them. */
  datatype Sys = Sys(mem: Mem, task: seq<PageNo>, exec: seq<nat>, image: seq<seq<Frame>>)

  /** The page at r * 4 MB + i * 4 KB of an address space. */
  predicate Offset(r: nat, i: nat) {
    r < SLOT_DIRS && i < ENTRIES
  }

  function PageIndex(r: nat, i: nat): nat {
    1024 * r + i
  }

  datatype Op =
    | Fork(parent: nat, child: nat)
    | Touch(slot: nat, r: nat, i: nat, iCount: nat)
    | Write(slot: nat, r: nat, i: nat, k: nat, v: Byte, iCount: nat)
    | Exit(slot: nat)
    | Exec(slot: nat, x: nat, pages: seq<Frame>)    // execve: the executable, and the argument pages as filled

  // ------------------------------------------------------------- the kernel

  predicate Live(task: seq<PageNo>, t: nat) {
    1 <= t < |task| && task[t] != 0
  }

  predicate Loads(exec: seq<nat>, image: seq<seq<Frame>>, t: nat, r: nat, i: nat) {
    t < |exec| && 0 < exec[t] < |image| && PageIndex(r, i) < |image[exec[t]]|
  }

  /** share_page: every other task running the same executable is tried, from the last slot down. */
  function SharePage(m: Mem, task: seq<PageNo>, exec: seq<nat>, t: nat, r: nat, i: nat, p: nat): (res: (Mem, Sharing))
    requires Shape(m) && Offset(r, i) && t < NR_TASKS && p <= NR_TASKS == |task| == |exec|
    ensures Shape(res.0)
    decreases p
  {
    if p <= 1 then (m, NotShared)
    else if task[p - 1] == 0 || p - 1 == t || exec[p - 1] != exec[t] then SharePage(m, task, exec, t, r, i, p - 1)
    else
      var (m1, s) := TryShare(m, r, i, p - 1, t);
      if s == NotShared then SharePage(m1, task, exec, t, r, i, p - 1) else (m1, s)
  }

  /** A free page with the given bytes, put at (d, i); it is given back if no table can be had. */
  function LoadPage(m: Mem, d: nat, i: nat, bytes: Frame): (res: (Mem, bool))
    requires Shape(m) && d < DIRS && i < ENTRIES && |bytes| == PAGE_SIZE
    ensures Shape(res.0)
  {
    var (m1, pn) := GetFreePage(m);
    if pn == 0 then (m, false)
    else
      var (m2, ok) := PutPage(m1.(data := m1.data[pn := bytes]), pn, d, i);
      if ok then (m2, true) else (FreePage(m2, pn), false)
  }

  /** do_no_page; false stands for oom(). */
  function NoPage(s: Sys, t: nat, r: nat, i: nat, iCount: nat): (res: (Mem, bool))
    requires Shape(s.mem) && Offset(r, i) && t < NR_TASKS == |s.task| == |s.exec| && Images(s.image)
    ensures Shape(res.0)
  {
    var d := DirAt(t, r);
    if !Loads(s.exec, s.image, t, r, i) then LoadPage(s.mem, d, i, Zeros())
    else
      var (m1, shared) := if iCount < 2 then (s.mem, NotShared)
                          else SharePage(s.mem, s.task, s.exec, t, r, i, NR_TASKS);
      match shared
      case Shared => (m1, true)
      case OutOfMemory => (m1, false)
      case NotShared => LoadPage(m1, d, i, s.image[s.exec[t]][PageIndex(r, i)])
  }

  ghost predicate Images(image: seq<seq<Frame>>) {
    forall x, j :: 0 <= x < |image| && 0 <= j < |image[x]| ==> |image[x][j]| == PAGE_SIZE
  }

  /** do_exit and release: the address space, then the page of the task structure. */
  function ExitTask(s: Sys, t: nat): (s': Sys)
    requires Shape(s.mem) && t < NR_TASKS == |s.task| == |s.exec|
    ensures Shape(s'.mem)
  {
    s.(mem := FreePage(FreeTables(s.mem, FirstDir(t), SLOT_DIRS), s.task[t]), task := s.task[t := 0],
        exec := s.exec[t := 0])
  }

  function ForkTask(s: Sys, parent: nat, child: nat): (res: (Sys, bool))
    requires Shape(s.mem) && parent < NR_TASKS && child < NR_TASKS == |s.task| == |s.exec|
    ensures Shape(res.0.mem)
  {
    var (m1, pn) := GetFreePage(s.mem);
    if pn == 0 then (s, false)
    else
      var (m2, ok) := CopyMem(m1, FirstDir(parent), FirstDir(child), SLOT_DIRS);
      if ok then (s.(mem := m2, task := s.task[child := pn], exec := s.exec[child := s.exec[parent]]), true)
      else (s.(mem := FreePage(m2, pn)), false)
  }

  /** A page fault if the page is missing; a task that runs out of memory exits. */
  function TouchPage(s: Sys, t: nat, r: nat, i: nat, iCount: nat): (res: (Sys, bool))
    requires Shape(s.mem) && Offset(r, i) && t < NR_TASKS == |s.task| == |s.exec| && Images(s.image)
    ensures Shape(res.0.mem) && |res.0.task| == |res.0.exec| == NR_TASKS
  {
    if At(s.mem, DirAt(t, r), i).Present? then (s, true)
    else
      var (m1, ok) := NoPage(s, t, r, i, iCount);
      if ok then (s.(mem := m1), true) else (ExitTask(s.(mem := m1), t), false)
  }

  function WriteByte(s: Sys, t: nat, r: nat, i: nat, k: nat, v: Byte, iCount: nat): (res: (Sys, bool))
    requires Shape(s.mem) && Offset(r, i) && k < PAGE_SIZE && t < NR_TASKS == |s.task| == |s.exec| && Images(s.image)
    ensures Shape(res.0.mem)
  {
    var d := DirAt(t, r);
    var (s1, ok) := TouchPage(s, t, r, i, iCount);
    if !ok || !At(s1.mem, d, i).Present? then (s1, false)
    else
      var (m2, ok2) := UserWrite(s1.mem, s1.mem.dir[d], i, k, v);
      if ok2 then (s1.(mem := m2), true) else (ExitTask(s1, t), false)
  }

  const MAX_IMAGE: nat := 0x3000       // pages of the largest executable do_execve accepts

  /** What execve checks, and what its argument pages are. */
  ghost predicate ExecOk(image: seq<seq<Frame>>, x: nat, pages: seq<Frame>) {
    && 0 < x < |image| && |image[x]| <= MAX_IMAGE && |pages| <= MAX_ARG_PAGES
    && forall j :: 0 <= j < |pages| ==> |pages[j]| == PAGE_SIZE
  }

  /** do_execve, with the executable found and its header accepted; false if the arguments found no memory. */
  function ExecTask(s: Sys, t: nat, x: nat, pages: seq<Frame>): (res: (Sys, bool))
    requires Shape(s.mem) && t < NR_TASKS == |s.task| == |s.exec| && |pages| <= MAX_ARG_PAGES
    requires forall j :: 0 <= j < |pages| ==> |pages[j]| == PAGE_SIZE
    ensures Shape(res.0.mem)
  {
    var (m, ok) := ExecMem(s.mem, t, pages);
    if ok then (s.(mem := m, exec := s.exec[t := x]), true) else (s.(mem := m), false)
  }

  type Space = map<(nat, nat), Frame>

  ghost function SpaceOf(m: Mem, t: nat): Space
    requires Shape(m) && t < NR_TASKS
  {
    map r: nat, i: nat | r < SLOT_DIRS && i < ENTRIES && Look(m, DirAt(t, r), i).Some?
      :: (r, i) := Look(m, DirAt(t, r), i).value
  }

  /** Requests no task can make are skipped: an empty slot does nothing, fork needs an empty slot for the child, and
      execve is called from a page the task has. */
  ghost predicate Legal(s: Sys, op: Op)
    requires Shape(s.mem)
  {
    |s.task| == NR_TASKS &&
    match op
    case Fork(p, c) => Live(s.task, p) && 1 <= c < NR_TASKS && s.task[c] == 0
    case Touch(t, r, i, _) => Live(s.task, t) && Offset(r, i)
    case Write(t, r, i, k, _, _) => Live(s.task, t) && Offset(r, i) && k < PAGE_SIZE
    case Exit(t) => Live(s.task, t)
    case Exec(t, x, pages) => Live(s.task, t) && SpaceOf(s.mem, t) != map[] && ExecOk(s.image, x, pages)
  }

  ghost function Step(s: Sys, op: Op): (res: (Sys, bool))
    requires Shape(s.mem) && |s.task| == |s.exec| == NR_TASKS && Images(s.image)
    ensures Shape(res.0.mem) && |res.0.task| == |res.0.exec| == NR_TASKS && res.0.image == s.image
  {
    if !Legal(s, op) then (s, false)
    else
      match op
      case Fork(p, c) => ForkTask(s, p, c)
      case Touch(t, r, i, n) => TouchPage(s, t, r, i, n)
      case Write(t, r, i, k, v, n) => WriteByte(s, t, r, i, k, v, n)
      case Exit(t) => (ExitTask(s, t), true)
      case Exec(t, x, pages) => ExecTask(s, t, x, pages)
  }

  // ------------------------------------------------------- the eager system

  datatype Private = Private(space: Space, exec: nat)

  /** The live tasks, each with its own pages. */
  type Eager = map<nat, Private>

  /** What a task finds at a page it has never touched. */
  function FreshPage(exec: nat, image: seq<seq<Frame>>, r: nat, i: nat): Frame {
    if 0 < exec < |image| && PageIndex(r, i) < |image[exec]| then image[exec][PageIndex(r, i)] else Zeros()
  }

  function PageOf(p: Private, image: seq<seq<Frame>>, r: nat, i: nat): Frame {
    if (r, i) in p.space then p.space[(r, i)] else FreshPage(p.exec, image, r, i)
  }

  function SetPage(p: Private, r: nat, i: nat, f: Frame): Private {
    p.(space := p.space[(r, i) := f])
  }

  /** One byte of a page replaced. */
  function Patch(f: Frame, k: nat, v: Byte): Frame {
    if k < |f| then f[k := v] else f
  }

  /** The address space execve sets up: the argument pages at its top. */
  function ArgSpace(pages: seq<Frame>): Space
    requires |pages| <= MAX_ARG_PAGES
  {
    map r: nat, i: nat | r < SLOT_DIRS && i < ENTRIES && r == ARG_DIR && ENTRIES - |pages| <= i
      :: (r, i) := pages[i - (ENTRIES - |pages|)]
  }

  /** `ok` says whether the operation found the memory it needed; without it a fork or an execve
      has no effect and a faulting task is gone. */
  function EagerStep(e: Eager, image: seq<seq<Frame>>, op: Op, ok: bool): Eager {
    match op
    case Fork(p, c) => if ok && p in e then e[c := e[p]] else e
    case Touch(t, r, i, _) =>
      if t !in e || !Offset(r, i) then e
      else if !ok then e - {t}
      else e[t := SetPage(e[t], r, i, PageOf(e[t], image, r, i))]
    case Write(t, r, i, k, v, _) =>
      if t !in e || !Offset(r, i) || k >= PAGE_SIZE then e
      else if !ok then e - {t}
      else e[t := SetPage(e[t], r, i, Patch(PageOf(e[t], image, r, i), k, v))]
    case Exit(t) => e - {t}
    case Exec(t, x, pages) =>
      if ok && t in e && |pages| <= MAX_ARG_PAGES then e[t := Private(ArgSpace(pages), x)] else e
  }

  // --------------------------------------------------------------- abstraction

  ghost function Abs(s: Sys): Eager
    requires Shape(s.mem) && |s.task| == |s.exec| == NR_TASKS
  {
    map t: nat | 1 <= t < NR_TASKS && s.task[t] != 0 :: Private(SpaceOf(s.mem, t), s.exec[t])
  }

  // ----------------------------------------------------------------- invariant

  /** Pages the kernel keeps for itself, and the pages of the task structures. */
  ghost function Held(kernel: multiset<PageNo>, task: seq<PageNo>): multiset<PageNo> {
    kernel + multiset(task)
  }

  /** Empty slots have no page tables, and no user entry is swapped (there is no swapping in 0.11). */
  ghost predicate Tidy(m: Mem, task: seq<PageNo>)
    requires Shape(m) && |task| == NR_TASKS
  {
    && (forall d: nat :: SLOT_DIRS <= d < DIRS && task[SlotOf(d)] == 0 ==> m.dir[d] == 0)
    && (forall d: nat, i: nat {:trigger At(m, d, i)} :: User(d, i) ==> !At(m, d, i).Swapped?)
  }

  /** A clean page within the executable still has the bytes of the executable. */
  ghost predicate CleanPage(m: Mem, exec: seq<nat>, image: seq<seq<Frame>>, d: nat, i: nat)
    requires Shape(m) && |exec| == NR_TASKS && User(d, i)
  {
    At(m, d, i).Present? && !At(m, d, i).dirty && Loads(exec, image, SlotOf(d), InSlot(d), i) ==>
      Look(m, d, i) == Some(image[exec[SlotOf(d)]][PageIndex(InSlot(d), i)])
  }

  ghost predicate Clean(m: Mem, exec: seq<nat>, image: seq<seq<Frame>>)
    requires Shape(m) && |exec| == NR_TASKS
  {
    forall d: nat, i: nat {:trigger At(m, d, i)} :: User(d, i) ==> CleanPage(m, exec, image, d, i)
  }

  ghost predicate SysInv(s: Sys, kernel: multiset<PageNo>) {
    true == (
      && |s.task| == |s.exec| == NR_TASKS && Images(s.image)
      && Inv(s.mem, Held(kernel, s.task))
      && (forall t :: 1 <= t < NR_TASKS && s.task[t] != 0 ==> LOW_PAGES <= s.task[t] < s.mem.high)
      && Tidy(s.mem, s.task)
      && Clean(s.mem, s.exec, s.image))
  }

  // ------------------------------------------------------- loading one page

  /** Page tables other than that of `d` stay, and every entry but (d, i) keeps its page and its bytes. */
  ghost predicate Elsewhere(m: Mem, r: Mem, d: nat, i: nat)
    requires Shape(m) && Shape(r)
  {
    && r.high == m.high
    && (forall d': nat :: SLOT_DIRS <= d' < DIRS && d' != d ==> r.dir[d'] == m.dir[d'])
    && (forall d': nat, i': nat :: User(d', i') && !(d' == d && i' == i) ==>
          Weaker(At(r, d', i'), At(m, d', i')) && Look(r, d', i') == Look(m, d', i'))
  }

  /** A held page that nobody names can be given back. */
  lemma ReleaseInv(m: Mem, held: multiset<PageNo>, held': multiset<PageNo>, pn: PageNo)
    requires Inv(m, held) && LOW_PAGES <= pn < m.high && held[pn] == held'[pn] + 1
    requires forall p: PageNo :: LOW_PAGES <= p && p != pn ==> held'[p] == held[p]
    ensures var r := FreePage(m, pn);
            Inv(r, held') && r == m.(count := r.count)
  {
    assert !IsTable(m, pn);
    forall d: nat, i: nat | User(d, i)
      ensures !At(m, d, i).Names(pn)
    {
    }
    assert Users(m, pn) == {};
    assert |Users(m, pn)| == 0;
    TakeInv(m, held, FreePage(m, pn), held', pn);
  }

  lemma LoadPageInv(m: Mem, held: multiset<PageNo>, d: nat, i: nat, bytes: Frame)
    requires Inv(m, held) && User(d, i) && At(m, d, i) == Absent && |bytes| == PAGE_SIZE
    ensures var (r, ok) := LoadPage(m, d, i, bytes);
            && Inv(r, held) && Elsewhere(m, r, d, i)
            && (if ok then At(r, d, i).Present? && !At(r, d, i).dirty && Look(r, d, i) == Some(bytes)
                else r.dir == m.dir && At(r, d, i) == Absent)
  {
    GetFreePageInv(m, held);
    var (m1, pn) := GetFreePage(m);
    if pn == 0 {
      return;
    }
    var h := held + multiset{pn};
    var m2 := m1.(data := m1.data[pn := bytes]);
    forall d': nat, i': nat | User(d', i')
      ensures At(m2, d', i') == At(m, d', i') && Look(m2, d', i') == Look(m, d', i')
    {
      assert At(m1, d', i') == At(m, d', i') && (d', i') !in Users(m, pn);
    }
    TakeInv(m1, h, m2, h, pn);
    PutPageInv(m2, held, pn, d, i);
    if !PutPage(m2, pn, d, i).1 {
      ReleaseInv(m2, h, held, pn);
    }
  }

  /** The faulting entry at (d, i) now reads `bytes`, from a clean page. */
  ghost predicate LoadedClean(m: Mem, held: multiset<PageNo>, d: nat, i: nat, bytes: Frame, r: Mem) {
    true == (
      && Shape(m) && Inv(r, held) && User(d, i) && Elsewhere(m, r, d, i)
      && At(r, d, i).Present? && !At(r, d, i).dirty && Look(r, d, i) == Some(bytes))
  }

  lemma ShareOneInv(m: Mem, held: multiset<PageNo>, s: Sys, t: nat, r: nat, i: nat, p: nat)
    requires Inv(m, held) && |s.task| == |s.exec| == NR_TASKS && Clean(m, s.exec, s.image)
    requires Offset(r, i) && 1 <= t < NR_TASKS && 1 <= p < NR_TASKS && Loads(s.exec, s.image, t, r, i)
    requires At(m, DirAt(t, r), i) == Absent && p != t && s.exec[p] == s.exec[t]
    ensures var (m', sh) := TryShare(m, r, i, p, t);
            if sh == Shared then LoadedClean(m, held, DirAt(t, r), i, s.image[s.exec[t]][PageIndex(r, i)], m')
            else m' == m
  {
    TryShareInv(m, held, r, i, p, t);
    var fd := DirAt(p, r);
    SlotOffsets(p, t, r, i);
    assert SlotOf(fd) == p && InSlot(fd) == r;
    assert At(m, fd, i).Present? ==> CleanPage(m, s.exec, s.image, fd, i);
  }

  /** A page shared with another task running the same executable has the bytes a load would have put there. */
  lemma {:induction false} SharePageInv(m: Mem, held: multiset<PageNo>, s: Sys, t: nat, r: nat, i: nat, p: nat)
    requires Inv(m, held) && |s.task| == |s.exec| == NR_TASKS && Clean(m, s.exec, s.image)
    requires Offset(r, i) && 1 <= t < NR_TASKS && p <= NR_TASKS && Loads(s.exec, s.image, t, r, i)
    requires At(m, DirAt(t, r), i) == Absent
    ensures var (m', sh) := SharePage(m, s.task, s.exec, t, r, i, p);
            if sh == Shared then LoadedClean(m, held, DirAt(t, r), i, s.image[s.exec[t]][PageIndex(r, i)], m')
            else m' == m
    decreases p
  {
    if p <= 1 {
      return;
    }
    if !(s.task[p - 1] == 0 || p - 1 == t || s.exec[p - 1] != s.exec[t]) {
      ShareOneInv(m, held, s, t, r, i, p - 1);
    }
    SharePageInv(m, held, s, t, r, i, p - 1);
  }

  // ------------------------------------------------- the pages a fault needs

  /** Task `p` runs the same executable as `t` and has a clean main-memory page there. */
  predicate Gives(m: Mem, task: seq<PageNo>, exec: seq<nat>, t: nat, r: nat, i: nat, p: nat)
    requires Shape(m) && Offset(r, i) && t < NR_TASKS == |task| == |exec|
  {
    && 1 <= p < NR_TASKS && p != t && task[p] != 0 && exec[p] == exec[t]
    && var e := At(m, DirAt(p, r), i); e.Present? && !e.dirty && LOW_PAGES <= e.page
  }

  /** Some task in a slot below `n` does. */
  ghost predicate Shareable(m: Mem, task: seq<PageNo>, exec: seq<nat>, t: nat, r: nat, i: nat, n: nat)
    requires Shape(m) && Offset(r, i) && t < NR_TASKS == |task| == |exec|
  {
    exists p: nat {:trigger Gives(m, task, exec, t, r, i, p)} :: p < n && Gives(m, task, exec, t, r, i, p)
  }

  /** The fault is on a page of the executable that can be had from another task. */
  ghost predicate Found(s: Sys, t: nat, r: nat, i: nat, iCount: nat)
    requires Shape(s.mem) && Offset(r, i) && t < NR_TASKS == |s.task| == |s.exec|
  {
    && Loads(s.exec, s.image, t, r, i) && iCount >= 2
    && Shareable(s.mem, s.task, s.exec, t, r, i, NR_TASKS)
  }

  /** The free pages a fault needs: one for a missing page table, and one for the page unless it can be shared. */
  ghost function FaultNeed(s: Sys, t: nat, r: nat, i: nat, iCount: nat): nat
    requires Shape(s.mem) && Offset(r, i) && t < NR_TASKS == |s.task| == |s.exec|
  {
    Lacks(s.mem, DirAt(t, r)) + if Found(s, t, r, i, iCount) then 0 else 1
  }

  /** What a fault that found its pages has taken; a page of its own is writable, a shared one must be copied first. */
  ghost predicate TookFor(m: Mem, d: nat, i: nat, need: nat, own: bool, r: Mem)
    requires Shape(m) && Shape(r) && User(d, i)
  {
    && |Free(r)| == |Free(m)| - need && At(r, d, i).Present?
    && WriteNeed(r, At(r, d, i)) == if own then 0 else 1
  }

  lemma LoadPageTakes(m: Mem, d: nat, i: nat, bytes: Frame)
    requires Shape(m) && User(d, i) && |bytes| == PAGE_SIZE
    ensures var (r, ok) := LoadPage(m, d, i, bytes);
            && (ok <==> Lacks(m, d) + 1 <= |Free(m)|)
            && (ok ==> TookFor(m, d, i, Lacks(m, d) + 1, true, r))
  {
    TakesOne(m);
    var (m1, pn) := GetFreePage(m);
    if pn != 0 {
      var m2 := m1.(data := m1.data[pn := bytes]);
      assert Free(m2) == Free(m1);
      EnsureTakes(m2, d);
      var (m3, ok) := EnsureTable(m2, d);
      if ok {
        assert Free(LoadPage(m, d, i, bytes).0) == Free(m3);
      }
    }
  }

  lemma ShareableStep(m: Mem, task: seq<PageNo>, exec: seq<nat>, t: nat, r: nat, i: nat, n: nat)
    requires Shape(m) && Offset(r, i) && t < NR_TASKS == |task| == |exec| && n > 0
    ensures Shareable(m, task, exec, t, r, i, n) <==>
              Gives(m, task, exec, t, r, i, n - 1) || Shareable(m, task, exec, t, r, i, n - 1)
  {
    hide Gives;
  }

  /** share_page finds a page exactly if some task gives one; it then needs a page only for a missing table. */
  lemma {:induction false} SharePageTakes(
      m: Mem, held: multiset<PageNo>, task: seq<PageNo>, exec: seq<nat>, t: nat, r: nat, i: nat, p: nat)
    requires Inv(m, held) && Offset(r, i) && 1 <= t < NR_TASKS && p <= NR_TASKS == |task| == |exec|
    requires At(m, DirAt(t, r), i) == Absent
    ensures var (m', sh) := SharePage(m, task, exec, t, r, i, p);
            var d := DirAt(t, r);
            && (sh == NotShared <==> !Shareable(m, task, exec, t, r, i, p))
            && (sh == NotShared ==> m' == m)
            && (sh == OutOfMemory ==> Lacks(m, d) > |Free(m)|)
            && (sh == Shared ==> Lacks(m, d) <= |Free(m)| && User(d, i) && TookFor(m, d, i, Lacks(m, d), false, m'))
    decreases p
  {
    hide Inv, TryShare, Look, Weaker, Shareable, Free, WriteNeed, At;
    ShapeOf(m, held);
    DirOf(t, r, i);
    if p == 0 {
      NoneBelow(m, task, exec, t, r, i);
      return;
    }
    ShareableStep(m, task, exec, t, r, i, p);
    if p == 1 {
      ShareableStep(m, task, exec, t, r, i, p);
      NoneBelow(m, task, exec, t, r, i);
      return;
    }
    if !(task[p - 1] == 0 || p - 1 == t || exec[p - 1] != exec[t]) {
      TryShareInv(m, held, r, i, p - 1, t);
      if Gives(m, task, exec, t, r, i, p - 1) {
        TryShareTakes(m, held, r, i, p - 1, t);
        return;
      }
    }
    SharePageTakes(m, held, task, exec, t, r, i, p - 1);
  }

  lemma NoneBelow(m: Mem, task: seq<PageNo>, exec: seq<nat>, t: nat, r: nat, i: nat)
    requires Shape(m) && Offset(r, i) && t < NR_TASKS == |task| == |exec|
    ensures !Shareable(m, task, exec, t, r, i, 0) && !Gives(m, task, exec, t, r, i, 0)
  {
  }

  /** A fault finds its memory if and only if the pages it needs are free. */
  lemma NoPageTakes(s: Sys, held: multiset<PageNo>, t: nat, r: nat, i: nat, iCount: nat)
    requires |s.task| == |s.exec| == NR_TASKS && Images(s.image) && Inv(s.mem, held)
    requires Offset(r, i) && 1 <= t < NR_TASKS && At(s.mem, DirAt(t, r), i) == Absent
    ensures var (m', ok) := NoPage(s, t, r, i, iCount);
            var need := FaultNeed(s, t, r, i, iCount);
            && (ok <==> need <= |Free(s.mem)|)
            && (ok ==>
                  && User(DirAt(t, r), i)
                  && TookFor(s.mem, DirAt(t, r), i, need, !Found(s, t, r, i, iCount), m'))
  {
    var d := DirAt(t, r);
    DirOf(t, r, i);
    hide Inv, SharePage, LoadPage, TookFor, Shareable, Free, At;
    ShapeOf(s.mem, held);
    if !Loads(s.exec, s.image, t, r, i) {
      LoadPageTakes(s.mem, d, i, Zeros());
      return;
    }
    SharePageTakes(s.mem, held, s.task, s.exec, t, r, i, NR_TASKS);
    LoadPageTakes(s.mem, d, i, s.image[s.exec[t]][PageIndex(r, i)]);
  }

  /** A page fault: the faulting task finds the page of its executable, or zeros, if and only if the pages it needs
      are free; nobody else notices. */
  lemma NoPageInv(s: Sys, held: multiset<PageNo>, t: nat, r: nat, i: nat, iCount: nat)
    requires |s.task| == |s.exec| == NR_TASKS && Images(s.image) && Inv(s.mem, held) && Clean(s.mem, s.exec, s.image)
    requires Offset(r, i) && 1 <= t < NR_TASKS && At(s.mem, DirAt(t, r), i) == Absent
    ensures var (m', ok) := NoPage(s, t, r, i, iCount);
            var d := DirAt(t, r);
            && (ok <==> FaultNeed(s, t, r, i, iCount) <= |Free(s.mem)|)
            && Inv(m', held) && Elsewhere(s.mem, m', d, i)
            && (if ok then At(m', d, i).Present? && !At(m', d, i).dirty
                           && Look(m', d, i) == Some(FreshPage(s.exec[t], s.image, r, i))
                else m'.dir == s.mem.dir && At(m', d, i) == Absent)
  {
    hide FaultNeed, Free;
    NoPageTakes(s, held, t, r, i, iCount);
    var d := DirAt(t, r);
    if !Loads(s.exec, s.image, t, r, i) {
      LoadPageInv(s.mem, held, d, i, Zeros());
      return;
    }
    if iCount >= 2 {
      SharePageInv(s.mem, held, s, t, r, i, NR_TASKS);
      if SharePage(s.mem, s.task, s.exec, t, r, i, NR_TASKS).1 != NotShared {
        return;
      }
    }
    LoadPageInv(s.mem, held, d, i, s.image[s.exec[t]][PageIndex(r, i)]);
  }

  // ------------------------------------------------------ single operations

  lemma DirOf(t: nat, r: nat, i: nat)
    requires 1 <= t < NR_TASKS && Offset(r, i)
    ensures User(DirAt(t, r), i) && SlotOf(DirAt(t, r)) == t && InSlot(DirAt(t, r)) == r
  {
  }

  /** Abstract states agree when the slots, executables and spaces do. */
  lemma AbsGone(s: Sys, s': Sys, t: nat)
    requires Shape(s.mem) && Shape(s'.mem) && |s.task| == |s.exec| == NR_TASKS && 1 <= t < NR_TASKS
    requires s'.task == s.task[t := 0] && s'.exec == s.exec[t := 0]
    requires forall t' :: 1 <= t' < NR_TASKS && t' != t ==> SpaceOf(s'.mem, t') == SpaceOf(s.mem, t')
    ensures Abs(s') == Abs(s) - {t}
  {
    var a, b := Abs(s'), Abs(s) - {t};
    assert a.Keys == b.Keys;
    forall u | u in a.Keys
      ensures a[u] == b[u]
    {
      assert u != t && s'.task[u] == s.task[u];
    }
  }

  lemma AbsSet(s: Sys, s': Sys, t: nat)
    requires Shape(s.mem) && Shape(s'.mem) && |s.task| == |s.exec| == NR_TASKS && 1 <= t < NR_TASKS
    requires s' == s.(mem := s'.mem) && Live(s.task, t)
    requires forall t' :: 1 <= t' < NR_TASKS && t' != t ==> SpaceOf(s'.mem, t') == SpaceOf(s.mem, t')
    ensures Abs(s') == Abs(s)[t := Private(SpaceOf(s'.mem, t), s.exec[t])]
  {
    var a, b := Abs(s'), Abs(s)[t := Private(SpaceOf(s'.mem, t), s.exec[t])];
    assert a.Keys == b.Keys;
    forall u | u in a.Keys
      ensures a[u] == b[u]
    {
    }
  }

  lemma SameSpace(m: Mem, m': Mem, t: nat)
    requires Shape(m) && Shape(m') && t < NR_TASKS
    requires forall r: nat, i: nat :: Offset(r, i) ==> Look(m', DirAt(t, r), i) == Look(m, DirAt(t, r), i)
    ensures SpaceOf(m', t) == SpaceOf(m, t)
  {
  }

  lemma SpaceSet(m: Mem, m': Mem, t: nat, r: nat, i: nat)
    requires Shape(m) && Shape(m') && t < NR_TASKS && Offset(r, i)
    requires forall r': nat, i': nat :: Offset(r', i') && !(r' == r && i' == i) ==>
      Look(m', DirAt(t, r'), i') == Look(m, DirAt(t, r'), i')
    requires Look(m', DirAt(t, r), i).Some?
    ensures SpaceOf(m', t) == SpaceOf(m, t)[(r, i) := Look(m', DirAt(t, r), i).value]
  {
  }

  /** One page of one space replaced, as seen from the memory underneath. */
  lemma SpaceUpdate(m: Mem, m': Mem, t: nat, r: nat, i: nat)
    requires Shape(m) && Shape(m') && 1 <= t < NR_TASKS && Offset(r, i)
    requires Elsewhere(m, m', DirAt(t, r), i)
    ensures forall t' :: 1 <= t' < NR_TASKS && t' != t ==> SpaceOf(m', t') == SpaceOf(m, t')
    ensures var f := Look(m', DirAt(t, r), i);
            && (f.Some? ==> SpaceOf(m', t) == SpaceOf(m, t)[(r, i) := f.value])
            && (f == Look(m, DirAt(t, r), i) ==> SpaceOf(m', t) == SpaceOf(m, t))
  {
    forall t': nat, r': nat, i': nat | 1 <= t' < NR_TASKS && Offset(r', i') && !(t' == t && r' == r && i' == i)
      ensures Look(m', DirAt(t', r'), i') == Look(m, DirAt(t', r'), i')
    {
      DirOf(t', r', i');
      DirOf(t, r, i);
    }
    forall t' | 1 <= t' < NR_TASKS && t' != t
      ensures SpaceOf(m', t') == SpaceOf(m, t')
    {
      SameSpace(m, m', t');
    }
    if Look(m', DirAt(t, r), i).Some? {
      SpaceSet(m, m', t, r, i);
    }
    if Look(m', DirAt(t, r), i) == Look(m, DirAt(t, r), i) {
      SameSpace(m, m', t);
    }
  }

  /** The bookkeeping survives a change confined to one entry of a live task. */
  lemma KeepSys(s: Sys, kernel: multiset<PageNo>, m: Mem, t: nat, r: nat, i: nat)
    requires SysInv(s, kernel) && Live(s.task, t) && Offset(r, i) && Inv(m, Held(kernel, s.task))
    requires var d := DirAt(t, r);
             && Elsewhere(s.mem, m, d, i) && !At(m, d, i).Swapped?
             && (User(d, i) ==> CleanPage(m, s.exec, s.image, d, i))
    ensures SysInv(s.(mem := m), kernel)
  {
    DirOf(t, r, i);
    forall d': nat, i': nat | User(d', i')
      ensures !At(m, d', i').Swapped? && CleanPage(m, s.exec, s.image, d', i')
    {
      assert !At(s.mem, d', i').Swapped? && CleanPage(s.mem, s.exec, s.image, d', i');
    }
  }

  lemma ExitMemInv(s: Sys, kernel: multiset<PageNo>, t: nat, m: Mem)
    requires SysInv(s, kernel) && Live(s.task, t) && Emptied(s.mem, Held(kernel, s.task), FirstDir(t), SLOT_DIRS, m)
    ensures var r := FreePage(m, s.task[t]);
            && Inv(r, Held(kernel, s.task[t := 0])) && Tidy(r, s.task[t := 0]) && Clean(r, s.exec[t := 0], s.image)
            && r == m.(count := r.count)
  {
    var task' := s.task[t := 0];
    assert multiset(task')[s.task[t]] + 1 == multiset(s.task)[s.task[t]];
    ReleaseInv(m, Held(kernel, s.task), Held(kernel, task'), s.task[t]);
    var r := FreePage(m, s.task[t]);
    forall d: nat, i: nat | User(d, i)
      ensures !At(r, d, i).Swapped? && CleanPage(r, s.exec[t := 0], s.image, d, i)
      ensures task'[SlotOf(d)] == 0 ==> r.dir[d] == 0
    {
      assert At(r, d, i) == At(m, d, i);
      assert CleanPage(s.mem, s.exec, s.image, d, i);
    }
  }

  lemma ExitSpaces(m: Mem, held: multiset<PageNo>, t: nat, m1: Mem, r: Mem)
    requires Shape(m) && 1 <= t < NR_TASKS && Emptied(m, held, FirstDir(t), SLOT_DIRS, m1)
    requires Shape(r) && r == m1.(count := r.count)
    ensures forall t' :: 1 <= t' < NR_TASKS && t' != t ==> SpaceOf(r, t') == SpaceOf(m, t')
  {
    forall t' | 1 <= t' < NR_TASKS && t' != t
      ensures SpaceOf(r, t') == SpaceOf(m, t')
    {
      forall d: nat, i: nat | Offset(d, i)
        ensures Look(r, DirAt(t', d), i) == Look(m, DirAt(t', d), i)
      {
        DirOf(t', d, i);
        assert At(r, DirAt(t', d), i) == At(m1, DirAt(t', d), i);
      }
      SameSpace(m, r, t');
    }
  }

  /** Exit takes away one address space and nothing else. */
  lemma ExitInv(s: Sys, kernel: multiset<PageNo>, t: nat)
    requires SysInv(s, kernel) && Live(s.task, t)
    ensures var s' := ExitTask(s, t);
            SysInv(s', kernel) && Abs(s') == Abs(s) - {t}
  {
    FreeTablesInv(s.mem, Held(kernel, s.task), FirstDir(t), SLOT_DIRS);
    var m := FreeTables(s.mem, FirstDir(t), SLOT_DIRS);
    ExitMemInv(s, kernel, t, m);
    var s' := ExitTask(s, t);
    ExitSpaces(s.mem, Held(kernel, s.task), t, m, s'.mem);
    AbsGone(s, s', t);
  }

  /** The abstract effect of a fault that found its page, and the concrete state it leaves. */
  ghost predicate Faulted(s: Sys, kernel: multiset<PageNo>, t: nat, r: nat, i: nat, s': Sys, ok: bool)
    requires SysInv(s, kernel) && Live(s.task, t) && Offset(r, i)
  {
    true == (
      && SysInv(s', kernel)
      && Abs(s') == (if ok then Abs(s)[t := SetPage(Abs(s)[t], r, i, PageOf(Abs(s)[t], s.image, r, i))]
          else Abs(s) - {t})
      && (ok ==> At(s'.mem, DirAt(t, r), i).Present? && s' == s.(mem := s'.mem)))
  }

  lemma FaultInv(s: Sys, kernel: multiset<PageNo>, t: nat, r: nat, i: nat, iCount: nat)
    requires SysInv(s, kernel) && Live(s.task, t) && Offset(r, i) && At(s.mem, DirAt(t, r), i) == Absent
    ensures var (s', ok) := TouchPage(s, t, r, i, iCount);
            Faulted(s, kernel, t, r, i, s', ok)
  {
    DirOf(t, r, i);
    NoPageInv(s, Held(kernel, s.task), t, r, i, iCount);
    var (m1, ok) := NoPage(s, t, r, i, iCount);
    KeepSys(s, kernel, m1, t, r, i);
    SpaceUpdate(s.mem, m1, t, r, i);
    var s1 := s.(mem := m1);
    AbsSet(s, s1, t);
    if ok {
      assert (r, i) !in Abs(s)[t].space;
      return;
    }
    assert Abs(s)[t := Abs(s)[t]] == Abs(s);
    ExitInv(s1, kernel, t);
  }

  lemma SetPageSame(e: Eager, t: nat, r: nat, i: nat)
    requires t in e && (r, i) in e[t].space
    ensures e[t := SetPage(e[t], r, i, e[t].space[(r, i)])] == e
  {
    assert e[t].space[(r, i) := e[t].space[(r, i)]] == e[t].space;
  }

  lemma TouchInv(s: Sys, kernel: multiset<PageNo>, t: nat, r: nat, i: nat, iCount: nat)
    requires SysInv(s, kernel) && Live(s.task, t) && Offset(r, i)
    ensures var (s', ok) := TouchPage(s, t, r, i, iCount);
            Faulted(s, kernel, t, r, i, s', ok)
  {
    DirOf(t, r, i);
    assert !At(s.mem, DirAt(t, r), i).Swapped?;
    if At(s.mem, DirAt(t, r), i).Present? {
      SetPageSame(Abs(s), t, r, i);
      return;
    }
    FaultInv(s, kernel, t, r, i, iCount);
  }

  /** The invariant holds and the eager system would be in state `e`. */
  ghost predicate Matches(s: Sys, kernel: multiset<PageNo>, e: Eager) {
    true == (SysInv(s, kernel) && Abs(s) == e)
  }

  lemma WriteMemInv(s: Sys, kernel: multiset<PageNo>, t: nat, r: nat, i: nat, k: nat, v: Byte)
    requires SysInv(s, kernel) && Live(s.task, t) && Offset(r, i) && k < PAGE_SIZE
    requires At(s.mem, DirAt(t, r), i).Present?
    ensures var (m, ok) := UserWrite(s.mem, s.mem.dir[DirAt(t, r)], i, k, v);
            var f := Look(s.mem, DirAt(t, r), i).value;
            if ok then SysInv(s.(mem := m), kernel) && Elsewhere(s.mem, m, DirAt(t, r), i)
                       && Look(m, DirAt(t, r), i) == Some(Patch(f, k, v))
            else m == s.mem
  {
    DirOf(t, r, i);
    UserWriteInv(s.mem, Held(kernel, s.task), DirAt(t, r), i, k, v);
    var (m, ok) := UserWrite(s.mem, s.mem.dir[DirAt(t, r)], i, k, v);
    if ok {
      KeepSys(s, kernel, m, t, r, i);
    }
  }

  /** A page of one task replaced by `f`: the abstract state moves with it. */
  lemma SetPageMatches(s: Sys, kernel: multiset<PageNo>, t: nat, r: nat, i: nat, m: Mem, f: Frame)
    requires Shape(s.mem) && |s.task| == |s.exec| == NR_TASKS && Live(s.task, t) && Offset(r, i)
    requires SysInv(s.(mem := m), kernel) && Elsewhere(s.mem, m, DirAt(t, r), i) && Look(m, DirAt(t, r), i) == Some(f)
    ensures Matches(s.(mem := m), kernel, Abs(s)[t := SetPage(Abs(s)[t], r, i, f)])
  {
    SpaceUpdate(s.mem, m, t, r, i);
    AbsSet(s, s.(mem := m), t);
  }

  lemma SetPageTwice(e: Eager, t: nat, r: nat, i: nat, p: Frame, q: Frame)
    requires t in e
    ensures var e1: Eager := e[t := SetPage(e[t], r, i, p)];
            e1[t := SetPage(e1[t], r, i, q)] == e[t := SetPage(e[t], r, i, q)] && e1 - {t} == e - {t}
  {
    assert e[t].space[(r, i) := p][(r, i) := q] == e[t].space[(r, i) := q];
  }

  /** The store half of a write, after any fault; `e` is the abstract state before the fault. */
  lemma StoreInv(s: Sys, kernel: multiset<PageNo>, t: nat, r: nat, i: nat, k: nat, v: Byte, e: Eager, p: Frame)
    requires SysInv(s, kernel) && Live(s.task, t) && Offset(r, i) && k < PAGE_SIZE
    requires At(s.mem, DirAt(t, r), i).Present? && t in e && Abs(s) == e[t := SetPage(e[t], r, i, p)]
    ensures var (m, ok) := UserWrite(s.mem, s.mem.dir[DirAt(t, r)], i, k, v);
            if ok then Matches(s.(mem := m), kernel, e[t := SetPage(e[t], r, i, Patch(p, k, v))])
                else Abs(s) - {t} == e - {t}
  {
    WriteMemInv(s, kernel, t, r, i, k, v);
    var (m, ok) := UserWrite(s.mem, s.mem.dir[DirAt(t, r)], i, k, v);
    SetPageTwice(e, t, r, i, p, Patch(p, k, v));
    if !ok {
      return;
    }
    assert Look(s.mem, DirAt(t, r), i) == Some(p) by {
      assert (r, i) in Abs(s)[t].space;
    }
    SetPageMatches(s, kernel, t, r, i, m, Patch(p, k, v));
  }

  /** The store, or the end of a task that finds no page for its copy. */
  lemma StoreEnds(s: Sys, kernel: multiset<PageNo>, t: nat, r: nat, i: nat, k: nat, v: Byte, e: Eager, p: Frame)
    requires SysInv(s, kernel) && Live(s.task, t) && Offset(r, i) && k < PAGE_SIZE
    requires At(s.mem, DirAt(t, r), i).Present? && t in e && Abs(s) == e[t := SetPage(e[t], r, i, p)]
    ensures var (m, ok) := UserWrite(s.mem, s.mem.dir[DirAt(t, r)], i, k, v);
            if ok then Matches(s.(mem := m), kernel, e[t := SetPage(e[t], r, i, Patch(p, k, v))])
                else Matches(ExitTask(s, t), kernel, e - {t})
  {
    StoreInv(s, kernel, t, r, i, k, v, e, p);
    hide Inv, Clean, UserWrite, FreeTables;
    if !UserWrite(s.mem, s.mem.dir[DirAt(t, r)], i, k, v).1 {
      ExitInv(s, kernel, t);
    }
  }

  lemma WriteInv(s: Sys, kernel: multiset<PageNo>, t: nat, r: nat, i: nat, k: nat, v: Byte, iCount: nat)
    requires SysInv(s, kernel) && Live(s.task, t) && Offset(r, i) && k < PAGE_SIZE
    ensures var (s', ok) := WriteByte(s, t, r, i, k, v, iCount);
            Matches(s', kernel, EagerStep(Abs(s), s.image, Write(t, r, i, k, v, iCount), ok))
  {
    hide Inv, Clean, NoPage, SysInv, UserWrite, ExitTask, SpaceOf, SetPage, TouchPage, At;
    KernelMem(s, kernel);
    TouchInv(s, kernel, t, r, i, iCount);
    var (s1, ok) := TouchPage(s, t, r, i, iCount);
    if ok {
      KernelMem(s1, kernel);
      StoreEnds(s1, kernel, t, r, i, k, v, Abs(s), PageOf(Abs(s)[t], s.image, r, i));
    }
  }

  // ------------------------------------------------------------------ execve

  lemma SameUseSys(s: Sys, kernel: multiset<PageNo>, m: Mem, kernel': multiset<PageNo>)
    requires SysInv(s, kernel) && SameUse(s.mem, m) && Inv(m, Held(kernel', s.task))
    ensures SysInv(s.(mem := m), kernel') && Abs(s.(mem := m)) == Abs(s)
  {
    hide Inv;
    forall d: nat, i: nat | User(d, i)
      ensures !At(m, d, i).Swapped? && CleanPage(m, s.exec, s.image, d, i)
    {
      assert !At(s.mem, d, i).Swapped? && CleanPage(s.mem, s.exec, s.image, d, i);
    }
    forall t | 1 <= t < NR_TASKS
      ensures SpaceOf(m, t) == SpaceOf(s.mem, t)
    {
      forall r: nat, i: nat | Offset(r, i)
        ensures Look(m, DirAt(t, r), i) == Look(s.mem, DirAt(t, r), i)
      {
        DirOf(t, r, i);
        var x := At(m, DirAt(t, r), i);
      }
      SameSpace(s.mem, m, t);
    }
    AbsSame(s, s.(mem := m));
  }

  lemma SpaceIs(m: Mem, t: nat, space: Space)
    requires Shape(m) && t < NR_TASKS && forall x :: x in space ==> Offset(x.0, x.1)
    requires forall k: nat, i: nat :: Offset(k, i) ==>
               Look(m, DirAt(t, k), i) == if (k, i) in space then Some(space[(k, i)]) else None
    ensures SpaceOf(m, t) == space
  {
    var a := SpaceOf(m, t);
    forall x | x in a || x in space
      ensures x in a && x in space && a[x] == space[x]
    {
      assert Offset(x.0, x.1);
    }
    assert a.Keys == space.Keys;
  }

  lemma ExecSpace(m: Mem, held: multiset<PageNo>, t: nat, pages: seq<Frame>, r: Mem)
    requires Replaced(m, held, t, pages, r)
    ensures SpaceOf(r, t) == ArgSpace(pages)
  {
    hide Inv, SpaceOf;
    forall k: nat, i: nat | Offset(k, i)
      ensures Look(r, DirAt(t, k), i) == if (k, i) in ArgSpace(pages) then Some(ArgSpace(pages)[(k, i)]) else None
    {
      DirOf(t, k, i);
      var x := At(r, DirAt(t, k), i);
    }
    SpaceIs(r, t, ArgSpace(pages));
  }

  lemma ExecOthers(m: Mem, held: multiset<PageNo>, t: nat, pages: seq<Frame>, r: Mem, u: nat)
    requires Replaced(m, held, t, pages, r) && 1 <= u < NR_TASKS && u != t
    ensures SpaceOf(r, u) == SpaceOf(m, u)
  {
    hide Inv, SpaceOf;
    forall k: nat, i: nat | Offset(k, i)
      ensures Look(r, DirAt(u, k), i) == Look(m, DirAt(u, k), i)
    {
      DirOf(u, k, i);
      var x := At(r, DirAt(u, k), i);
    }
    SameSpace(m, r, u);
  }

  /** The argument pages lie above any executable. */
  lemma ExecTidy(s: Sys, kernel: multiset<PageNo>, t: nat, x: nat, pages: seq<Frame>, r: Mem, kernel': multiset<PageNo>)
    requires SysInv(s, kernel) && Live(s.task, t) && ExecOk(s.image, x, pages)
    requires Replaced(s.mem, Held(kernel', s.task), t, pages, r)
    ensures SysInv(s.(mem := r, exec := s.exec[t := x]), kernel')
  {
    hide Inv;
    var exec' := s.exec[t := x];
    forall d: nat, i: nat | User(d, i)
      ensures !At(r, d, i).Swapped? && CleanPage(r, exec', s.image, d, i)
    {
      var e := At(r, d, i);
      assert !At(s.mem, d, i).Swapped? && CleanPage(s.mem, s.exec, s.image, d, i);
    }
  }

  lemma SomeTable(m: Mem, t: nat)
    requires Shape(m) && 1 <= t < NR_TASKS && SpaceOf(m, t) != map[]
    ensures HasTable(m, t)
  {
    var x :| x in SpaceOf(m, t);
    assert m.dir[DirAt(t, x.0)] != 0;
  }

  lemma KernelMem(s: Sys, kernel: multiset<PageNo>)
    requires SysInv(s, kernel)
    ensures Inv(s.mem, Held(kernel, s.task)) && |s.task| == |s.exec| == NR_TASKS
    ensures Shape(s.mem) && Images(s.image)
  {
    hide Tidy, Clean;
  }

  lemma ExecAbs(s: Sys, kernel: multiset<PageNo>, t: nat, x: nat, pages: seq<Frame>, r: Mem)
    requires Shape(s.mem) && |s.task| == |s.exec| == NR_TASKS && Live(s.task, t) && |pages| <= MAX_ARG_PAGES
    requires Replaced(s.mem, Held(kernel, s.task), t, pages, r) && Shape(r)
    ensures Abs(s.(mem := r, exec := s.exec[t := x])) == Abs(s)[t := Private(ArgSpace(pages), x)]
  {
    hide Inv, SpaceOf, ArgSpace, Replaced;
    ExecSpace(s.mem, Held(kernel, s.task), t, pages, r);
    var a, b := Abs(s.(mem := r, exec := s.exec[t := x])), Abs(s)[t := Private(ArgSpace(pages), x)];
    assert a.Keys == b.Keys;
    forall u | u in a.Keys
      ensures a[u] == b[u]
    {
      if u != t {
        ExecOthers(s.mem, Held(kernel, s.task), t, pages, r, u);
      }
    }
    assert a == b;
  }

  /** execve: the task has the argument pages and nothing else, and the new executable; or, without memory for
      the arguments, nothing has changed and every count is as before. */
  lemma ExecInv(s: Sys, kernel: multiset<PageNo>, t: nat, x: nat, pages: seq<Frame>)
    requires SysInv(s, kernel) && Live(s.task, t) && SpaceOf(s.mem, t) != map[] && ExecOk(s.image, x, pages)
    ensures var (s', ok) := ExecTask(s, t, x, pages);
            && SysInv(s', kernel)
            && Abs(s') == (if ok then Abs(s)[t := Private(ArgSpace(pages), x)] else Abs(s))
            && (!ok ==> s'.mem.count == s.mem.count && s' == s.(mem := s'.mem))
  {
    SomeTable(s.mem, t);
    KernelMem(s, kernel);
    var (r, ok) := ExecMem(s.mem, t, pages);
    hide Inv, ExecMem, SpaceOf, ArgSpace, Clean, Tidy, HasTable, Abs, SysInv;
    ExecMemInv(s.mem, Held(kernel, s.task), t, pages);
    if ok {
      ExecTidy(s, kernel, t, x, pages, r, kernel);
      ExecAbs(s, kernel, t, x, pages, r);
    } else {
      SameUseSys(s, kernel, r, kernel);
    }
  }

  // -------------------------------------------------------------------- fork

  /** Only the holds of main-memory pages matter. */
  lemma SameHolds(m: Mem, held: multiset<PageNo>, held': multiset<PageNo>)
    requires Inv(m, held) && forall p: PageNo :: LOW_PAGES <= p ==> held'[p] == held[p]
    ensures Inv(m, held')
  {
    assert Exclusive(m, held');
    assert Balanced(m, held');
  }

  lemma ForkTidy(s: Sys, kernel: multiset<PageNo>, p: nat, c: nat, m: Mem)
    requires SysInv(s, kernel) && Live(s.task, p) && 1 <= c < NR_TASKS && s.task[c] == 0 && Shape(m)
    requires Undisturbed(s.mem, m, FirstDir(c), FirstDir(c) + SLOT_DIRS)
    requires CopyOf(s.mem, FirstDir(p), m, FirstDir(c), SLOT_DIRS)
    ensures forall task': seq<PageNo> ::
              && |task'| == NR_TASKS && task'[c] != 0
              && (forall t :: 1 <= t < NR_TASKS && t != c ==> task'[t] == s.task[t]) ==>
                Tidy(m, task')
    ensures Clean(m, s.exec[c := s.exec[p]], s.image)
  {
    var lo := FirstDir(c);
    forall d: nat, i: nat | User(d, i)
      ensures !At(m, d, i).Swapped? && CleanPage(m, s.exec[c := s.exec[p]], s.image, d, i)
    {
      if lo <= d < lo + SLOT_DIRS {
        var d0 := FirstDir(p) + (d - lo);
        assert SlotOf(d) == c && SlotOf(d0) == p && InSlot(d) == InSlot(d0);
        assert CleanPage(s.mem, s.exec, s.image, d0, i);
      } else {
        assert SlotOf(d) != c;
        assert !At(s.mem, d, i).Swapped? && CleanPage(s.mem, s.exec, s.image, d, i);
        assert Weaker(At(m, d, i), At(s.mem, d, i));
      }
    }
    forall d: nat | SLOT_DIRS <= d < DIRS && SlotOf(d) != c
      ensures m.dir[d] == s.mem.dir[d]
    {
    }
  }

  lemma ForkSpaces(m: Mem, p: nat, c: nat, m': Mem)
    requires Shape(m) && Shape(m') && 1 <= p < NR_TASKS && 1 <= c < NR_TASKS && p != c
    requires Undisturbed(m, m', FirstDir(c), FirstDir(c) + SLOT_DIRS)
    ensures forall t :: 1 <= t < NR_TASKS && t != c ==> SpaceOf(m', t) == SpaceOf(m, t)
    ensures CopyOf(m, FirstDir(p), m', FirstDir(c), SLOT_DIRS) ==> SpaceOf(m', c) == SpaceOf(m, p)
  {
    forall t | 1 <= t < NR_TASKS && t != c
      ensures SpaceOf(m', t) == SpaceOf(m, t)
    {
      forall r: nat, i: nat | Offset(r, i)
        ensures Look(m', DirAt(t, r), i) == Look(m, DirAt(t, r), i)
      {
        DirOf(t, r, i);
      }
      SameSpace(m, m', t);
    }
    if CopyOf(m, FirstDir(p), m', FirstDir(c), SLOT_DIRS) {
      forall r: nat, i: nat | Offset(r, i)
        ensures Look(m', DirAt(c, r), i) == Look(m, DirAt(p, r), i)
      {
        assert FirstDir(p) + (DirAt(c, r) - FirstDir(c)) == DirAt(p, r);
      }
      assert SpaceOf(m', c) == SpaceOf(m, p);
    }
  }

  lemma AbsFork(s: Sys, s': Sys, p: nat, c: nat, pn: PageNo)
    requires Shape(s.mem) && Shape(s'.mem) && |s.task| == |s.exec| == NR_TASKS
    requires Live(s.task, p) && 1 <= c < NR_TASKS && p != c && pn != 0
    requires s'.task == s.task[c := pn] && s'.exec == s.exec[c := s.exec[p]]
    requires forall t :: 1 <= t < NR_TASKS && t != c ==> SpaceOf(s'.mem, t) == SpaceOf(s.mem, t)
    requires SpaceOf(s'.mem, c) == SpaceOf(s.mem, p)
    ensures Abs(s') == Abs(s)[c := Abs(s)[p]]
  {
    var a, b := Abs(s'), Abs(s)[c := Abs(s)[p]];
    assert a.Keys == b.Keys;
    forall u | u in a.Keys
      ensures a[u] == b[u]
    {
    }
  }

  lemma AbsSame(s: Sys, s': Sys)
    requires Shape(s.mem) && Shape(s'.mem) && |s.task| == |s.exec| == NR_TASKS
    requires s' == s.(mem := s'.mem)
    requires forall t :: 1 <= t < NR_TASKS && s.task[t] != 0 ==> SpaceOf(s'.mem, t) == SpaceOf(s.mem, t)
    ensures Abs(s') == Abs(s)
  {
    var a, b := Abs(s'), Abs(s);
    assert a.Keys == b.Keys;
    forall u | u in a.Keys
      ensures a[u] == b[u]
    {
    }
  }

  /** Memory and task table after fork's own steps: what a successful and a failed fork leave behind. */
  ghost predicate Forked(s: Sys, kernel: multiset<PageNo>, p: nat, c: nat, s': Sys, ok: bool)
    requires SysInv(s, kernel) && Live(s.task, p)
  {
    true == (
      && SysInv(s', kernel)
      && Abs(s') == (if ok then Abs(s)[c := Abs(s)[p]] else Abs(s))
      && (!ok ==> s'.mem.count == s.mem.count && s' == s.(mem := s'.mem)))
  }

  lemma ForkFails(s: Sys, kernel: multiset<PageNo>, p: nat, c: nat, m1: Mem, pn: PageNo, m2: Mem)
    requires SysInv(s, kernel) && Live(s.task, p) && 1 <= c < NR_TASKS && s.task[c] == 0
    requires LOW_PAGES <= pn < s.mem.high && Held(kernel, s.task)[pn] == 0 && s.mem.count[pn - LOW_PAGES] == 0
    requires Inv(m2, Held(kernel, s.task) + multiset{pn}) && Shape(m1)
    requires m2.count == m1.count && m1.count == s.mem.count[pn - LOW_PAGES := 1] && m2.high == s.mem.high
    requires Undisturbed(s.mem, m2, FirstDir(c), FirstDir(c) + SLOT_DIRS)
    requires forall d: nat :: FirstDir(c) <= d < FirstDir(c) + SLOT_DIRS ==> m2.dir[d] == 0
    ensures Forked(s, kernel, p, c, s.(mem := FreePage(m2, pn)), false)
  {
    var h := Held(kernel, s.task);
    assert (h + multiset{pn})[pn] == 1;
    ReleaseInv(m2, h + multiset{pn}, h, pn);
    var r := FreePage(m2, pn);
    assert r.count == s.mem.count;
    forall d: nat, i: nat | User(d, i)
      ensures !At(r, d, i).Swapped? && CleanPage(r, s.exec, s.image, d, i)
    {
      assert At(r, d, i) == At(m2, d, i);
      assert !At(s.mem, d, i).Swapped? && CleanPage(s.mem, s.exec, s.image, d, i);
      assert FirstDir(c) <= d < FirstDir(c) + SLOT_DIRS || Weaker(At(m2, d, i), At(s.mem, d, i));
    }
    assert Tidy(r, s.task) by {
      forall d: nat | SLOT_DIRS <= d < DIRS && s.task[SlotOf(d)] == 0
        ensures r.dir[d] == 0
      {
        assert s.mem.dir[d] == 0;
      }
    }
    ForkSpaces(s.mem, p, c, m2);
    forall t | 1 <= t < NR_TASKS && s.task[t] != 0
      ensures SpaceOf(r, t) == SpaceOf(s.mem, t)
    {
      SameSpace(m2, r, t);
    }
    AbsSame(s, s.(mem := r));
  }

  lemma ForkWorks(s: Sys, kernel: multiset<PageNo>, p: nat, c: nat, pn: PageNo, m2: Mem)
    requires SysInv(s, kernel) && Live(s.task, p) && 1 <= c < NR_TASKS && s.task[c] == 0
    requires LOW_PAGES <= pn < s.mem.high && Inv(m2, Held(kernel, s.task) + multiset{pn})
    requires Undisturbed(s.mem, m2, FirstDir(c), FirstDir(c) + SLOT_DIRS)
    requires CopyOf(s.mem, FirstDir(p), m2, FirstDir(c), SLOT_DIRS)
    ensures Forked(s, kernel, p, c, s.(mem := m2, task := s.task[c := pn], exec := s.exec[c := s.exec[p]]), true)
  {
    var task' := s.task[c := pn];
    var s' := s.(mem := m2, task := task', exec := s.exec[c := s.exec[p]]);
    SameHolds(m2, Held(kernel, s.task) + multiset{pn}, Held(kernel, task'));
    ForkTidy(s, kernel, p, c, m2);
    ForkSpaces(s.mem, p, c, m2);
    AbsFork(s, s', p, c, pn);
  }

  lemma ForkCopied(s: Sys, held: multiset<PageNo>, p: nat, c: nat, m1: Mem, m2: Mem)
    requires Shape(s.mem) && Shape(m1) && Shape(m2) && 1 <= p < NR_TASKS && 1 <= c < NR_TASKS && p != c
    requires m1.dir == s.mem.dir && m1.high == s.mem.high
    requires forall d: nat, i: nat ::
        User(d, i) ==> At(m1, d, i) == At(s.mem, d, i) && Look(m1, d, i) == Look(s.mem, d, i)
    requires Undisturbed(m1, m2, FirstDir(c), FirstDir(c) + SLOT_DIRS)
    ensures Undisturbed(s.mem, m2, FirstDir(c), FirstDir(c) + SLOT_DIRS)
    ensures CopyOf(m1, FirstDir(p), m2, FirstDir(c), SLOT_DIRS) ==>
        CopyOf(s.mem, FirstDir(p), m2, FirstDir(c), SLOT_DIRS)
  {
    forall d: nat, i: nat | User(d, i)
      ensures !(FirstDir(c) <= d < FirstDir(c) + SLOT_DIRS) ==>
          Weaker(At(m2, d, i), At(s.mem, d, i)) && Look(m2, d, i) == Look(s.mem, d, i)
    {
      assert At(m1, d, i) == At(s.mem, d, i);
    }
    if CopyOf(m1, FirstDir(p), m2, FirstDir(c), SLOT_DIRS) {
      forall d: nat, i: nat | FirstDir(c) <= d < FirstDir(c) + SLOT_DIRS && i < ENTRIES
        ensures var e := At(s.mem, FirstDir(p) + (d - FirstDir(c)), i);
                && At(m2, d, i) == (if e.Present? then ReadOnly(e) else Absent)
                && Look(m2, d, i) == Look(s.mem, FirstDir(p) + (d - FirstDir(c)), i)
      {
        assert User(FirstDir(p) + (d - FirstDir(c)), i);
      }
    }
  }

  /** Fork: the child gets what an eager copy would give it, or nothing changes and every count is as before. */
  lemma ForkInv(s: Sys, kernel: multiset<PageNo>, p: nat, c: nat)
    requires SysInv(s, kernel) && Live(s.task, p) && 1 <= c < NR_TASKS && s.task[c] == 0
    ensures var (s', ok) := ForkTask(s, p, c);
            Forked(s, kernel, p, c, s', ok)
  {
    var h := Held(kernel, s.task);
    GetFreePageInv(s.mem, h);
    var (m1, pn) := GetFreePage(s.mem);
    if pn == 0 {
      return;
    }
    forall d: nat | FirstDir(c) <= d < FirstDir(c) + SLOT_DIRS
      ensures m1.dir[d] == 0
    {
      assert SlotOf(d) == c;
    }
    CopyMemInv(m1, h + multiset{pn}, FirstDir(p), FirstDir(c), SLOT_DIRS);
    var (m2, ok) := CopyMem(m1, FirstDir(p), FirstDir(c), SLOT_DIRS);
    ForkCopied(s, h, p, c, m1, m2);
    if ok {
      ForkWorks(s, kernel, p, c, pn, m2);
    } else {
      ForkFails(s, kernel, p, c, m1, pn, m2);
    }
  }
}

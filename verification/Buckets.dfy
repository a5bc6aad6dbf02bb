/**
 The bucket allocator of 0.12 (lib/malloc.c) as a state machine over the stretches of code
 that run with interrupts off: allocations, the two halves of one that must wait for a page,
 and the two halves of a free, its search and its unlinking. Any number of processes and
 interrupts may be between two halves. An object is named by its page and its place there.
*/
module Buckets {
  const PAGE_SIZE: nat := 4096
  const DESCS_PER_PAGE: nat := 256     // PAGE_SIZE / sizeof(struct bucket_desc)
  const DIRS: nat := 9
  const FREE: nat := 9                 // the list free_bucket_desc, after the nine chains
  const NULL: int := -1

  function SizeOf(g: nat): (size: nat)
    requires g < DIRS
    ensures size > 0
  {
    if g == 0 then 16 else if g == 1 then 32 else if g == 2 then 64 else if g == 3 then 128 else if g == 4 then 256
    else if g == 5 then 512 else if g == 6 then 1024 else if g == 7 then 2048 else 4096
  }

  /** How many objects of chain `g` fit on a page. */
  function PerPage(g: nat): (n: nat)
    requires g < DIRS
    ensures n > 0 && n * SizeOf(g) == PAGE_SIZE
  {
    if g == 0 then 256 else if g == 1 then 128 else if g == 2 then 64 else if g == 3 then 32 else if g == 4 then 16
    else if g == 5 then 8 else if g == 6 then 4 else if g == 7 then 2 else 1
  }

  /** The first bucket size that is large enough. */
  function DirFor(len: nat, g: nat): (r: nat)
    requires g <= DIRS
    ensures g <= r <= DIRS && (r < DIRS ==> SizeOf(r) >= len) && forall h :: g <= h < r ==> SizeOf(h) < len
    decreases DIRS - g
  {
    if g == DIRS || SizeOf(g) >= len then g else DirFor(len, g + 1)
  }

  datatype Obj = Obj(page: nat, k: nat)

  datatype Desc = Desc(page: nat, next: int, freeptr: int, refcnt: nat, dir: nat)

  /** A process between two halves: waiting for a page of descriptors, or for a page of objects, or between
      the search and the cli of free_s. */
  datatype Pc = Idle | Wanting(g: nat) | Growing(g: nat, b: nat) | Freeing(obj: Obj, g: nat, b: nat, prev: int)

  datatype State = State(
    head: seq<int>,          // the nine chains and free_bucket_desc
    desc: seq<Desc>,
    word: map<Obj, int>,     // the first word of each object
    pages: set<nat>,         // pages got and not given back
    task: seq<Pc>,
    fault: bool)             // a panic

  datatype Step =
    | Malloc(t: nat, len: nat)
    | Describe(t: nat)
    | Link(t: nat, page: nat)
    | Search(t: nat, obj: Obj, size: nat)
    | Finish(t: nat)
    | Store(obj: Obj, v: int)

  function Word(s: State, o: Obj): int {
    if o in s.word then s.word[o] else 0
  }

  // ------------------------------------------------------------------ the code

  ghost predicate Shape(s: State) {
    && |s.head| == DIRS + 1
    && (forall g :: 0 <= g <= DIRS ==> NULL <= s.head[g] < |s.desc|)
    && (forall b ::
        0 <= b < |s.desc| ==> NULL <= s.desc[b].next < |s.desc| && NULL <= s.desc[b].freeptr && s.desc[b].dir < DIRS)
    && (forall t :: 0 <= t < |s.task| ==> PcShape(s.task[t], |s.desc|))
  }

  predicate PcShape(pc: Pc, n: nat) {
    match pc
    case Idle => true
    case Wanting(g) => g < DIRS
    case Growing(g, b) => g < DIRS && b < n
    case Freeing(_, g, b, prev) => g < DIRS && b < n && NULL <= prev < n
  }

  function NewDescs(n: nat, rest: int): (r: seq<Desc>)
    ensures |r| == DESCS_PER_PAGE
    ensures forall i :: 0 <= i < DESCS_PER_PAGE ==> r[i] == Desc(0, if i + 1 < DESCS_PER_PAGE then n + i + 1
        else rest, NULL, 0, 0)
  {
    seq(DESCS_PER_PAGE, i requires 0 <= i < DESCS_PER_PAGE => Desc(0, if i + 1 < DESCS_PER_PAGE then n + i + 1
        else rest, NULL, 0, 0))
  }

  /** init_bucket_desc: a page of new descriptors in front of the free list. */
  function MoreDescs(s: State): State
    requires |s.head| == DIRS + 1
  {
    var n := |s.desc|;
    s.(desc := s.desc + NewDescs(n, s.head[FREE]), head := s.head[FREE := n])
  }

  /** `retval = freeptr; freeptr = *retval; refcnt++`. */
  function TakeFrom(s: State, b: nat): State
    requires b < |s.desc|
  {
    var d := s.desc[b];
    if d.freeptr < 0 then s.(fault := true)
    else s.(desc := s.desc[b := d.(freeptr := Word(s, Obj(d.page, d.freeptr)), refcnt := (d.refcnt + 1) % 65536)])
  }

  /** The objects from number `k` on of a new page, threaded. */
  function Thread(word: map<Obj, int>, page: nat, k: nat, n: nat): (r: map<Obj, int>)
    requires k <= n
    ensures forall o: Obj :: o.page != page || o.k < k || o.k >= n ==>
        (o in r <==> o in word) && (o in word ==> r[o] == word[o])
    ensures forall j: nat :: k <= j < n ==> Obj(page, j) in r && r[Obj(page, j)] == if j + 1 < n then j + 1 else NULL
    decreases n - k
  {
    if k == n then word else Thread(word[Obj(page, k) := if k + 1 < n then k + 1 else NULL], page, k + 1, n)
  }

  // Chains are walked along their pointers; `fuel` is the number of descriptors, and no chain is longer.

  /** The first descriptor from `p` on with a free object. */
  function WalkFree(desc: seq<Desc>, p: int, fuel: nat): (r: int)
    requires (forall b :: 0 <= b < |desc| ==> NULL <= desc[b].next < |desc|) && NULL <= p < |desc|
    ensures NULL <= r < |desc|
    decreases fuel
  {
    if p == NULL || fuel == 0 then NULL
    else if desc[p].freeptr != NULL then p
    else WalkFree(desc, desc[p].next, fuel - 1)
  }

  /** The descriptor of a page from `p` on, and the one before it. */
  function WalkPage(desc: seq<Desc>, p: int, prev: int, page: nat, fuel: nat): (r: (int, int))
    requires (forall b :: 0 <= b < |desc| ==> NULL <= desc[b].next < |desc|) && NULL <= p < |desc|
        && NULL <= prev < |desc|
    ensures NULL <= r.0 < |desc| && NULL <= r.1 < |desc|
    decreases fuel
  {
    if p == NULL || fuel == 0 then (NULL, prev)
    else if desc[p].page == page then (p, prev)
    else WalkPage(desc, desc[p].next, p, page, fuel - 1)
  }

  /** The descriptor from `p` on whose next is `b`. */
  function WalkPrev(desc: seq<Desc>, p: int, b: nat, fuel: nat): (r: int)
    requires (forall c :: 0 <= c < |desc| ==> NULL <= desc[c].next < |desc|) && NULL <= p < |desc|
    ensures NULL <= r < |desc|
    decreases fuel
  {
    if p == NULL || fuel == 0 then NULL
    else if desc[p].next == b then p
    else WalkPrev(desc, desc[p].next, b, fuel - 1)
  }

  datatype Place = Nowhere | Place(g: nat, b: nat, prev: int)

  /** The search of free_s; sizes below the given one are skipped. */
  function SearchDirs(s: State, page: nat, size: nat, g: nat): (r: Place)
    requires Shape(s) && g <= DIRS
    ensures r.Place? ==> r.g < DIRS && r.b < |s.desc| && NULL <= r.prev < |s.desc|
    decreases DIRS - g
  {
    if g == DIRS then Nowhere
    else if SizeOf(g) < size then SearchDirs(s, page, size, g + 1)
    else
      var (b, prev) := WalkPage(s.desc, s.head[g], NULL, page, |s.desc|);
      if b != NULL then Place(g, b, prev) else SearchDirs(s, page, size, g + 1)
  }

  /** The first free descriptor is taken off its list for a page to come. */
  function Pop(s: State, t: nat, g: nat): State
    requires Shape(s) && t < |s.task| && s.head[FREE] != NULL && g < DIRS
  {
    var d := s.head[FREE];
    s.(head := s.head[FREE := s.desc[d].next], desc := s.desc[d := s.desc[d].(refcnt := 0, dir := g)],
       task := s.task[t := Growing(g, d)])
  }

  /** malloc up to its return, or up to a wait for a page. */
  function DoMalloc(s: State, t: nat, len: nat): State
    requires Shape(s) && t < |s.task|
  {
    var g := DirFor(len, 0);
    if g == DIRS then s.(fault := true)
    else
      var b := WalkFree(s.desc, s.head[g], |s.desc|);
      if b != NULL then TakeFrom(s, b)
      else if s.head[FREE] == NULL then s.(task := s.task[t := Wanting(g)])
      else Pop(s, t, g)
  }

  /** init_bucket_desc with its page, and malloc up to its next wait. */
  function DoDescribe(s: State, t: nat): State
    requires Shape(s) && Shape(MoreDescs(s)) && t < |s.task| && s.task[t].Wanting?
  {
    Pop(MoreDescs(s), t, s.task[t].g)
  }

  /** The second half of a malloc that had to wait for a page. */
  function LinkPage(s: State, t: nat, page: nat): State
    requires Shape(s) && t < |s.task| && s.task[t].Growing?
  {
    var (g, b) := (s.task[t].g, s.task[t].b);
    TakeFrom(s.(
      desc := s.desc[b := Desc(page, s.head[g], 0, 0, g)], head := s.head[g := b],
      word := Thread(s.word, page, 0, PerPage(g)), pages := s.pages + {page}, task := s.task[t := Idle]), b)
  }

  /** Unlinks a descriptor from its chain after checking that the predecessor is still the right one. */
  function Unlink(s: State, g: nat, b: nat, prev: int): State
    requires Shape(s) && g < DIRS && b < |s.desc| && NULL <= prev < |s.desc|
  {
    var stale := if prev != NULL then s.desc[prev].next != b else s.head[g] != b;
    var p := if stale then WalkPrev(s.desc, s.head[g], b, |s.desc|) else prev;
    if p != NULL then s.(desc := s.desc[p := s.desc[p].(next := s.desc[b].next)])
    else if s.head[g] != b then s.(fault := true)
    else s.(head := s.head[g := s.desc[b].next])
  }

  /** The second half of free_s. */
  function DoFinish(s: State, t: nat): State
    requires Shape(s) && t < |s.task| && s.task[t].Freeing?
  {
    var pc := s.task[t];
    var d := s.desc[pc.b];
    var s1 := s.(
      word := s.word[pc.obj := d.freeptr], task := s.task[t := Idle],
      desc := s.desc[pc.b := d.(freeptr := pc.obj.k, refcnt := if d.refcnt == 0 then 65535 else d.refcnt - 1)]);
    if s1.desc[pc.b].refcnt != 0 then s1
    else
      var s2 := Unlink(s1, pc.g, pc.b, pc.prev);
      if s2.fault then s2
      else s2.(pages := s2.pages - {s2.desc[pc.b].page}, desc := s2.desc[pc.b := s2.desc[pc.b].(next := s2.head[FREE])],
          head := s2.head[FREE := pc.b])
  }

  // ---------------------------------------------------------------- invariant

  predicate NoDup(q: seq<nat>) {
    forall i, j :: 0 <= i < j < |q| ==> q[i] != q[j]
  }

  function At(q: seq<nat>, i: int): int {
    if 0 <= i < |q| then q[i] else NULL
  }

  /** `q` is the list of descriptors from `head` on. */
  ghost predicate Linked(desc: seq<Desc>, head: int, q: seq<nat>) {
    && NoDup(q) && (forall i :: 0 <= i < |q| ==> q[i] < |desc|) && head == At(q, 0)
    && (q != [] ==> desc[q[|q| - 1]].next == NULL)
    && (forall i, j {:trigger q[i], q[j]} :: 0 <= i < |q| && j == i + 1 < |q| ==> desc[q[i]].next == q[j])
  }

  type Lists = seq<seq<nat>>
  type Frees = map<nat, seq<nat>>

  ghost predicate InList(lists: Lists, g: nat, b: nat) {
    g < |lists| && b in lists[g]
  }

  ghost predicate Listed(lists: Lists, b: nat) {
    exists g: nat :: InList(lists, g, b)
  }

  /** The nine chains and the free list: no descriptor is in two of them, so no two have the same successor. */
  ghost predicate ListsOk(s: State, lists: Lists)
    requires Shape(s)
  {
    && |lists| == DIRS + 1
    && (forall g :: 0 <= g <= DIRS ==> Linked(s.desc, s.head[g], lists[g]))
    && (forall g: nat, h: nat, b: nat {:trigger InList(lists, g, b), InList(lists, h, b)} ::
        InList(lists, g, b) && InList(lists, h, b) ==> g == h)
  }

  /** `f` is the list of free objects of a page from `freeptr` on. */
  ghost predicate FreeList(s: State, page: nat, freeptr: int, f: seq<nat>) {
    && NoDup(f) && freeptr == At(f, 0)
    && (f != [] ==> Word(s, Obj(page, f[|f| - 1])) == NULL)
    && (forall i, j {:trigger f[i], f[j]} :: 0 <= i < |f| && j == i + 1 < |f| ==> Word(s, Obj(page, f[i])) == f[j])
  }

  /** A chained descriptor: its live objects and its free list make up the page, and some object is live. */
  ghost predicate DescOk(s: State, frees: Frees, g: nat, b: nat)
    requires g < DIRS && b < |s.desc|
  {
    var d := s.desc[b];
    && d.dir == g && d.page in s.pages && b in frees
    && FreeList(s, d.page, d.freeptr, frees[b]) && (forall i :: 0 <= i < |frees[b]| ==> frees[b][i] < PerPage(g))
    && 0 < d.refcnt && d.refcnt + |frees[b]| == PerPage(g)
  }

  ghost predicate DescsOk(s: State, lists: Lists, frees: Frees)
    requires Shape(s) && ListsOk(s, lists)
  {
    forall g: nat, b: nat {:trigger InList(lists, g, b)} :: g < DIRS && InList(lists, g, b) ==> DescOk(s, frees, g, b)
  }

  ghost predicate HasPage(s: State, lists: Lists, b: nat, page: nat)
    requires Shape(s)
  {
    b < |s.desc| && s.desc[b].page == page && exists g: nat :: g < DIRS && InList(lists, g, b)
  }

  /** A page belongs to one chained descriptor, and only such pages are kept. */
  ghost predicate PagesOk(s: State, lists: Lists)
    requires Shape(s)
  {
    && (forall p: nat, b: nat, c: nat {:trigger HasPage(s, lists, b, p), HasPage(s, lists, c, p)} ::
          HasPage(s, lists, b, p) && HasPage(s, lists, c, p) ==> b == c)
    && (forall p: nat :: p in s.pages ==> exists b: nat :: HasPage(s, lists, b, p))
  }

  ghost predicate Live(s: State, lists: Lists, frees: Frees, o: Obj)
    requires Shape(s)
  {
    exists g: nat, b: nat :: LiveIn(s, lists, frees, o, g, b)
  }

  ghost predicate LiveIn(s: State, lists: Lists, frees: Frees, o: Obj, g: nat, b: nat)
    requires Shape(s)
  {
    g < DIRS && InList(lists, g, b) && b < |s.desc| && s.desc[b].page == o.page && o.k < PerPage(g) && b in frees
        && o.k !in frees[b]
  }

  /** The predecessor found by the search is no longer one if it has left the lists. */
  ghost predicate PrevOk(s: State, lists: Lists, pc: Pc)
    requires Shape(s) && pc.Freeing?
  {
    pc.prev >= 0 && !Listed(lists, pc.prev) ==> pc.prev < |s.desc| && s.desc[pc.prev].next != pc.b
  }

  ghost predicate PcOk(s: State, lists: Lists, frees: Frees, pc: Pc)
    requires Shape(s)
  {
    match pc
    case Idle => true
    case Wanting(_) => true
    case Growing(g, b) => !Listed(lists, b)
    case Freeing(o, g, b, prev) =>
      && LiveIn(s, lists, frees, o, g, b)
      && PrevOk(s, lists, pc)
  }

  /** No object is being freed twice, and no descriptor is being filled twice. */
  predicate Different(pc: Pc, pc': Pc) {
    && (pc.Growing? && pc'.Growing? ==> pc.b != pc'.b)
    && (pc.Freeing? && pc'.Freeing? ==> pc.obj != pc'.obj)
  }

  ghost predicate TasksOk(s: State, lists: Lists, frees: Frees)
    requires Shape(s)
  {
    && (forall t :: 0 <= t < |s.task| ==> PcOk(s, lists, frees, s.task[t]))
    && (forall t, u :: 0 <= t < u < |s.task| ==> Different(s.task[t], s.task[u]))
  }

  ghost predicate Inv(s: State, lists: Lists, frees: Frees) {
    true == (
      && Shape(s) && !s.fault && ListsOk(s, lists) && DescsOk(s, lists, frees) && PagesOk(s, lists)
      && TasksOk(s, lists, frees))
  }

  // ------------------------------------------------------------------- walks

  /** No list is longer than there are descriptors. */
  lemma ListLength(q: seq<nat>, n: nat)
    requires NoDup(q) && forall i :: 0 <= i < |q| ==> q[i] < n
    ensures |q| <= n
  {
    NoDupCard(q, Below(n));
  }

  function Below(n: nat): (r: set<nat>)
    ensures |r| == n && forall x: nat :: x in r <==> x < n
  {
    if n == 0 then {} else Below(n - 1) + {n - 1}
  }

  lemma {:induction false} NoDupCard(q: seq<nat>, s: set<nat>)
    requires NoDup(q) && forall i :: 0 <= i < |q| ==> q[i] in s
    ensures |q| <= |s|
  {
    if q != [] {
      NoDupCard(q[1..], s - {q[0]});
    }
  }

  /** Along a list, WalkFree finds the first descriptor with a free object. */
  lemma {:induction false} WalkFreeIs(desc: seq<Desc>, q: seq<nat>, head: int, i: nat, fuel: nat)
    requires (forall b :: 0 <= b < |desc| ==> NULL <= desc[b].next < |desc|) && Linked(desc, head, q) && i <= |q|
        && |q| - i <= fuel
    ensures var r := WalkFree(desc, At(q, i), fuel);
            if r == NULL then forall j :: i <= j < |q| ==> desc[q[j]].freeptr == NULL
            else r in q && desc[r].freeptr != NULL
    decreases |q| - i
  {
    if i < |q| && desc[q[i]].freeptr == NULL {
      assert i + 1 < |q| ==> desc[q[i]].next == q[i + 1];
      WalkFreeIs(desc, q, head, i + 1, fuel - 1);
    }
  }

  lemma {:induction false} WalkPageIs(desc: seq<Desc>, q: seq<nat>, head: int, i: nat, page: nat, fuel: nat)
    requires (forall b :: 0 <= b < |desc| ==> NULL <= desc[b].next < |desc|) && Linked(desc, head, q) && i <= |q|
        && |q| - i <= fuel
    ensures var r := WalkPage(desc, At(q, i), At(q, i - 1), page, fuel);
            if r.0 == NULL then forall j :: i <= j < |q| ==> desc[q[j]].page != page
            else exists j :: i <= j < |q| && q[j] == r.0 && desc[q[j]].page == page && r.1 == At(q, j - 1)
    decreases |q| - i
  {
    if i < |q| && desc[q[i]].page != page {
      assert i + 1 < |q| ==> desc[q[i]].next == q[i + 1];
      WalkPageIs(desc, q, head, i + 1, page, fuel - 1);
    }
  }

  /** Along its own list, WalkPrev finds the predecessor of a descriptor. */
  lemma {:induction false} WalkPrevIs(desc: seq<Desc>, q: seq<nat>, head: int, i: nat, k: nat, fuel: nat)
    requires (forall b :: 0 <= b < |desc| ==> NULL <= desc[b].next < |desc|) && Linked(desc, head, q) && i <= |q|
        && |q| - i <= fuel && k < |q|
    ensures WalkPrev(desc, At(q, i), q[k], fuel) == if i < k then q[k - 1] else NULL
    decreases |q| - i
  {
    if i < |q| {
      var j := i + 1;
      assert j < |q| ==> desc[q[i]].next == q[j];
      assert desc[q[i]].next == q[k] <==> j == k;
      if j != k {
        WalkPrevIs(desc, q, head, j, k, fuel - 1);
      }
    }
  }

  // ------------------------------------------- taking and giving back an object

  /** Only the objects of one chained descriptor have changed, and which of them are free. */
  ghost predicate OneDesc(s: State, lists: Lists, frees: Frees, s': State, g: nat, b: nat, f: seq<nat>) {
    true == (
      && Inv(s, lists, frees) && Shape(s') && g < DIRS && InList(lists, g, b) && b < |s.desc|
      && s'.head == s.head && s'.pages == s.pages && !s'.fault && |s'.desc| == |s.desc|
      && s'.desc == s.desc[b := s'.desc[b]] && s'.desc[b].page == s.desc[b].page && s'.desc[b].next == s.desc[b].next
      && (forall o: Obj {:trigger Word(s', o)} :: o.page != s.desc[b].page ==> Word(s', o) == Word(s, o))
      && DescOk(s', frees[b := f], g, b) && TasksOk(s', lists, frees[b := f]))
  }

  lemma ListsSame(s: State, lists: Lists, s': State)
    requires Shape(s) && ListsOk(s, lists) && Shape(s') && s'.head == s.head && |s'.desc| == |s.desc|
    requires forall b :: 0 <= b < |s.desc| ==> s'.desc[b].next == s.desc[b].next
    ensures ListsOk(s', lists)
  {
    hide NoDup;
  }

  lemma ListedBelow(s: State, lists: Lists, g: nat, b: nat)
    requires Shape(s) && ListsOk(s, lists) && InList(lists, g, b)
    ensures g <= DIRS && b < |s.desc|
  {
    var i :| 0 <= i < |lists[g]| && lists[g][i] == b;
    assert Linked(s.desc, s.head[g], lists[g]);
  }

  lemma OnePageEach(s: State, lists: Lists, frees: Frees, g: nat, b: nat, h: nat, c: nat)
    requires Inv(s, lists, frees) && g < DIRS && h < DIRS && InList(lists, g, b) && InList(lists, h, c) && b != c
    ensures b < |s.desc| && c < |s.desc| && s.desc[b].page != s.desc[c].page
  {
    ListedBelow(s, lists, g, b);
    ListedBelow(s, lists, h, c);
    assert HasPage(s, lists, b, s.desc[b].page) && HasPage(s, lists, c, s.desc[c].page);
  }

  lemma OneDescInv(s: State, lists: Lists, frees: Frees, s': State, g: nat, b: nat, f: seq<nat>)
    requires OneDesc(s, lists, frees, s', g, b, f)
    ensures Inv(s', lists, frees[b := f])
  {
    OneDescLists(s, lists, frees, s', g, b, f);
    OneDescAll(s, lists, frees, s', g, b, f);
    hide ListsOk, DescsOk, PagesOk, TasksOk, DescOk;
  }

  lemma OneDescLists(s: State, lists: Lists, frees: Frees, s': State, g: nat, b: nat, f: seq<nat>)
    requires OneDesc(s, lists, frees, s', g, b, f)
    ensures Shape(s') && ListsOk(s', lists) && PagesOk(s', lists)
  {
    hide DescsOk, TasksOk, DescOk;
    ListsSame(s, lists, s');
    hide ListsOk, Linked;
    OneDescPages(s, lists, s', b);
  }

  lemma OneDescAll(s: State, lists: Lists, frees: Frees, s': State, g: nat, b: nat, f: seq<nat>)
    requires OneDesc(s, lists, frees, s', g, b, f) && Shape(s') && ListsOk(s', lists)
    ensures DescsOk(s', lists, frees[b := f])
  {
    hide PagesOk, TasksOk;
    forall h: nat, c: nat | h < DIRS && InList(lists, h, c)
      ensures c < |s'.desc| && DescOk(s', frees[b := f], h, c)
    {
      OneDescEach(s, lists, frees, s', g, b, f, h, c);
    }
    hide ListsOk, DescOk;
  }

  lemma OneDescEach(s: State, lists: Lists, frees: Frees, s': State, g: nat, b: nat, f: seq<nat>, h: nat, c: nat)
    requires OneDesc(s, lists, frees, s', g, b, f) && h < DIRS && InList(lists, h, c)
    ensures c < |s'.desc| && DescOk(s', frees[b := f], h, c)
  {
    hide TasksOk;
    if c == b {
      SameList(s, lists, g, h, b);
      return;
    }
    OnePageEach(s, lists, frees, g, b, h, c);
    assert DescOk(s, frees, h, c);
    hide PagesOk, ListsOk, DescsOk, FreeList;
    DescSame(s, frees, s', frees[b := f], h, c);
  }

  lemma DescSame(s: State, frees: Frees, s': State, frees': Frees, h: nat, c: nat)
    requires h < DIRS && c < |s.desc| && c < |s'.desc| && s'.desc[c] == s.desc[c] && DescOk(s, frees, h, c)
    requires c in frees' && frees'[c] == frees[c] && s.desc[c].page in s'.pages
    requires forall o: Obj {:trigger Word(s', o)} :: o.page == s.desc[c].page ==> Word(s', o) == Word(s, o)
    ensures DescOk(s', frees', h, c)
  {
  }

  lemma SameList(s: State, lists: Lists, g: nat, h: nat, b: nat)
    requires Shape(s) && ListsOk(s, lists) && InList(lists, g, b) && InList(lists, h, b)
    ensures g == h
  {
    hide Linked;
  }

  lemma OneDescPages(s: State, lists: Lists, s': State, b: nat)
    requires Shape(s) && PagesOk(s, lists) && Shape(s') && s'.pages == s.pages && b < |s.desc| == |s'.desc|
    requires forall c :: 0 <= c < |s.desc| ==> s'.desc[c].page == s.desc[c].page
    ensures PagesOk(s', lists)
  {
    forall p: nat, c: nat
      ensures HasPage(s', lists, c, p) == HasPage(s, lists, c, p)
    {
    }
  }

  lemma FreeListTail(s: State, page: nat, freeptr: int, f: seq<nat>)
    requires FreeList(s, page, freeptr, f) && f != []
    ensures freeptr == f[0] && FreeList(s, page, Word(s, Obj(page, f[0])), f[1..]) && f[0] !in f[1..]
  {
    var t := f[1..];
    assert t != [] ==> f[1] == t[0];
    forall i, j | 0 <= i < |t| && j == i + 1 < |t|
      ensures Word(s, Obj(page, t[i])) == t[j]
    {
      assert t[i] == f[i + 1] && t[j] == f[j + 1];
    }
    assert forall k :: 0 <= k < |t| ==> t[k] == f[k + 1];
  }

  /** A task list with one entry made idle. */
  lemma TasksIdle(s: State, lists: Lists, frees: Frees, s': State, frees': Frees, t: nat)
    requires Shape(s) && Shape(s') && TasksOk(s, lists, frees) && t < |s.task| && s'.task == s.task[t := Idle]
    requires forall u :: 0 <= u < |s.task| && u != t ==> PcOk(s', lists, frees', s.task[u])
    ensures TasksOk(s', lists, frees')
  {
    assert PcOk(s', lists, frees', Idle);
    hide PcOk;
  }

  /** malloc's fast path: the object handed out was free, and now it is live; nothing else has changed. */
  lemma TakeInv(s: State, lists: Lists, frees: Frees, g: nat, b: nat)
    requires Inv(s, lists, frees) && g < DIRS && InList(lists, g, b) && b < |s.desc| && s.desc[b].freeptr != NULL
    ensures b in frees && frees[b] != [] && s.desc[b].freeptr == frees[b][0] && frees[b][0] < PerPage(g)
    ensures Inv(TakeFrom(s, b), lists, frees[b := frees[b][1..]])
  {
    assert DescOk(s, frees, g, b);
    var d, f := s.desc[b], frees[b];
    FreeListTail(s, d.page, d.freeptr, f);
    var s' := TakeFrom(s, b);
    var frees' := frees[b := f[1..]];
    forall t | 0 <= t < |s.task|
      ensures PcOk(s', lists, frees', s.task[t])
    {
      assert PcOk(s, lists, frees, s.task[t]);
    }
    assert |f[1..]| == |f| - 1 && forall i :: 0 <= i < |f[1..]| ==> f[1..][i] == f[i + 1];
    hide ListsOk, Linked, DescsOk, PagesOk, Live;
    assert DescOk(s', frees', g, b);
    assert OneDesc(s, lists, frees, s', g, b, f[1..]);
    OneDescInv(s, lists, frees, s', g, b, f[1..]);
  }

  lemma FreeListPush(s: State, page: nat, freeptr: int, f: seq<nat>, k: nat, s': State)
    requires FreeList(s, page, freeptr, f) && k !in f && s'.word == s.word[Obj(page, k) := freeptr]
    ensures FreeList(s', page, k, [k] + f)
  {
    var r := [k] + f;
    forall i, j | 0 <= i < |r| && j == i + 1 < |r|
      ensures Word(s', Obj(page, r[i])) == r[j]
    {
      if i > 0 {
        assert r[i] == f[i - 1] && r[j] == f[j - 1];
      }
    }
    assert f != [] ==> r[|r| - 1] == f[|f| - 1];
    assert forall i :: 0 <= i < |f| ==> f[i] in f;
  }

  /** The part of free_s before the test of refcnt. */
  function Give(s: State, t: nat): State
    requires Shape(s) && t < |s.task| && s.task[t].Freeing?
  {
    var pc := s.task[t];
    var d := s.desc[pc.b];
    s.(word := s.word[pc.obj := d.freeptr], task := s.task[t := Idle],
       desc := s.desc[pc.b := d.(freeptr := pc.obj.k, refcnt := if d.refcnt == 0 then 65535 else d.refcnt - 1)])
  }

  lemma GiveFacts(s: State, lists: Lists, frees: Frees, t: nat)
    requires Inv(s, lists, frees) && t < |s.task| && s.task[t].Freeing?
    ensures var pc := s.task[t];
            && InList(lists, pc.g, pc.b) && pc.b in frees && s.desc[pc.b].page == pc.obj.page
            && pc.obj.k < PerPage(pc.g) && pc.obj.k !in frees[pc.b]
            && s.desc[pc.b].refcnt > 0 && s.desc[pc.b].refcnt + |frees[pc.b]| == PerPage(pc.g)
            && FreeList(Give(s, t), pc.obj.page, pc.obj.k, [pc.obj.k] + frees[pc.b])
            && PrevOk(s, lists, pc)
  {
    var pc := s.task[t];
    assert PcOk(s, lists, frees, pc);
    assert DescOk(s, frees, pc.g, pc.b);
    FreeListPush(s, pc.obj.page, s.desc[pc.b].freeptr, frees[pc.b], pc.obj.k, Give(s, t));
  }

  /** free_s of an object that is not the last one of its page. */
  lemma GiveInv(s: State, lists: Lists, frees: Frees, t: nat)
    requires Inv(s, lists, frees) && t < |s.task| && s.task[t].Freeing? && s.desc[s.task[t].b].refcnt > 1
    ensures var pc := s.task[t]; pc.b in frees && Inv(Give(s, t), lists, frees[pc.b := [pc.obj.k] + frees[pc.b]])
  {
    GiveFacts(s, lists, frees, t);
    var pc := s.task[t];
    var s' := Give(s, t);
    var f := [pc.obj.k] + frees[pc.b];
    GiveTasks(s, lists, frees, t);
    hide ListsOk, Linked, DescsOk, PagesOk, Live, TasksOk;
    assert OneDesc(s, lists, frees, s', pc.g, pc.b, f);
    OneDescInv(s, lists, frees, s', pc.g, pc.b, f);
  }

  /** Objects being freed by others stay live. */
  lemma GiveTasks(s: State, lists: Lists, frees: Frees, t: nat)
    requires Inv(s, lists, frees) && t < |s.task| && s.task[t].Freeing? && s.task[t].b in frees
    ensures var pc := s.task[t]; TasksOk(Give(s, t), lists, frees[pc.b := [pc.obj.k] + frees[pc.b]])
  {
    var pc := s.task[t];
    var s' := Give(s, t);
    var frees' := frees[pc.b := [pc.obj.k] + frees[pc.b]];
    forall u | 0 <= u < |s.task| && u != t
      ensures PcOk(s', lists, frees', s.task[u])
    {
      assert PcOk(s, lists, frees, s.task[u]) && PcOk(s, lists, frees, pc);
      assert Different(if u < t then s.task[u] else pc, if u < t then pc else s.task[u]);
    }
    TasksIdle(s, lists, frees, s', frees', t);
  }

  // ----------------------------------------------------- the last object of a page

  function Cut(q: seq<nat>, k: nat): (r: seq<nat>)
    requires k < |q|
    ensures |r| == |q| - 1 && forall i :: 0 <= i < |r| ==> r[i] == if i < k then q[i] else q[i + 1]
  {
    q[..k] + q[k + 1..]
  }

  lemma CutHas(q: seq<nat>, k: nat)
    requires NoDup(q) && k < |q|
    ensures NoDup(Cut(q, k)) && forall x :: x in Cut(q, k) <==> x in q && x != q[k]
  {
    var r := Cut(q, k);
    forall x | x in q && x != q[k]
      ensures x in r
    {
      var i :| 0 <= i < |q| && q[i] == x;
      assert r[if i < k then i else i - 1] == x;
    }
  }

  lemma CutNext(desc: seq<Desc>, head: int, q: seq<nat>, k: nat, desc': seq<Desc>)
    requires Linked(desc, head, q) && k < |q| && |desc'| == |desc|
    requires forall c :: 0 <= c < |desc| && c != q[k] ==>
        desc'[c].next == if k > 0 && c == q[k - 1] then desc[q[k]].next else desc[c].next
    ensures desc[q[k]].next == At(q, k + 1)
    ensures forall i, j {:trigger Cut(q, k)[i], Cut(q, k)[j]} :: 0 <= i < |q| - 1 && j == i + 1 < |q| - 1 ==>
        desc'[Cut(q, k)[i]].next == Cut(q, k)[j]
  {
    var r := Cut(q, k);
    assert desc[q[k]].next == At(q, k + 1) by {
      var j := k + 1;
      assert j < |q| ==> desc[q[k]].next == q[j];
    }
    forall i, j | 0 <= i < |r| && j == i + 1 < |r|
      ensures desc'[r[i]].next == r[j]
    {
      var i0, j0 := if i < k then i else i + 1, if j < k then j else j + 1;
      assert r[i] == q[i0] && r[j] == q[j0];
      assert j0 == i0 + 1 ==> desc[q[i0]].next == q[j0];
    }
  }

  /** Taking descriptor number `k` out of a list. */
  lemma LinkedCut(desc: seq<Desc>, head: int, q: seq<nat>, k: nat, desc': seq<Desc>)
    requires Linked(desc, head, q) && k < |q| && |desc'| == |desc|
    requires forall c :: 0 <= c < |desc| && c != q[k] ==>
        desc'[c].next == if k > 0 && c == q[k - 1] then desc[q[k]].next else desc[c].next
    ensures Linked(desc', if k == 0 then desc[q[k]].next else head, Cut(q, k))
  {
    var r := Cut(q, k);
    CutHas(q, k);
    CutNext(desc, head, q, k, desc');
    if r != [] {
      var i0 := if |r| - 1 < k then |r| - 1 else |r|;
      assert r[|r| - 1] == q[i0] && q[i0] != q[k];
    }
  }

  lemma LinkedPush(desc: seq<Desc>, head: int, q: seq<nat>, b: nat, desc': seq<Desc>)
    requires Linked(desc, head, q) && b < |desc| && b !in q && |desc'| >= |desc| && desc'[b].next == head
    requires forall c :: c in q ==> 0 <= c < |desc| && desc'[c].next == desc[c].next
    ensures Linked(desc', b, [b] + q)
  {
    var r := [b] + q;
    assert forall i :: 0 <= i < |q| ==> q[i] in q;
    forall i, j | 0 <= i < |r| && j == i + 1 < |r|
      ensures desc'[r[i]].next == r[j]
    {
      if i > 0 {
        assert r[i] == q[i - 1] && r[j] == q[j - 1];
      }
    }
    assert q != [] ==> r[|r| - 1] == q[|q| - 1];
  }

  lemma LinkedSame(desc: seq<Desc>, head: int, q: seq<nat>, desc': seq<Desc>)
    requires Linked(desc, head, q) && |desc'| >= |desc|
    requires forall c :: c in q ==> 0 <= c < |desc| && desc'[c].next == desc[c].next
    ensures Linked(desc', head, q)
  {
    assert forall i :: 0 <= i < |q| ==> q[i] in q;
    hide NoDup;
  }

  /** Wherever the search left `prev`, and whatever ran since: the descriptor unlinked is the right one. */
  lemma UnlinkIsRight(s: State, lists: Lists, g: nat, b: nat, k: nat, prev: int)
    requires Shape(s) && !s.fault && ListsOk(s, lists) && g < DIRS && k < |lists[g]| && lists[g][k] == b && b < |s.desc|
        && NULL <= prev < |s.desc|
    requires prev >= 0 && !Listed(lists, prev) ==> s.desc[prev].next != b
    ensures Unlink(s, g, b, prev) ==
            if k == 0 then s.(head := s.head[g := s.desc[b].next])
            else s.(desc := s.desc[lists[g][k - 1] := s.desc[lists[g][k - 1]].(next := s.desc[b].next)])
  {
    var q := lists[g];
    assert Linked(s.desc, s.head[g], q);
    ListLength(q, |s.desc|);
    WalkPrevIs(s.desc, q, s.head[g], 0, k, |s.desc|);
    if prev != NULL && s.desc[prev].next == b {
      var h: nat :| InList(lists, h, prev);
      PrevIsRight(s, lists, g, b, k, prev, h);
    }
    hide Listed;
  }

  lemma PrevIsRight(s: State, lists: Lists, g: nat, b: nat, k: nat, prev: nat, h: nat)
    requires Shape(s) && ListsOk(s, lists) && g < DIRS && k < |lists[g]| && lists[g][k] == b && prev < |s.desc|
    requires InList(lists, h, prev) && s.desc[prev].next == b
    ensures k > 0 && prev == lists[g][k - 1]
  {
    assert Linked(s.desc, s.head[h], lists[h]) && Linked(s.desc, s.head[g], lists[g]);
    var j :| 0 <= j < |lists[h]| && lists[h][j] == prev;
    var i := j + 1;
    assert i < |lists[h]|;
    assert lists[h][i] == b;
    assert InList(lists, h, b) && InList(lists, g, b);
  }

  lemma TwoLive(f: seq<nat>, n: nat, k: nat, j: nat)
    requires NoDup(f) && (forall i :: 0 <= i < |f| ==> f[i] < n) && k < n && j < n && k != j && k !in f && j !in f
    ensures |f| + 2 <= n
  {
    assert forall i :: 0 <= i < |f| ==> f[i] in f;
    NoDupCard(f, Below(n) - {k} - {j});
    assert |Below(n) - {k} - {j}| == n - 2;
  }

  /** The lists after descriptor number `k` of chain `g` has gone to the free list. */
  function Moved(lists: Lists, g: nat, k: nat): (r: Lists)
    requires |lists| == DIRS + 1 && g < DIRS && k < |lists[g]|
    ensures |r| == DIRS + 1
  {
    lists[g := Cut(lists[g], k)][FREE := [lists[g][k]] + lists[FREE]]
  }

  ghost predicate Released(s: State, lists: Lists, g: nat, b: nat, k: nat, s': State) {
    true == (
      && Shape(s) && ListsOk(s, lists) && Shape(s') && g < DIRS && k < |lists[g]| && lists[g][k] == b
      && b < |s.desc| == |s'.desc|
      && s'.head[FREE] == b && s'.desc[b].next == s.head[FREE]
      && (forall h :: 0 <= h < DIRS ==> s'.head[h] == if h == g && k == 0 then s.desc[b].next else s.head[h])
      && (forall c :: 0 <= c < |s.desc| && c != b ==>
            s'.desc[c].next == if k > 0 && c == lists[g][k - 1] then s.desc[b].next else s.desc[c].next))
  }

  lemma ReleasedList(s: State, lists: Lists, g: nat, b: nat, k: nat, s': State, h: nat)
    requires Released(s, lists, g, b, k, s') && h <= DIRS
    ensures |lists| == DIRS + 1 && |s'.head| == DIRS + 1 && Linked(s'.desc, s'.head[h], Moved(lists, g, k)[h])
  {
    assert Linked(s.desc, s.head[h], lists[h]) && Linked(s.desc, s.head[g], lists[g]);
    assert InList(lists, g, b);
    if h == g {
      LinkedCut(s.desc, s.head[g], lists[g], k, s'.desc);
      return;
    }
    forall c | c in lists[h]
      ensures 0 <= c < |s.desc| && c != b && !(k > 0 && c == lists[g][k - 1])
    {
      assert InList(lists, h, c);
      assert k > 0 ==> InList(lists, g, lists[g][k - 1]);
    }
    if h == FREE {
      LinkedPush(s.desc, s.head[h], lists[h], b, s'.desc);
    } else {
      LinkedSame(s.desc, s.head[h], lists[h], s'.desc);
    }
  }

  lemma MovedHas(s: State, lists: Lists, g: nat, k: nat, h: nat, c: nat)
    requires Shape(s) && ListsOk(s, lists) && g < DIRS && k < |lists[g]|
    ensures InList(Moved(lists, g, k), h, c) <==> if c == lists[g][k] then h == FREE else InList(lists, h, c)
  {
    assert Linked(s.desc, s.head[g], lists[g]);
    CutHas(lists[g], k);
    assert InList(lists, g, lists[g][k]);
    hide Linked, Cut;
    if c == lists[g][k] && InList(lists, h, c) {
      assert h == g;
    }
  }

  lemma ReleasedLists(s: State, lists: Lists, g: nat, b: nat, k: nat, s': State)
    requires Released(s, lists, g, b, k, s')
    ensures Shape(s') && |lists| == DIRS + 1 && ListsOk(s', Moved(lists, g, k))
  {
    var r := Moved(lists, g, k);
    forall h | 0 <= h <= DIRS
      ensures Linked(s'.desc, s'.head[h], r[h])
    {
      ReleasedList(s, lists, g, b, k, s', h);
    }
    forall h: nat, i: nat, c: nat | InList(r, h, c) && InList(r, i, c)
      ensures h == i
    {
      MovedHas(s, lists, g, k, h, c);
      MovedHas(s, lists, g, k, i, c);
    }
    hide Linked, Moved, Released, InList;
  }

  /** The last object of the page of `b` has been freed: the page is given back and the descriptor is free. */
  ghost predicate LastFreed(s: State, lists: Lists, frees: Frees, t: nat, k: nat, s': State) {
    true == (
      && Inv(s, lists, frees) && t < |s.task| && s.task[t].Freeing? && Shape(s') && !s'.fault
      && s.desc[s.task[t].b].refcnt == 1 && k < |lists[s.task[t].g]| && lists[s.task[t].g][k] == s.task[t].b
      && Released(s, lists, s.task[t].g, s.task[t].b, k, s')
      && s'.pages == s.pages - {s.task[t].obj.page} && s'.task == s.task[t := Idle]
      && (forall c :: 0 <= c < |s.desc| && c != s.task[t].b ==> s'.desc[c] == s.desc[c].(next := s'.desc[c].next))
      && (forall o: Obj {:trigger Word(s', o)} :: o != s.task[t].obj ==> Word(s', o) == Word(s, o)))
  }

  lemma IndexIn(q: seq<nat>, b: nat) returns (k: nat)
    requires b in q
    ensures k < |q| && q[k] == b
  {
    k :| k < |q| && q[k] == b;
  }

  lemma FinishLast(s: State, lists: Lists, frees: Frees, t: nat) returns (k: nat)
    requires Inv(s, lists, frees) && t < |s.task| && s.task[t].Freeing? && s.desc[s.task[t].b].refcnt == 1
    ensures LastFreed(s, lists, frees, t, k, DoFinish(s, t))
  {
    GiveFacts(s, lists, frees, t);
    var pc := s.task[t];
    var s1 := Give(s, t);
    ListsSame(s, lists, s1);
    k := IndexIn(lists[pc.g], pc.b);
    UnlinkIsRight(s1, lists, pc.g, pc.b, k, pc.prev);
    NextPlaces(s, lists, pc.g, pc.b, k);
    hide ListsOk, DescsOk, PagesOk, TasksOk, Linked, FreeList, DescOk, Listed, Unlink;
    FinishReleased(s, lists, t, k);
  }

  lemma FinishReleased(s: State, lists: Lists, t: nat, k: nat)
    requires Shape(s) && !s.fault && ListsOk(s, lists) && t < |s.task| && s.task[t].Freeing?
        && s.desc[s.task[t].b].refcnt == 1
    requires var pc := s.task[t];
             && k < |lists[pc.g]| && lists[pc.g][k] == pc.b && s.desc[pc.b].page == pc.obj.page
             && (k > 0 ==> lists[pc.g][k - 1] != pc.b && lists[pc.g][k - 1] < |s.desc|)
             && Unlink(Give(s, t), pc.g, pc.b, pc.prev) ==
                (var s1 := Give(s, t);
                 if k == 0 then s1.(head := s1.head[pc.g := s1.desc[pc.b].next])
                 else s1.(desc := s1.desc[lists[pc.g][k - 1] :=
                     s1.desc[lists[pc.g][k - 1]].(next := s1.desc[pc.b].next)]))
    ensures var pc := s.task[t];
            var s' := DoFinish(s, t);
            && Shape(s') && !s'.fault && Released(s, lists, pc.g, pc.b, k, s')
            && s'.pages == s.pages - {pc.obj.page} && s'.task == s.task[t := Idle]
            && (forall c :: 0 <= c < |s.desc| && c != pc.b ==> s'.desc[c] == s.desc[c].(next := s'.desc[c].next))
            && (forall o: Obj {:trigger Word(s', o)} :: o != pc.obj ==> Word(s', o) == Word(s, o))
  {
    hide ListsOk;
    var pc := s.task[t];
    var s1 := Give(s, t);
    var s2 := Unlink(s1, pc.g, pc.b, pc.prev);
    assert !s2.fault;
    var s' := s2.(pages := s2.pages - {s2.desc[pc.b].page},
        desc := s2.desc[pc.b := s2.desc[pc.b].(next := s2.head[FREE])], head := s2.head[FREE := pc.b]);
    assert s1.desc[pc.b].refcnt == 0;
    assert DoFinish(s, t) == s';
    assert Shape(s');
    assert Released(s, lists, pc.g, pc.b, k, s');
  }

  lemma NextPlaces(s: State, lists: Lists, g: nat, b: nat, k: nat)
    requires Shape(s) && ListsOk(s, lists) && g < DIRS && k < |lists[g]| && lists[g][k] == b
    ensures k > 0 ==> lists[g][k - 1] != b && lists[g][k - 1] < |s.desc|
  {
    assert Linked(s.desc, s.head[g], lists[g]);
  }

  /** Nobody else is freeing an object of that page: it had only one. */
  lemma LastAlone(s: State, lists: Lists, frees: Frees, t: nat, o: Obj, h: nat)
    requires Inv(s, lists, frees) && t < |s.task| && s.task[t].Freeing? && s.desc[s.task[t].b].refcnt == 1
    requires LiveIn(s, lists, frees, o, h, s.task[t].b)
    ensures o == s.task[t].obj
  {
    var pc := s.task[t];
    GiveFacts(s, lists, frees, t);
    SameList(s, lists, pc.g, h, pc.b);
    assert DescOk(s, frees, pc.g, pc.b);
    if o != pc.obj {
      TwoLive(frees[pc.b], PerPage(pc.g), o.k, pc.obj.k);
      assert false;
    }
  }

  lemma ListedStays(s: State, lists: Lists, g: nat, k: nat, c: nat)
    requires Shape(s) && ListsOk(s, lists) && g < DIRS && k < |lists[g]|
    ensures Listed(Moved(lists, g, k), c) == Listed(lists, c)
  {
    var b := lists[g][k];
    MovedHas(s, lists, g, k, FREE, b);
    assert InList(lists, g, b) && InList(Moved(lists, g, k), FREE, b);
    forall h: nat
      ensures InList(Moved(lists, g, k), h, c) <==> if c == b then h == FREE else InList(lists, h, c)
    {
      MovedHas(s, lists, g, k, h, c);
    }
    hide InList, Moved;
  }

  lemma LastPc(s: State, lists: Lists, frees: Frees, t: nat, k: nat, s': State, u: nat)
    requires LastFreed(s, lists, frees, t, k, s') && u < |s.task| && u != t
    ensures |lists| == DIRS + 1 && PcOk(s', Moved(lists, s.task[t].g, k), frees, s.task[u])
  {
    var pc, qc := s.task[t], s.task[u];
    var lists' := Moved(lists, pc.g, k);
    assert PcOk(s, lists, frees, qc) && Different(if u < t then qc else pc, if u < t then pc else qc);
    if qc.Growing? {
      ListedStays(s, lists, pc.g, k, qc.b);
    }
    if qc.Freeing? {
      if qc.b == pc.b {
        LastAlone(s, lists, frees, t, qc.obj, qc.g);
      }
      MovedHas(s, lists, pc.g, k, qc.g, qc.b);
      if qc.prev >= 0 {
        LastPrev(s, lists, frees, t, k, s', qc);
      }
    }
  }

  lemma LastPrev(s: State, lists: Lists, frees: Frees, t: nat, k: nat, s': State, qc: Pc)
    requires LastFreed(s, lists, frees, t, k, s') && qc.Freeing? && PcShape(qc, |s.desc|) && PrevOk(s, lists, qc)
        && qc.prev >= 0
    ensures |lists| == DIRS + 1 && PrevOk(s', Moved(lists, s.task[t].g, k), qc)
  {
    var pc := s.task[t];
    ListedStays(s, lists, pc.g, k, qc.prev);
    assert InList(lists, pc.g, pc.b) && (k > 0 ==> InList(lists, pc.g, lists[pc.g][k - 1]));
    hide ListsOk, DescsOk, PagesOk, TasksOk, Moved, Inv;
    if !Listed(lists, qc.prev) {
      assert qc.prev != pc.b && !(k > 0 && qc.prev == lists[pc.g][k - 1]);
    }
  }

  lemma LastTasks(s: State, lists: Lists, frees: Frees, t: nat, k: nat, s': State)
    requires LastFreed(s, lists, frees, t, k, s')
    ensures |lists| == DIRS + 1 && TasksOk(s', Moved(lists, s.task[t].g, k), frees)
  {
    var lists' := Moved(lists, s.task[t].g, k);
    forall u | 0 <= u < |s'.task|
      ensures PcOk(s', lists', frees, s'.task[u])
    {
      if u != t {
        LastPc(s, lists, frees, t, k, s', u);
      }
    }
    hide PcOk, ListsOk, DescsOk, PagesOk, Released, Moved;
  }

  lemma LastDescs(s: State, lists: Lists, frees: Frees, t: nat, k: nat, s': State)
    requires LastFreed(s, lists, frees, t, k, s')
    requires |lists| == DIRS + 1 && ListsOk(s', Moved(lists, s.task[t].g, k))
    ensures DescsOk(s', Moved(lists, s.task[t].g, k), frees)
  {
    var pc := s.task[t];
    var lists' := Moved(lists, pc.g, k);
    forall h: nat, c: nat | h < DIRS && InList(lists', h, c)
      ensures c < |s'.desc| && DescOk(s', frees, h, c)
    {
      MovedHas(s, lists, pc.g, k, h, c);
      LastDesc(s, lists, frees, t, k, s', h, c);
    }
    hide DescOk, ListsOk, Released, Moved;
  }

  lemma LastDesc(s: State, lists: Lists, frees: Frees, t: nat, k: nat, s': State, h: nat, c: nat)
    requires LastFreed(s, lists, frees, t, k, s') && h < DIRS && InList(lists, h, c) && c != s.task[t].b
    ensures c < |s'.desc| && DescOk(s', frees, h, c)
  {
    var pc := s.task[t];
    GiveFacts(s, lists, frees, t);
    OnePageEach(s, lists, frees, pc.g, pc.b, h, c);
    assert DescOk(s, frees, h, c);
    hide ListsOk, DescsOk, PagesOk, TasksOk, Released, NoDup;
  }

  lemma LastPages(s: State, lists: Lists, frees: Frees, t: nat, k: nat, s': State)
    requires LastFreed(s, lists, frees, t, k, s') && |lists| == DIRS + 1
    ensures PagesOk(s', Moved(lists, s.task[t].g, k))
  {
    var pc := s.task[t];
    var lists' := Moved(lists, pc.g, k);
    GiveFacts(s, lists, frees, t);
    forall c: nat, p: nat
      ensures HasPage(s', lists', c, p) <==> HasPage(s, lists, c, p) && c != pc.b
    {
      forall h: nat
        ensures h < DIRS && InList(lists', h, c) <==> h < DIRS && c != pc.b && InList(lists, h, c)
      {
        MovedHas(s, lists, pc.g, k, h, c);
      }
    }
    hide ListsOk, DescsOk, TasksOk, Released, Moved, Linked;
    assert HasPage(s, lists, pc.b, pc.obj.page);
    forall p: nat | p in s'.pages
      ensures exists c: nat :: HasPage(s', lists', c, p)
    {
      var c: nat :| HasPage(s, lists, c, p);
      assert c != pc.b;
      assert HasPage(s', lists', c, p);
    }
  }

  /** free_s of the last object of a page: exactly then the page is given back, and its own descriptor is unlinked. */
  lemma LastInv(s: State, lists: Lists, frees: Frees, t: nat, k: nat, s': State)
    requires LastFreed(s, lists, frees, t, k, s')
    ensures |lists| == DIRS + 1 && Inv(s', Moved(lists, s.task[t].g, k), frees)
  {
    ReleasedLists(s, lists, s.task[t].g, s.task[t].b, k, s');
    LastTasks(s, lists, frees, t, k, s');
    LastDescs(s, lists, frees, t, k, s');
    LastPages(s, lists, frees, t, k, s');
    hide ListsOk, DescsOk, PagesOk, TasksOk, Released, Moved;
  }

  // ------------------------------------------------------------ a new page

  /** The free list of a page just threaded, after its first object has gone. */
  function Rest(n: nat): (r: seq<nat>)
    requires n > 0
    ensures |r| == n - 1 && forall i :: 0 <= i < |r| ==> r[i] == i + 1
  {
    seq(n - 1, i requires 0 <= i < n - 1 => i + 1)
  }

  /** Chain `g` has got a new first descriptor with a new page, one object of which is handed out. */
  ghost predicate PageLinked(s: State, lists: Lists, frees: Frees, t: nat, page: nat, s': State) {
    true == (
      && Inv(s, lists, frees) && t < |s.task| && s.task[t].Growing? && page !in s.pages
      && (var (g, b) := (s.task[t].g, s.task[t].b);
          && Shape(s') && !s'.fault && |s'.desc| == |s.desc| && s'.head == s.head[g := b]
          && s'.desc == s.desc[b := Desc(page, s.head[g], if PerPage(g) > 1 then 1 else NULL, 1, g)]
          && s'.pages == s.pages + {page} && s'.task == s.task[t := Idle]
          && (forall o: Obj {:trigger Word(s', o)} :: o.page != page ==> Word(s', o) == Word(s, o))
          && (forall k: nat {:trigger Obj(page, k)} :: k < PerPage(g) ==>
              Word(s', Obj(page, k)) == if k + 1 < PerPage(g) then k + 1 else NULL)))
  }

  lemma LinkPageIs(s: State, lists: Lists, frees: Frees, t: nat, page: nat)
    requires Inv(s, lists, frees) && t < |s.task| && s.task[t].Growing? && page !in s.pages
    ensures PageLinked(s, lists, frees, t, page, LinkPage(s, t, page))
  {
    hide ListsOk, DescsOk, PagesOk, TasksOk;
    var first := Obj(page, 0);
  }

  function Pushed(lists: Lists, g: nat, b: nat): (r: Lists)
    requires g < |lists|
  {
    lists[g := [b] + lists[g]]
  }

  lemma PushedHas(lists: Lists, g: nat, b: nat, h: nat, c: nat)
    requires g < |lists|
    ensures InList(Pushed(lists, g, b), h, c) <==> InList(lists, h, c) || (h == g && c == b)
  {
  }

  lemma PushedLists(s: State, lists: Lists, g: nat, b: nat, s': State)
    requires Shape(s) && ListsOk(s, lists) && Shape(s') && g <= DIRS && b < |s.desc| <= |s'.desc| && !Listed(lists, b)
    requires s'.head == s.head[g := b] && s'.desc[b].next == s.head[g]
    requires forall c :: 0 <= c < |s.desc| && c != b ==> s'.desc[c].next == s.desc[c].next
    ensures ListsOk(s', Pushed(lists, g, b))
  {
    var r := Pushed(lists, g, b);
    forall h | 0 <= h <= DIRS
      ensures Linked(s'.desc, s'.head[h], r[h])
    {
      assert Linked(s.desc, s.head[h], lists[h]);
      assert b in lists[h] ==> InList(lists, h, b);
      if h == g {
        LinkedPush(s.desc, s.head[g], lists[g], b, s'.desc);
      } else {
        LinkedSame(s.desc, s.head[h], lists[h], s'.desc);
      }
    }
    hide Linked;
    forall h: nat, i: nat, c: nat | InList(r, h, c) && InList(r, i, c)
      ensures h == i
    {
      PushedHas(lists, g, b, h, c);
      PushedHas(lists, g, b, i, c);
      assert c == b ==> !InList(lists, h, c) && !InList(lists, i, c);
    }
  }

  lemma LinkDescs(s: State, lists: Lists, frees: Frees, t: nat, page: nat, s': State)
    requires PageLinked(s, lists, frees, t, page, s') && |lists| == DIRS + 1
        && ListsOk(s', Pushed(lists, s.task[t].g, s.task[t].b))
    ensures var (g, b) := (s.task[t].g, s.task[t].b); DescsOk(s', Pushed(lists, g, b), frees[b := Rest(PerPage(g))])
  {
    var (g, b) := (s.task[t].g, s.task[t].b);
    var lists', frees' := Pushed(lists, g, b), frees[b := Rest(PerPage(g))];
    forall h: nat, c: nat | h < DIRS && InList(lists', h, c)
      ensures c < |s'.desc| && DescOk(s', frees', h, c)
    {
      PushedHas(lists, g, b, h, c);
      if c == b {
        assert PcOk(s, lists, frees, s.task[t]);
        NewDesc(s, lists, frees, t, page, s');
      } else {
        OldDesc(s, lists, frees, t, page, s', h, c);
      }
    }
    hide DescOk, ListsOk, Pushed, Rest;
  }

  lemma NewDesc(s: State, lists: Lists, frees: Frees, t: nat, page: nat, s': State)
    requires PageLinked(s, lists, frees, t, page, s')
    ensures var (g, b) := (s.task[t].g, s.task[t].b); DescOk(s', frees[b := Rest(PerPage(g))], g, b)
  {
    hide ListsOk, DescsOk, PagesOk, TasksOk;
    var (g, b) := (s.task[t].g, s.task[t].b);
    var f := Rest(PerPage(g));
    forall i, j | 0 <= i < |f| && j == i + 1 < |f|
      ensures Word(s', Obj(page, f[i])) == f[j]
    {
      var o := Obj(page, i + 1);
    }
    if f != [] {
      var o := Obj(page, PerPage(g) - 1);
      assert f[|f| - 1] == o.k;
    }
  }

  lemma OldDesc(s: State, lists: Lists, frees: Frees, t: nat, page: nat, s': State, h: nat, c: nat)
    requires PageLinked(s, lists, frees, t, page, s') && h < DIRS && InList(lists, h, c) && c != s.task[t].b
    ensures var (g, b) := (s.task[t].g, s.task[t].b); c < |s'.desc| && DescOk(s', frees[b := Rest(PerPage(g))], h, c)
  {
    ListedBelow(s, lists, h, c);
    assert DescOk(s, frees, h, c);
    hide ListsOk, DescsOk, PagesOk, TasksOk, FreeList;
    var (g, b) := (s.task[t].g, s.task[t].b);
    DescSame(s, frees, s', frees[b := Rest(PerPage(g))], h, c);
  }

  lemma LinkPages(s: State, lists: Lists, frees: Frees, t: nat, page: nat, s': State)
    requires PageLinked(s, lists, frees, t, page, s') && |lists| == DIRS + 1
    ensures PagesOk(s', Pushed(lists, s.task[t].g, s.task[t].b))
  {
    var (g, b) := (s.task[t].g, s.task[t].b);
    var lists' := Pushed(lists, g, b);
    assert PcOk(s, lists, frees, s.task[t]);
    LinkHasPage(s, lists, frees, t, page, s');
    hide ListsOk, DescsOk, TasksOk, Pushed, Listed;
    assert HasPage(s', lists', b, page);
    hide HasPage;
    forall p: nat | p in s'.pages
      ensures exists c: nat :: HasPage(s', lists', c, p)
    {
      if p != page {
        var c: nat :| HasPage(s, lists, c, p);
        assert HasPage(s', lists', c, p);
      }
    }
  }

  lemma LinkHasPage(s: State, lists: Lists, frees: Frees, t: nat, page: nat, s': State)
    requires PageLinked(s, lists, frees, t, page, s') && |lists| == DIRS + 1
    ensures var (g, b) := (s.task[t].g, s.task[t].b);
            forall c: nat, p: nat {:trigger HasPage(s', Pushed(lists, g, b), c, p)} {:trigger HasPage(s, lists, c,
                p)} ::
              HasPage(s', Pushed(lists, g, b), c, p) <==>
                  (c == b && p == page) || (HasPage(s, lists, c, p) && c != b && p != page)
  {
    var (g, b) := (s.task[t].g, s.task[t].b);
    var lists' := Pushed(lists, g, b);
    assert PcOk(s, lists, frees, s.task[t]);
    forall c: nat, p: nat
      ensures HasPage(s', lists', c, p) <==> (c == b && p == page) || (HasPage(s, lists, c, p) && c != b && p != page)
    {
      forall h: nat
        ensures h < DIRS && InList(lists', h, c) <==> h < DIRS && (InList(lists, h, c) || (h == g && c == b))
      {
        PushedHas(lists, g, b, h, c);
      }
      assert InList(lists', g, b);
      if HasPage(s, lists, c, p) {
        var h: nat :| h < DIRS && InList(lists, h, c);
        assert DescOk(s, frees, h, c);
        assert Listed(lists, c);
      }
    }
  }

  lemma LinkTasks(s: State, lists: Lists, frees: Frees, t: nat, page: nat, s': State)
    requires PageLinked(s, lists, frees, t, page, s') && |lists| == DIRS + 1
    ensures var (g, b) := (s.task[t].g, s.task[t].b); TasksOk(s', Pushed(lists, g, b), frees[b := Rest(PerPage(g))])
  {
    var (g, b) := (s.task[t].g, s.task[t].b);
    var lists', frees' := Pushed(lists, g, b), frees[b := Rest(PerPage(g))];
    forall u | 0 <= u < |s'.task|
      ensures PcOk(s', lists', frees', s'.task[u])
    {
      if u != t {
        LinkPc(s, lists, frees, t, page, s', u);
      }
    }
    hide PcOk, ListsOk, DescsOk, PagesOk, Pushed;
  }

  lemma PushedListed(lists: Lists, g: nat, b: nat, c: nat)
    requires g < |lists|
    ensures Listed(Pushed(lists, g, b), c) <==> Listed(lists, c) || c == b
  {
    assert InList(Pushed(lists, g, b), g, b);
    if h: nat :| InList(lists, h, c) {
      PushedHas(lists, g, b, h, c);
    }
    if h: nat :| InList(Pushed(lists, g, b), h, c) {
      PushedHas(lists, g, b, h, c);
    }
  }

  lemma LinkPc(s: State, lists: Lists, frees: Frees, t: nat, page: nat, s': State, u: nat)
    requires PageLinked(s, lists, frees, t, page, s') && |lists| == DIRS + 1 && u < |s.task| && u != t
    ensures var (g, b) := (s.task[t].g, s.task[t].b); PcOk(s', Pushed(lists, g, b), frees[b := Rest(PerPage(g))],
        s.task[u])
  {
    var (g, b) := (s.task[t].g, s.task[t].b);
    var pc, qc := s.task[t], s.task[u];
    assert PcOk(s, lists, frees, qc) && PcOk(s, lists, frees, pc)
        && Different(if u < t then qc else pc, if u < t then pc else qc);
    if qc.Growing? {
      PushedListed(lists, g, b, qc.b);
    }
    if qc.Freeing? {
      assert InList(lists, qc.g, qc.b) && Listed(lists, qc.b);
      PushedHas(lists, g, b, qc.g, qc.b);
      if qc.prev >= 0 {
        PushedListed(lists, g, b, qc.prev);
      }
    }
  }

  /** malloc of a new page: its first object is live, the others are free. */
  lemma LinkInv(s: State, lists: Lists, frees: Frees, t: nat, page: nat)
    requires Inv(s, lists, frees) && t < |s.task| && s.task[t].Growing? && page !in s.pages
    ensures var (g, b) := (s.task[t].g, s.task[t].b);
            g < |lists| && Inv(LinkPage(s, t, page), Pushed(lists, g, b), frees[b := Rest(PerPage(g))])
  {
    var (g, b) := (s.task[t].g, s.task[t].b);
    var s' := LinkPage(s, t, page);
    LinkPageIs(s, lists, frees, t, page);
    assert PcOk(s, lists, frees, s.task[t]);
    PushedLists(s, lists, g, b, s');
    LinkDescs(s, lists, frees, t, page, s');
    LinkPages(s, lists, frees, t, page, s');
    LinkTasks(s, lists, frees, t, page, s');
    hide ListsOk, DescsOk, PagesOk, TasksOk, Pushed, LinkPage, PcOk;
  }

  // ------------------------------------------------- descriptors for new pages

  function Numbers(lo: nat, n: nat): (r: seq<nat>)
    ensures |r| == n && forall i :: 0 <= i < n ==> r[i] == lo + i
  {
    seq(n, i requires 0 <= i < n => lo + i)
  }

  /** The lists after init_bucket_desc. */
  function Grown(lists: Lists, n: nat): (r: Lists)
    requires |lists| == DIRS + 1
  {
    lists[FREE := Numbers(n, DESCS_PER_PAGE) + lists[FREE]]
  }

  lemma GrownHas(lists: Lists, n: nat, h: nat, c: nat)
    requires |lists| == DIRS + 1
    ensures InList(Grown(lists, n), h, c) <==> InList(lists, h, c) || (h == FREE && n <= c < n + DESCS_PER_PAGE)
  {
    var made := Numbers(n, DESCS_PER_PAGE);
    assert n <= c < n + DESCS_PER_PAGE ==> made[c - n] == c;
  }

  lemma GrownFree(s: State, lists: Lists)
    requires Shape(s) && ListsOk(s, lists)
    ensures var s' := MoreDescs(s); Linked(s'.desc, s'.head[FREE], Grown(lists, |s.desc|)[FREE])
  {
    var s', n := MoreDescs(s), |s.desc|;
    var q := Grown(lists, n)[FREE];
    var was := lists[FREE];
    assert Linked(s.desc, s.head[FREE], was);
    assert forall i :: 0 <= i < |q| ==> q[i] == if i < DESCS_PER_PAGE then n + i else was[i - DESCS_PER_PAGE];
    forall i, j | 0 <= i < |q| && j == i + 1 < |q|
      ensures s'.desc[q[i]].next == q[j]
    {
      if i >= DESCS_PER_PAGE {
        var i0, j0 := i - DESCS_PER_PAGE, j - DESCS_PER_PAGE;
        assert s.desc[was[i0]].next == was[j0];
      }
    }
  }

  lemma GrownLists(s: State, lists: Lists)
    requires Shape(s) && ListsOk(s, lists)
    ensures Shape(MoreDescs(s)) && ListsOk(MoreDescs(s), Grown(lists, |s.desc|))
  {
    var s', n := MoreDescs(s), |s.desc|;
    var r := Grown(lists, n);
    assert forall t :: 0 <= t < |s.task| ==> PcShape(s.task[t], |s.desc|);
    forall h | 0 <= h <= DIRS
      ensures Linked(s'.desc, s'.head[h], r[h])
    {
      if h == FREE {
        GrownFree(s, lists);
      } else {
        assert Linked(s.desc, s.head[h], lists[h]);
        LinkedSame(s.desc, s.head[h], lists[h], s'.desc);
      }
    }
    hide Linked;
    forall h: nat, i: nat, c: nat | InList(r, h, c) && InList(r, i, c)
      ensures h == i
    {
      GrownHas(lists, n, h, c);
      GrownHas(lists, n, i, c);
      if InList(lists, h, c) {
        ListedBelow(s, lists, h, c);
      }
      if InList(lists, i, c) {
        ListedBelow(s, lists, i, c);
      }
    }
  }

  /** The same chains with the same objects; only descriptors that are in no chain have moved. */
  ghost predicate SameChains(s: State, lists: Lists, frees: Frees, s': State, lists': Lists) {
    true == (
      && Inv(s, lists, frees) && Shape(s') && !s'.fault && ListsOk(s', lists') && s'.word == s.word
      && s'.pages == s.pages && |s'.desc| >= |s.desc|
      && (forall h: nat, c: nat {:trigger InList(lists', h, c)} {:trigger InList(lists, h, c)} :: h < DIRS ==>
          (InList(lists', h, c) <==> InList(lists, h, c)))
      && (forall h: nat, c: nat {:trigger InList(lists, h, c)} :: h < DIRS && InList(lists, h, c) ==>
          s'.desc[c] == s.desc[c])
      && TasksOk(s', lists', frees))
  }

  lemma SameChainsInv(s: State, lists: Lists, frees: Frees, s': State, lists': Lists)
    requires SameChains(s, lists, frees, s', lists')
    ensures Inv(s', lists', frees)
  {
    SameChainsDescs(s, lists, frees, s', lists');
    SameChainsPages(s, lists, frees, s', lists');
    hide ListsOk, DescsOk, PagesOk, TasksOk;
  }

  lemma SameChainsDescs(s: State, lists: Lists, frees: Frees, s': State, lists': Lists)
    requires SameChains(s, lists, frees, s', lists')
    ensures Shape(s') && ListsOk(s', lists') && DescsOk(s', lists', frees)
  {
    hide PagesOk, TasksOk, NoDup;
    forall h: nat, c: nat | h < DIRS && InList(lists', h, c)
      ensures c < |s'.desc| && DescOk(s', frees, h, c)
    {
      assert InList(lists, h, c) && DescOk(s, frees, h, c);
    }
    hide DescOk, ListsOk;
  }

  lemma SameChainsPages(s: State, lists: Lists, frees: Frees, s': State, lists': Lists)
    requires SameChains(s, lists, frees, s', lists')
    ensures Shape(s') && PagesOk(s', lists')
  {
    hide TasksOk, DescOk, Linked;
    forall c: nat, p: nat
      ensures HasPage(s', lists', c, p) <==> HasPage(s, lists, c, p)
    {
      if h: nat :| h < DIRS && InList(lists', h, c) {
        assert InList(lists, h, c);
        ListedBelow(s, lists, h, c);
      }
      if h: nat :| h < DIRS && InList(lists, h, c) {
        assert InList(lists', h, c);
      }
    }
    hide HasPage, ListsOk;
  }

  lemma MoreDescsInv(s: State, lists: Lists, frees: Frees)
    requires Inv(s, lists, frees)
    ensures |lists| == DIRS + 1 && Inv(MoreDescs(s), Grown(lists, |s.desc|), frees) && MoreDescs(s).head[FREE] != NULL
  {
    var s', lists' := MoreDescs(s), Grown(lists, |s.desc|);
    GrownLists(s, lists);
    forall h: nat, c: nat
      ensures InList(lists', h, c) <==> InList(lists, h, c) || (h == FREE && |s.desc| <= c < |s.desc| + DESCS_PER_PAGE)
    {
      GrownHas(lists, |s.desc|, h, c);
    }
    forall t | 0 <= t < |s.task|
      ensures PcOk(s', lists', frees, s.task[t])
    {
      assert PcOk(s, lists, frees, s.task[t]) && PcShape(s.task[t], |s.desc|);
      if s.task[t].Growing? {
        GrownListed(s, lists, s.task[t].b);
      } else if s.task[t].Freeing? && s.task[t].prev >= 0 {
        GrownListed(s, lists, s.task[t].prev);
      }
    }
    forall h: nat, c: nat | h < DIRS && InList(lists, h, c)
      ensures s'.desc[c] == s.desc[c]
    {
      ListedBelow(s, lists, h, c);
    }
    hide ListsOk, DescsOk, PagesOk, PcOk, Linked, Grown;
    SameChainsInv(s, lists, frees, s', lists');
  }

  lemma GrownListed(s: State, lists: Lists, c: nat)
    requires |lists| == DIRS + 1 && c < |s.desc|
    ensures Listed(Grown(lists, |s.desc|), c) <==> Listed(lists, c)
  {
    forall h: nat
      ensures InList(Grown(lists, |s.desc|), h, c) <==> InList(lists, h, c)
    {
      GrownHas(lists, |s.desc|, h, c);
    }
  }

  lemma PopLists(s: State, lists: Lists, t: nat, g: nat)
    requires Shape(s) && ListsOk(s, lists) && t < |s.task| && s.head[FREE] != NULL && g < DIRS
    ensures lists[FREE] != [] && lists[FREE][0] == s.head[FREE]
    ensures Shape(Pop(s, t, g)) && ListsOk(Pop(s, t, g), lists[FREE := Cut(lists[FREE], 0)])
    ensures forall h: nat, c: nat {:trigger InList(lists[FREE := Cut(lists[FREE], 0)], h, c)} ::
              InList(lists[FREE := Cut(lists[FREE], 0)], h, c) <==> InList(lists, h, c) && c != s.head[FREE]
  {
    hide Linked;
    var q := PopFirst(s, lists);
    var s', r := Pop(s, t, g), lists[FREE := Cut(q, 0)];
    PopHas(s, lists);
    assert forall u :: 0 <= u < |s.task| ==> PcShape(s.task[u], |s.desc|);
    forall h | 0 <= h <= DIRS
      ensures Linked(s'.desc, s'.head[h], r[h])
    {
      PopLinked(s, lists, t, g, h);
    }
  }

  lemma PopFirst(s: State, lists: Lists) returns (q: seq<nat>)
    requires Shape(s) && ListsOk(s, lists) && s.head[FREE] != NULL
    ensures q == lists[FREE] && q != [] && q[0] == s.head[FREE] && InList(lists, FREE, q[0])
  {
    q := lists[FREE];
    assert Linked(s.desc, s.head[FREE], q);
  }

  lemma PopHas(s: State, lists: Lists)
    requires Shape(s) && ListsOk(s, lists) && s.head[FREE] != NULL && lists[FREE] != []
        && lists[FREE][0] == s.head[FREE]
    ensures forall h: nat, c: nat {:trigger InList(lists[FREE := Cut(lists[FREE], 0)], h, c)} ::
              InList(lists[FREE := Cut(lists[FREE], 0)], h, c) <==> InList(lists, h, c) && c != s.head[FREE]
  {
    var q := lists[FREE];
    assert Linked(s.desc, s.head[FREE], q);
    CutHas(q, 0);
    assert InList(lists, FREE, q[0]);
    forall h: nat, c: nat
      ensures InList(lists[FREE := Cut(q, 0)], h, c) <==> InList(lists, h, c) && c != q[0]
    {
      if c == q[0] && InList(lists, h, c) {
        SameList(s, lists, FREE, h, c);
      }
    }
  }

  lemma PopLinked(s: State, lists: Lists, t: nat, g: nat, h: nat)
    requires Shape(s) && ListsOk(s, lists) && t < |s.task| && s.head[FREE] != NULL && g < DIRS && h <= DIRS
    requires lists[FREE] != [] && lists[FREE][0] == s.head[FREE]
    ensures Linked(Pop(s, t, g).desc, Pop(s, t, g).head[h], lists[FREE := Cut(lists[FREE], 0)][h])
  {
    var s', q := Pop(s, t, g), lists[FREE];
    assert Linked(s.desc, s.head[h], lists[h]) && Linked(s.desc, s.head[FREE], q);
    if h == FREE {
      LinkedCut(s.desc, s.head[h], q, 0, s'.desc);
    } else {
      LinkedSame(s.desc, s.head[h], lists[h], s'.desc);
    }
  }

  lemma PopInv(s: State, lists: Lists, frees: Frees, t: nat, g: nat)
    requires Inv(s, lists, frees) && t < |s.task| && (s.task[t].Idle? || s.task[t].Wanting?) && s.head[FREE] != NULL
        && g < DIRS
    ensures |lists| == DIRS + 1 && lists[FREE] != [] && Inv(Pop(s, t, g), lists[FREE := Cut(lists[FREE], 0)], frees)
  {
    var s', lists' := Pop(s, t, g), lists[FREE := Cut(lists[FREE], 0)];
    PopLists(s, lists, t, g);
    var d := lists[FREE][0];
    assert InList(lists, FREE, d);
    forall u | 0 <= u < |s.task|
      ensures PcOk(s', lists', frees, s'.task[u])
    {
      if u != t {
        PopPc(s, lists, frees, t, g, u);
      }
    }
    PopDifferent(s, lists, frees, t, g);
    assert TasksOk(s', lists', frees);
    hide ListsOk, DescsOk, PagesOk, PcOk, Linked, TasksOk;
    SameChainsInv(s, lists, frees, s', lists');
  }

  lemma PopPc(s: State, lists: Lists, frees: Frees, t: nat, g: nat, u: nat)
    requires Inv(s, lists, frees) && t < |s.task| && (s.task[t].Idle? || s.task[t].Wanting?) && s.head[FREE] != NULL
        && g < DIRS && u < |s.task| && u != t
    ensures |lists| == DIRS + 1 && lists[FREE] != [] && PcOk(Pop(s, t, g), lists[FREE := Cut(lists[FREE], 0)], frees,
        s.task[u])
  {
    PopLists(s, lists, t, g);
    var d := lists[FREE][0];
    var qc := s.task[u];
    assert InList(lists, FREE, d) && PcOk(s, lists, frees, qc) && PcShape(qc, |s.desc|);
    if qc.Freeing? {
      assert InList(lists, qc.g, qc.b);
      SameListNot(s, lists, qc.g, qc.b, d);
      FreeNext(s, lists, qc.g, qc.b);
      if qc.prev >= 0 {
        PopListed(s, lists, qc.prev);
      }
    }
    if qc.Growing? {
      PopListed(s, lists, qc.b);
    }
    hide ListsOk, DescsOk, PagesOk, Linked;
  }

  lemma PopListed(s: State, lists: Lists, c: nat)
    requires Shape(s) && ListsOk(s, lists) && s.head[FREE] != NULL
    ensures lists[FREE] != [] && (Listed(lists[FREE := Cut(lists[FREE], 0)], c) <==>
        Listed(lists, c) && c != s.head[FREE])
  {
    var q := lists[FREE];
    assert Linked(s.desc, s.head[FREE], q);
    var r := lists[FREE := Cut(q, 0)];
    CutHas(q, 0);
    assert InList(lists, FREE, q[0]);
    hide Linked, Cut;
    if h: nat :| InList(r, h, c) {
      assert InList(lists, h, c);
      if c == q[0] {
        SameList(s, lists, FREE, h, c);
      }
    }
    if h: nat :| InList(lists, h, c) && c != q[0] {
      assert InList(r, h, c);
    }
  }

  /** A descriptor of a chain is not the first free one, and not the one after it. */
  lemma SameListNot(s: State, lists: Lists, g: nat, b: nat, d: nat)
    requires Shape(s) && ListsOk(s, lists) && g < DIRS && InList(lists, g, b) && InList(lists, FREE, d)
    ensures b != d
  {
    hide Linked;
  }

  lemma FreeNext(s: State, lists: Lists, g: nat, b: nat)
    requires Shape(s) && ListsOk(s, lists) && g < DIRS && InList(lists, g, b) && s.head[FREE] != NULL
    ensures s.desc[s.head[FREE]].next != b
  {
    var q := lists[FREE];
    assert Linked(s.desc, s.head[FREE], q);
    if |q| > 1 {
      var i, j := 0, 1;
      assert s.desc[q[i]].next == q[j];
      assert InList(lists, FREE, q[j]);
    }
  }

  lemma PopDifferent(s: State, lists: Lists, frees: Frees, t: nat, g: nat)
    requires Inv(s, lists, frees) && t < |s.task| && (s.task[t].Idle? || s.task[t].Wanting?) && s.head[FREE] != NULL
        && g < DIRS
    ensures forall u, v :: 0 <= u < v < |s.task| ==> Different(Pop(s, t, g).task[u], Pop(s, t, g).task[v])
  {
    PopLists(s, lists, t, g);
    assert InList(lists, FREE, s.head[FREE]);
    forall u | 0 <= u < |s.task| && s.task[u].Growing?
      ensures s.task[u].b != s.head[FREE]
    {
      assert PcOk(s, lists, frees, s.task[u]);
    }
    hide ListsOk, DescsOk, PagesOk, PcOk;
  }
}

/**
 Any run of mallocs and frees, split wherever an interrupt or a wait for a page can split
 them, seen from the outside: a set of live objects.
*/
module BucketRuns {
  import opened Buckets

  // --------------------------------------------------------------- the search

  lemma NoSuchPage(s: State, lists: Lists, frees: Frees, o: Obj, h: nat, b: nat, g: nat)
    requires Inv(s, lists, frees) && LiveIn(s, lists, frees, o, h, b) && g < DIRS && g != h
    ensures WalkPage(s.desc, s.head[g], NULL, o.page, |s.desc|).0 == NULL
  {
    var q := lists[g];
    assert Linked(s.desc, s.head[g], q);
    ListLength(q, |s.desc|);
    WalkPageIs(s.desc, q, s.head[g], 0, o.page, |s.desc|);
    var r := WalkPage(s.desc, s.head[g], NULL, o.page, |s.desc|).0;
    if r != NULL {
      var j :| 0 <= j < |q| && q[j] == r && s.desc[q[j]].page == o.page;
      assert InList(lists, g, q[j]);
      if q[j] == b {
        SameList(s, lists, g, h, b);
      } else {
        OnePageEach(s, lists, frees, h, b, g, q[j]);
      }
    }
  }

  lemma SuchPage(s: State, lists: Lists, frees: Frees, o: Obj, h: nat, b: nat)
    requires Inv(s, lists, frees) && LiveIn(s, lists, frees, o, h, b)
    ensures var (r, prev) := WalkPage(s.desc, s.head[h], NULL, o.page, |s.desc|);
            r == b && (prev == NULL || (prev >= 0 && InList(lists, h, prev)))
  {
    var q := lists[h];
    assert Linked(s.desc, s.head[h], q);
    ListLength(q, |s.desc|);
    WalkPageIs(s.desc, q, s.head[h], 0, o.page, |s.desc|);
    var k := IndexIn(q, b);
    var (r, prev) := WalkPage(s.desc, s.head[h], NULL, o.page, |s.desc|);
    var j :| 0 <= j < |q| && q[j] == r && s.desc[q[j]].page == o.page && prev == At(q, j - 1);
    assert InList(lists, h, q[j]);
    if q[j] != b {
      OnePageEach(s, lists, frees, h, b, h, q[j]);
    }
  }

  lemma SizesGrow(g: nat, h: nat)
    requires g < h < DIRS
    ensures SizeOf(g) < SizeOf(h)
  {
  }

  /** The search finds the descriptor of a live object exactly if the size given is not larger than its bucket. */
  lemma {:induction false} SearchFinds(s: State, lists: Lists, frees: Frees, o: Obj, size: nat, h: nat, b: nat, g: nat)
    requires Inv(s, lists, frees) && LiveIn(s, lists, frees, o, h, b) && g <= DIRS && (g <= h || size > SizeOf(h))
    ensures var r := SearchDirs(s, o.page, size, g);
            if size <= SizeOf(h) then r.Place? && r.g == h && r.b == b
                && (r.prev == NULL || (r.prev >= 0 && Listed(lists, r.prev)))
            else r.Nowhere?
    decreases DIRS - g
  {
    hide ListsOk, DescsOk, PagesOk, TasksOk, WalkPage;
    if g == DIRS {
      return;
    }
    if g == h {
      SuchPage(s, lists, frees, o, h, b);
    } else {
      NoSuchPage(s, lists, frees, o, h, b, g);
    }
    if !(g == h && size <= SizeOf(h)) {
      if g < h {
        SizesGrow(g, h);
      }
      SearchFinds(s, lists, frees, o, size, h, b, g + 1);
    }
  }

  // --------------------------------------------------------------------- steps

  /** `live` is what the callers hold. */
  ghost predicate Spec(s: State, live: set<Obj>) {
    exists lists: Lists, frees: Frees :: SpecBy(s, live, lists, frees)
  }

  ghost predicate SpecBy(s: State, live: set<Obj>, lists: Lists, frees: Frees) {
    Inv(s, lists, frees) && forall o: Obj {:trigger o in live} :: o in live <==> Live(s, lists, frees, o)
  }

  /** Callers free what they hold, once, and store only in what they hold; a page for the allocator is one it has not
      got. */
  ghost predicate Enabled(s: State, live: set<Obj>, step: Step) {
    && Shape(s) && !s.fault
    && match step
       case Malloc(t, len) => t < |s.task| && s.task[t].Idle? && len <= PAGE_SIZE
       case Describe(t) => t < |s.task| && s.task[t].Wanting?
       case Link(t, page) => t < |s.task| && s.task[t].Growing? && page !in s.pages
       case Search(t, o, _) => t < |s.task| && s.task[t].Idle? && o in live && forall u ::
           0 <= u < |s.task| && s.task[u].Freeing? ==> s.task[u].obj != o
       case Finish(t) => t < |s.task| && s.task[t].Freeing?
       case Store(o, _) => o in live
  }

  function DoSearch(s: State, t: nat, o: Obj, size: nat): State
    requires Shape(s) && t < |s.task|
  {
    var r := SearchDirs(s, o.page, size, 0);
    if r.Nowhere? then s.(fault := true) else s.(task := s.task[t := Freeing(o, r.g, r.b, r.prev)])
  }

  lemma MoreShape(s: State)
    requires Shape(s)
    ensures Shape(MoreDescs(s))
  {
    assert forall t :: 0 <= t < |s.task| ==> PcShape(s.task[t], |s.desc|);
  }

  ghost function Next(s: State, live: set<Obj>, step: Step): State
    requires Enabled(s, live, step)
  {
    match step
    case Malloc(t, len) => DoMalloc(s, t, len)
    case Describe(t) =>
      MoreShape(s);
      DoDescribe(s, t)
    case Link(t, page) => LinkPage(s, t, page)
    case Search(t, o, size) => DoSearch(s, t, o, size)
    case Finish(t) => DoFinish(s, t)
    case Store(o, v) => s.(word := s.word[o := v])
  }

  /** The object a step hands out, if it hands out one. */
  ghost function Handed(s: State, live: set<Obj>, step: Step): set<Obj>
    requires Enabled(s, live, step)
  {
    match step
    case Malloc(_, len) =>
      var g := DirFor(len, 0);
      if g == DIRS then {}
      else
        var b := WalkFree(s.desc, s.head[g], |s.desc|);
        if b == NULL then {} else {Obj(s.desc[b].page, if s.desc[b].freeptr < 0 then 0 else s.desc[b].freeptr)}
    case Link(_, page) => {Obj(page, 0)}
    case _ => {}
  }

  ghost function NextLive(s: State, live: set<Obj>, step: Step): set<Obj>
    requires Enabled(s, live, step)
  {
    if step.Finish? then live - {s.task[step.t].obj} else live + Handed(s, live, step)
  }

  /** The live objects are the same after a change of lists, if each chain is the same and so are its descriptors' pages
      and free objects. */
  lemma SameLive(s: State, lists: Lists, s': State, lists': Lists, frees: Frees, o: Obj)
    requires Shape(s) && Shape(s') && ListsOk(s, lists) && ListsOk(s', lists')
    requires forall h: nat, c: nat {:trigger InList(lists', h, c)} {:trigger InList(lists, h, c)} :: h < DIRS ==>
        (InList(lists', h, c) <==> InList(lists, h, c))
    requires forall h: nat, c: nat {:trigger InList(lists, h, c)} :: h < DIRS && InList(lists, h, c) ==>
        c < |s.desc| && c < |s'.desc| && s'.desc[c].page == s.desc[c].page
    ensures Live(s', lists', frees, o) <==> Live(s, lists, frees, o)
  {
    hide ListsOk;
    if g: nat, b: nat :| LiveIn(s, lists, frees, o, g, b) {
      assert LiveIn(s', lists', frees, o, g, b);
    }
    if g: nat, b: nat :| LiveIn(s', lists', frees, o, g, b) {
      assert InList(lists, g, b);
      assert LiveIn(s, lists, frees, o, g, b);
    }
  }

  /** One descriptor's free objects change from `frees[b]` to `f`. */
  lemma FreesLive(s: State, lists: Lists, frees: Frees, s': State, g: nat, b: nat, f: seq<nat>, o: Obj)
    requires Inv(s, lists, frees) && Shape(s') && g < DIRS && InList(lists, g, b) && b < |s.desc| == |s'.desc|
        && b in frees
    requires forall c :: 0 <= c < |s.desc| ==> s'.desc[c].page == s.desc[c].page
    ensures Live(s', lists, frees[b := f], o) <==>
            if o.page == s.desc[b].page then o.k < PerPage(g) && o.k !in f else Live(s, lists, frees, o)
  {
    var frees' := frees[b := f];
    if h: nat, c: nat :| LiveIn(s', lists, frees', o, h, c) {
      if c == b {
        SameList(s, lists, g, h, b);
      } else {
        OnePageEach(s, lists, frees, g, b, if h < DIRS then h else 0, c);
        assert LiveIn(s, lists, frees, o, h, c);
      }
    }
    if o.page == s.desc[b].page && o.k < PerPage(g) && o.k !in f {
      assert LiveIn(s', lists, frees', o, g, b);
    }
    if h: nat, c: nat :| LiveIn(s, lists, frees, o, h, c) && o.page != s.desc[b].page {
      assert LiveIn(s', lists, frees', o, h, c);
    }
  }

  /** On the page of a chained descriptor, live means not free. */
  lemma LiveOnPage(s: State, lists: Lists, frees: Frees, g: nat, b: nat, o: Obj)
    requires Inv(s, lists, frees) && g < DIRS && InList(lists, g, b) && b < |s.desc| && s.desc[b].page == o.page
    ensures b in frees && (Live(s, lists, frees, o) <==> o.k < PerPage(g) && o.k !in frees[b])
  {
    assert DescOk(s, frees, g, b);
    FreesLive(s, lists, frees, s, g, b, frees[b], o);
    assert frees[b := frees[b]] == frees;
  }

  // ------------------------------------------------------ step by step, with lists

  /** A descriptor chained after a step was in that chain before, with its page, or its page is new. */
  ghost predicate Back(s: State, lists: Lists, s': State, lists': Lists) {
    true == (
      forall h: nat, c: nat {:trigger InList(lists', h, c)} :: h < DIRS && InList(lists', h, c) && c < |s'.desc| ==>
        || (InList(lists, h, c) && c < |s.desc| && s'.desc[c].page == s.desc[c].page)
        || s'.desc[c].page !in s.pages)
  }

  /** The chain whose object a step hands out. */
  function ChainFor(s: State, step: Step): nat {
    match step
    case Malloc(_, len) => DirFor(len, 0)
    case Link(t, _) => if t < |s.task| && s.task[t].Growing? then s.task[t].g else 0
    case _ => 0
  }

  /** The step keeps the invariant, changes the live objects as callers see it, hands out nothing that was live and
      what it hands out from the right chain, and moves no page to another chain. */
  ghost predicate StepBy(s: State, live: set<Obj>, step: Step, lists: Lists, lists': Lists, frees': Frees) {
    true == (
      && Enabled(s, live, step)
      && SpecBy(Next(s, live, step), NextLive(s, live, step), lists', frees')
      && Handed(s, live, step) !! live
      && Back(s, lists, Next(s, live, step), lists')
      && (forall o {:trigger o in Handed(s, live, step)} :: o in Handed(s, live, step) ==>
            exists b: nat :: LiveIn(Next(s, live, step), lists', frees', o, ChainFor(s, step), b)))
  }

  /** Chains and pages are the same. */
  lemma BackSame(s: State, lists: Lists, frees: Frees, s': State)
    requires Inv(s, lists, frees) && |s.desc| <= |s'.desc|
    requires forall c :: 0 <= c < |s.desc| ==> s'.desc[c].page == s.desc[c].page
    ensures Back(s, lists, s', lists)
  {
    forall h: nat, c: nat | h < DIRS && InList(lists, h, c)
      ensures c < |s.desc|
    {
      ListedBelow(s, lists, h, c);
    }
  }

  lemma BackTwice(s: State, lists: Lists, q: State, listsQ: Lists, r: State, listsR: Lists)
    requires Back(s, lists, q, listsQ) && Back(q, listsQ, r, listsR) && q.pages == s.pages
    ensures Back(s, lists, r, listsR)
  {
    forall h: nat, c: nat | h < DIRS && InList(listsR, h, c) && c < |r.desc|
      ensures (InList(lists, h, c) && c < |s.desc| && r.desc[c].page == s.desc[c].page) || r.desc[c].page !in s.pages
    {
      var x := InList(listsQ, h, c);
    }
  }

  lemma MallocStep(s: State, live: set<Obj>, lists: Lists, frees: Frees, step: Step) returns (lists': Lists,
      frees': Frees)
    requires SpecBy(s, live, lists, frees) && Enabled(s, live, step) && step.Malloc?
    ensures StepBy(s, live, step, lists, lists', frees')
  {
    var g := DirFor(step.len, 0);
    assert SizeOf(8) == PAGE_SIZE;
    var q := lists[g];
    assert Linked(s.desc, s.head[g], q);
    ListLength(q, |s.desc|);
    WalkFreeIs(s.desc, q, s.head[g], 0, |s.desc|);
    var b := WalkFree(s.desc, s.head[g], |s.desc|);
    if b != NULL {
      assert InList(lists, g, b);
      lists', frees' := FastStep(s, live, lists, frees, step, g, b);
    } else {
      lists', frees' := SlowStep(s, live, lists, frees, step, g);
    }
  }

  lemma FastStep(s: State, live: set<Obj>, lists: Lists, frees: Frees, step: Step, g: nat,
      b: nat) returns (lists': Lists, frees': Frees)
    requires SpecBy(s, live, lists, frees) && Enabled(s, live, step) && step.Malloc? && g == DirFor(step.len, 0) < DIRS
    requires b == WalkFree(s.desc, s.head[g], |s.desc|) && InList(lists, g, b) && b < |s.desc|
        && s.desc[b].freeptr != NULL
    ensures StepBy(s, live, step, lists, lists', frees')
  {
    hide SpecBy, WalkFree, TakeFrom, Live, DirFor, ListsOk, DescsOk, PagesOk, TasksOk;
    TakeSpec(s, live, lists, frees, g, b);
    TakeBack(s, live, lists, frees, g, b);
    lists', frees' := lists, frees[b := frees[b][1..]];
    assert Next(s, live, step) == TakeFrom(s, b);
    assert Handed(s, live, step) == {Obj(s.desc[b].page, frees[b][0])};
    assert LiveIn(TakeFrom(s, b), lists', frees', Obj(s.desc[b].page, frees[b][0]), ChainFor(s, step), b);
  }

  lemma TakeBack(s: State, live: set<Obj>, lists: Lists, frees: Frees, g: nat, b: nat)
    requires SpecBy(s, live, lists, frees) && g < DIRS && InList(lists, g, b) && b < |s.desc|
        && s.desc[b].freeptr != NULL && b in frees && frees[b] != []
    ensures Back(s, lists, TakeFrom(s, b), lists) && Shape(TakeFrom(s, b))
    ensures LiveIn(TakeFrom(s, b), lists, frees[b := frees[b][1..]], Obj(s.desc[b].page, frees[b][0]), g, b)
  {
    hide ListsOk, DescsOk, PagesOk, TasksOk, DescOk, FreeList;
    TakeInv(s, lists, frees, g, b);
    BackSame(s, lists, frees, TakeFrom(s, b));
    TakeFree(s, lists, frees, g, b, frees[b][0]);
    FreeInRange(s, lists, frees, g, b);
  }

  lemma FreeInRange(s: State, lists: Lists, frees: Frees, g: nat, b: nat)
    requires Inv(s, lists, frees) && g < DIRS && InList(lists, g, b) && b < |s.desc| && b in frees && frees[b] != []
    ensures frees[b][0] < PerPage(g)
  {
    assert DescOk(s, frees, g, b);
  }

  lemma TakeSpec(s: State, live: set<Obj>, lists: Lists, frees: Frees, g: nat, b: nat)
    requires SpecBy(s, live, lists, frees) && g < DIRS && InList(lists, g, b) && b < |s.desc|
        && s.desc[b].freeptr != NULL
    ensures b in frees && frees[b] != [] && s.desc[b].freeptr == frees[b][0]
        && Obj(s.desc[b].page, frees[b][0]) !in live
    ensures SpecBy(TakeFrom(s, b), live + {Obj(s.desc[b].page, frees[b][0])}, lists, frees[b := frees[b][1..]])
  {
    hide ListsOk, DescsOk, PagesOk, TasksOk, Live, TakeFrom, InList;
    TakeInv(s, lists, frees, g, b);
    var o := Obj(s.desc[b].page, frees[b][0]);
    forall x: Obj
      ensures x in live + {o} <==> Live(TakeFrom(s, b), lists, frees[b := frees[b][1..]], x)
      ensures x == o ==> x !in live
    {
      TakeLive(s, lists, frees, g, b, x);
    }
  }

  lemma TakeLive(s: State, lists: Lists, frees: Frees, g: nat, b: nat, x: Obj)
    requires Inv(s, lists, frees) && g < DIRS && InList(lists, g, b) && b < |s.desc| && s.desc[b].freeptr != NULL
        && b in frees && frees[b] != []
    ensures Shape(TakeFrom(s, b)) && (x == Obj(s.desc[b].page, frees[b][0]) ==> !Live(s, lists, frees, x))
    ensures Live(TakeFrom(s, b), lists, frees[b := frees[b][1..]], x) <==>
        Live(s, lists, frees, x) || x == Obj(s.desc[b].page, frees[b][0])
  {
    hide Live, ListsOk, DescsOk, PagesOk, TasksOk, InList;
    TakeInv(s, lists, frees, g, b);
    TakeFree(s, lists, frees, g, b, x.k);
    FreesLive(s, lists, frees, TakeFrom(s, b), g, b, frees[b][1..], x);
    if x.page == s.desc[b].page {
      LiveOnPage(s, lists, frees, g, b, x);
    }
  }

  lemma TakeFree(s: State, lists: Lists, frees: Frees, g: nat, b: nat, k: nat)
    requires Inv(s, lists, frees) && g < DIRS && InList(lists, g, b) && b < |s.desc| && b in frees && frees[b] != []
    ensures k in frees[b][1..] <==> k in frees[b] && k != frees[b][0]
  {
    assert DescOk(s, frees, g, b);
    FreeListTail(s, s.desc[b].page, s.desc[b].freeptr, frees[b]);
    assert frees[b] == [frees[b][0]] + frees[b][1..];
  }

  lemma SlowStep(s: State, live: set<Obj>, lists: Lists, frees: Frees, step: Step, g: nat) returns (lists': Lists,
      frees': Frees)
    requires SpecBy(s, live, lists, frees) && Enabled(s, live, step) && step.Malloc? && g == DirFor(step.len, 0) < DIRS
    requires WalkFree(s.desc, s.head[g], |s.desc|) == NULL
    ensures StepBy(s, live, step, lists, lists', frees')
  {
    hide Live, WalkFree, Cut, ListsOk, DescsOk, PagesOk, TasksOk, DirFor;
    assert Handed(s, live, step) == {};
    assert live + {} == live;
    if s.head[FREE] == NULL {
      WaitStep(s, live, lists, frees, step.t, g);
      return lists, frees;
    }
    PopInv(s, lists, frees, step.t, g);
    PopLive(s, lists, frees, step.t, g);
    assert Next(s, live, step) == Pop(s, step.t, g);
    return lists[FREE := Cut(lists[FREE], 0)], frees;
  }

  /** Waiting for a page of descriptors leaves everything as it is. */
  lemma WaitStep(s: State, live: set<Obj>, lists: Lists, frees: Frees, t: nat, g: nat)
    requires SpecBy(s, live, lists, frees) && t < |s.task| && s.task[t].Idle? && g < DIRS
    ensures SpecBy(s.(task := s.task[t := Wanting(g)]), live, lists, frees)
  {
    hide ListsOk, DescsOk, PagesOk, Listed;
    var s' := s.(task := s.task[t := Wanting(g)]);
    assert forall u :: 0 <= u < |s.task| ==> PcShape(s.task[u], |s.desc|) && PcOk(s, lists, frees, s.task[u]);
    SameInv(s, lists, frees, s');
    forall o: Obj
      ensures o in live <==> Live(s', lists, frees, o)
    {
      SameLive(s, lists, s', lists, frees, o);
    }
  }

  lemma DescribeStep(s: State, live: set<Obj>, lists: Lists, frees: Frees, step: Step) returns (lists': Lists,
      frees': Frees)
    requires SpecBy(s, live, lists, frees) && Enabled(s, live, step) && step.Describe?
    ensures StepBy(s, live, step, lists, lists', frees')
  {
    hide Live, NewDescs, Grown, Cut, ListsOk, DescsOk, PagesOk, TasksOk;
    MoreDescsInv(s, lists, frees);
    MoreLive(s, lists, frees);
    var t, s1, lists1 := step.t, MoreDescs(s), Grown(lists, |s.desc|);
    PopInv(s1, lists1, frees, t, s.task[t].g);
    PopLive(s1, lists1, frees, t, s.task[t].g);
    lists', frees' := lists1[FREE := Cut(lists1[FREE], 0)], frees;
    BackTwice(s, lists, s1, lists1, Pop(s1, t, s.task[t].g), lists');
    assert Next(s, live, step) == Pop(s1, t, s.task[t].g);
    assert Handed(s, live, step) == {};
    assert live + {} == live;
  }

  lemma MoreLive(s: State, lists: Lists, frees: Frees)
    requires Inv(s, lists, frees)
    ensures |lists| == DIRS + 1 && Shape(MoreDescs(s))
    ensures forall o: Obj {:trigger Live(MoreDescs(s), Grown(lists, |s.desc|), frees, o)} ::
              Live(MoreDescs(s), Grown(lists, |s.desc|), frees, o) <==> Live(s, lists, frees, o)
    ensures Back(s, lists, MoreDescs(s), Grown(lists, |s.desc|))
  {
    MoreDescsInv(s, lists, frees);
    var s', lists' := MoreDescs(s), Grown(lists, |s.desc|);
    forall h: nat, c: nat
      ensures h < DIRS ==> (InList(lists', h, c) <==> InList(lists, h, c))
      ensures h < DIRS && InList(lists, h, c) ==> c < |s.desc| && s'.desc[c].page == s.desc[c].page
    {
      GrownHas(lists, |s.desc|, h, c);
      if h < DIRS && InList(lists, h, c) {
        ListedBelow(s, lists, h, c);
      }
    }
    forall o: Obj
      ensures Live(s', lists', frees, o) <==> Live(s, lists, frees, o)
    {
      SameLive(s, lists, s', lists', frees, o);
    }
  }

  lemma PopLive(s: State, lists: Lists, frees: Frees, t: nat, g: nat)
    requires Inv(s, lists, frees) && t < |s.task| && (s.task[t].Idle? || s.task[t].Wanting?) && s.head[FREE] != NULL
        && g < DIRS
    ensures |lists| == DIRS + 1 && lists[FREE] != [] && Shape(Pop(s, t, g))
    ensures forall o: Obj {:trigger Live(Pop(s, t, g), lists[FREE := Cut(lists[FREE], 0)], frees, o)} ::
              Live(Pop(s, t, g), lists[FREE := Cut(lists[FREE], 0)], frees, o) <==> Live(s, lists, frees, o)
    ensures Back(s, lists, Pop(s, t, g), lists[FREE := Cut(lists[FREE], 0)])
  {
    PopInv(s, lists, frees, t, g);
    PopLists(s, lists, t, g);
    var s', lists' := Pop(s, t, g), lists[FREE := Cut(lists[FREE], 0)];
    assert InList(lists, FREE, s.head[FREE]);
    forall h: nat, c: nat
      ensures h < DIRS ==> (InList(lists', h, c) <==> InList(lists, h, c))
      ensures h < DIRS && InList(lists, h, c) ==> c < |s.desc| && s'.desc[c].page == s.desc[c].page
    {
      if h < DIRS && InList(lists, h, c) {
        ListedBelow(s, lists, h, c);
        SameListNot(s, lists, h, c, s.head[FREE]);
      }
    }
    forall o: Obj
      ensures Live(s', lists', frees, o) <==> Live(s, lists, frees, o)
    {
      SameLive(s, lists, s', lists', frees, o);
    }
  }

  lemma LinkStep(s: State, live: set<Obj>, lists: Lists, frees: Frees, step: Step) returns (lists': Lists,
      frees': Frees)
    requires SpecBy(s, live, lists, frees) && Enabled(s, live, step) && step.Link?
    ensures StepBy(s, live, step, lists, lists', frees')
  {
    hide Live, LinkPage, Pushed, Rest, ListsOk, DescsOk, PagesOk, TasksOk;
    var (g, b) := (s.task[step.t].g, s.task[step.t].b);
    LinkInv(s, lists, frees, step.t, step.page);
    var s' := LinkPage(s, step.t, step.page);
    lists', frees' := Pushed(lists, g, b), frees[b := Rest(PerPage(g))];
    var o := Obj(step.page, 0);
    forall x: Obj
      ensures x in live + {o} <==> Live(s', lists', frees', x)
      ensures x.page == step.page ==> !Live(s, lists, frees, x)
    {
      LinkLive(s, lists, frees, step.t, step.page, x);
    }
    assert o !in live;
    LinkBack(s, lists, frees, step.t, step.page);
    assert Next(s, live, step) == s' && Handed(s, live, step) == {o};
    assert LiveIn(s', lists', frees', o, ChainFor(s, step), b);
  }

  lemma LinkBack(s: State, lists: Lists, frees: Frees, t: nat, page: nat)
    requires Inv(s, lists, frees) && t < |s.task| && s.task[t].Growing? && page !in s.pages
    ensures var (g, b) := (s.task[t].g, s.task[t].b);
            && |lists| == DIRS + 1 && Shape(LinkPage(s, t, page))
            && Back(s, lists, LinkPage(s, t, page), Pushed(lists, g, b))
            && LiveIn(LinkPage(s, t, page), Pushed(lists, g, b), frees[b := Rest(PerPage(g))], Obj(page, 0), g, b)
  {
    hide DescsOk, PagesOk, TasksOk, Pushed, Rest, Listed;
    var (g, b) := (s.task[t].g, s.task[t].b);
    var s' := LinkPage(s, t, page);
    LinkInv(s, lists, frees, t, page);
    LinkPageIs(s, lists, frees, t, page);
    PushedHas(lists, g, b, g, b);
    RestHas(PerPage(g), 0);
    forall h: nat, c: nat | h < DIRS && InList(Pushed(lists, g, b), h, c) && c < |s'.desc|
      ensures (InList(lists, h, c) && c < |s.desc| && s'.desc[c].page == s.desc[c].page) || s'.desc[c].page !in s.pages
    {
      PushedHas(lists, g, b, h, c);
    }
  }

  lemma LinkLive(s: State, lists: Lists, frees: Frees, t: nat, page: nat, x: Obj)
    requires Inv(s, lists, frees) && t < |s.task| && s.task[t].Growing? && page !in s.pages
    ensures var (g, b) := (s.task[t].g, s.task[t].b);
            && |lists| == DIRS + 1 && Shape(LinkPage(s, t, page))
            && (x.page == page ==> !Live(s, lists, frees, x))
            && (Live(LinkPage(s, t, page), Pushed(lists, g, b), frees[b := Rest(PerPage(g))], x) <==>
                Live(s, lists, frees, x) || x == Obj(page, 0))
  {
    hide ListsOk, DescsOk, PagesOk, TasksOk, LinkPage, Pushed, Rest, Listed;
    var (g, b) := (s.task[t].g, s.task[t].b);
    var s' := LinkPage(s, t, page);
    LinkInv(s, lists, frees, t, page);
    LinkPageIs(s, lists, frees, t, page);
    var lists', frees' := Pushed(lists, g, b), frees[b := Rest(PerPage(g))];
    PushedHas(lists, g, b, g, b);
    LinkNot(s, lists, frees, t, g);
    if h: nat, c: nat :| LiveIn(s, lists, frees, x, h, c) {
      LinkOld(s, lists, frees, t, x, h, c);
      PushedHas(lists, g, b, h, c);
      assert LiveIn(s', lists', frees', x, h, c);
    }
    if h: nat, c: nat :| LiveIn(s', lists', frees', x, h, c) {
      PushedHas(lists, g, b, h, c);
      if c == b {
        LinkNot(s, lists, frees, t, h);
        RestHas(PerPage(g), x.k);
      } else {
        assert LiveIn(s, lists, frees, x, h, c);
      }
    }
    if x == Obj(page, 0) {
      RestHas(PerPage(g), 0);
      assert LiveIn(s', lists', frees', x, g, b);
    }
  }

  lemma RestHas(n: nat, k: nat)
    requires k < n
    ensures k in Rest(n) <==> k > 0
  {
    if k > 0 {
      assert Rest(n)[k - 1] == k;
    }
  }

  lemma LinkNot(s: State, lists: Lists, frees: Frees, t: nat, h: nat)
    requires Inv(s, lists, frees) && t < |s.task| && s.task[t].Growing?
    ensures |lists| == DIRS + 1 && !InList(lists, h, s.task[t].b)
  {
    hide DescsOk, PagesOk;
    assert PcOk(s, lists, frees, s.task[t]);
  }

  lemma LinkOld(s: State, lists: Lists, frees: Frees, t: nat, x: Obj, h: nat, c: nat)
    requires Inv(s, lists, frees) && t < |s.task| && s.task[t].Growing? && LiveIn(s, lists, frees, x, h, c)
    ensures c != s.task[t].b && x.page in s.pages
  {
    hide PagesOk, TasksOk;
    LinkNot(s, lists, frees, t, h);
    assert DescOk(s, frees, h, c);
  }

  lemma FinishStep(s: State, live: set<Obj>, lists: Lists, frees: Frees, step: Step) returns (lists': Lists,
      frees': Frees)
    requires SpecBy(s, live, lists, frees) && Enabled(s, live, step) && step.Finish?
    ensures StepBy(s, live, step, lists, lists', frees')
  {
    GiveFacts(s, lists, frees, step.t);
    var pc := s.task[step.t];
    if s.desc[pc.b].refcnt == 1 {
      var k := FinishLast(s, lists, frees, step.t);
      lists', frees' := LastStep(s, live, lists, frees, step, k);
    } else {
      GiveInv(s, lists, frees, step.t);
      lists', frees' := GiveStep(s, live, lists, frees, step);
    }
  }

  lemma GiveStep(s: State, live: set<Obj>, lists: Lists, frees: Frees, step: Step) returns (lists': Lists,
      frees': Frees)
    requires SpecBy(s, live, lists, frees) && Enabled(s, live, step) && step.Finish?
        && s.desc[s.task[step.t].b].refcnt > 1
    ensures StepBy(s, live, step, lists, lists', frees')
  {
    hide SpecBy, Live, ListsOk, DescsOk, PagesOk, TasksOk, Unlink;
    GiveSpec(s, live, lists, frees, step.t);
    var pc := s.task[step.t];
    lists', frees' := lists, frees[pc.b := [pc.obj.k] + frees[pc.b]];
    assert Next(s, live, step) == Give(s, step.t);
    assert Handed(s, live, step) == {};
  }

  lemma GiveSpec(s: State, live: set<Obj>, lists: Lists, frees: Frees, t: nat)
    requires SpecBy(s, live, lists, frees) && t < |s.task| && s.task[t].Freeing? && s.desc[s.task[t].b].refcnt > 1
    ensures var pc := s.task[t]; pc.b in frees && SpecBy(Give(s, t), live - {pc.obj}, lists,
        frees[pc.b := [pc.obj.k] + frees[pc.b]])
  {
    hide ListsOk, DescsOk, PagesOk, TasksOk, Live, Give;
    var pc := s.task[t];
    GiveInv(s, lists, frees, t);
    forall x: Obj
      ensures x in live - {pc.obj} <==> Live(Give(s, t), lists, frees[pc.b := [pc.obj.k] + frees[pc.b]], x)
    {
      GiveLive(s, lists, frees, t, x);
    }
  }

  lemma GiveLive(s: State, lists: Lists, frees: Frees, t: nat, x: Obj)
    requires Inv(s, lists, frees) && t < |s.task| && s.task[t].Freeing? && s.task[t].b in frees
    ensures Shape(Give(s, t))
    ensures Live(Give(s, t), lists, frees[s.task[t].b := [s.task[t].obj.k] + frees[s.task[t].b]], x) <==>
        Live(s, lists, frees, x) && x != s.task[t].obj
  {
    hide Live, ListsOk, DescsOk, PagesOk, TasksOk, FreeList;
    GiveFacts(s, lists, frees, t);
    var pc := s.task[t];
    FreesLive(s, lists, frees, Give(s, t), pc.g, pc.b, [pc.obj.k] + frees[pc.b], x);
    if x.page == s.desc[pc.b].page {
      LiveOnPage(s, lists, frees, pc.g, pc.b, x);
    }
  }

  lemma LastStep(s: State, live: set<Obj>, lists: Lists, frees: Frees, step: Step, k: nat) returns (lists': Lists,
      frees': Frees)
    requires SpecBy(s, live, lists, frees) && Enabled(s, live, step) && step.Finish?
    requires LastFreed(s, lists, frees, step.t, k, DoFinish(s, step.t))
    ensures StepBy(s, live, step, lists, lists', frees')
  {
    hide SpecBy, Live, ListsOk, DescsOk, PagesOk, TasksOk, Released, DoFinish, Moved;
    var pc := s.task[step.t];
    var s' := DoFinish(s, step.t);
    LastSpec(s, live, lists, frees, step.t, k, s');
    LastBack(s, lists, frees, step.t, k, s');
    lists', frees' := Moved(lists, pc.g, k), frees;
    assert Next(s, live, step) == s';
    assert Handed(s, live, step) == {};
  }

  lemma LastBack(s: State, lists: Lists, frees: Frees, t: nat, k: nat, s': State)
    requires LastFreed(s, lists, frees, t, k, s')
    ensures |lists| == DIRS + 1 && Back(s, lists, s', Moved(lists, s.task[t].g, k))
  {
    hide DescsOk, PagesOk, TasksOk, Moved;
    var pc := s.task[t];
    forall h: nat, c: nat | h < DIRS && InList(Moved(lists, pc.g, k), h, c) && c < |s'.desc|
      ensures InList(lists, h, c) && c < |s.desc| && s'.desc[c].page == s.desc[c].page
    {
      MovedHas(s, lists, pc.g, k, h, c);
    }
  }

  lemma LastSpec(s: State, live: set<Obj>, lists: Lists, frees: Frees, t: nat, k: nat, s': State)
    requires SpecBy(s, live, lists, frees) && LastFreed(s, lists, frees, t, k, s')
    ensures |lists| == DIRS + 1 && SpecBy(s', live - {s.task[t].obj}, Moved(lists, s.task[t].g, k), frees)
  {
    hide ListsOk, DescsOk, PagesOk, TasksOk, Live, Moved, Released;
    LastInv(s, lists, frees, t, k, s');
    forall x: Obj
      ensures x in live - {s.task[t].obj} <==> Live(s', Moved(lists, s.task[t].g, k), frees, x)
    {
      LastLive(s, lists, frees, t, k, s', x);
    }
  }

  lemma LastLive(s: State, lists: Lists, frees: Frees, t: nat, k: nat, s': State, x: Obj)
    requires LastFreed(s, lists, frees, t, k, s')
    ensures |lists| == DIRS + 1 && (Live(s', Moved(lists, s.task[t].g, k), frees, x) <==>
        Live(s, lists, frees, x) && x != s.task[t].obj)
  {
    var pc := s.task[t];
    var lists' := Moved(lists, pc.g, k);
    GiveFacts(s, lists, frees, t);
    if h: nat, c: nat :| LiveIn(s, lists, frees, x, h, c) && x != pc.obj {
      if c == pc.b {
        LastAlone(s, lists, frees, t, x, h);
      }
      MovedHas(s, lists, pc.g, k, h, c);
      assert LiveIn(s', lists', frees, x, h, c);
    }
    if h: nat, c: nat :| LiveIn(s', lists', frees, x, h, c) {
      MovedHas(s, lists, pc.g, k, h, c);
      assert LiveIn(s, lists, frees, x, h, c);
      if x == pc.obj {
        OnePageEach(s, lists, frees, pc.g, pc.b, h, c);
      }
    }
  }

  // ----------------------------------------------------- searching and storing

  /** The search is right exactly if the size given is not larger than the object's bucket; otherwise free_s panics. */
  lemma SearchStep(s: State, live: set<Obj>, lists: Lists, frees: Frees, step: Step)
    requires SpecBy(s, live, lists, frees) && Enabled(s, live, step) && step.Search?
    ensures exists g: nat, b: nat ::
        LiveIn(s, lists, frees, step.obj, g, b) && (Next(s, live, step).fault <==> step.size > SizeOf(g))
    ensures !Next(s, live, step).fault ==> StepBy(s, live, step, lists, lists, frees)
  {
    hide ListsOk, DescsOk, PagesOk, TasksOk;
    assert Live(s, lists, frees, step.obj);
    var g: nat, b: nat :| LiveIn(s, lists, frees, step.obj, g, b);
    SearchFinds(s, lists, frees, step.obj, step.size, g, b, 0);
    var s' := Next(s, live, step);
    assert s'.fault <==> step.size > SizeOf(g);
    if !s'.fault {
      SearchInv(s, live, lists, frees, step, g, b);
    }
  }

  lemma SearchInv(s: State, live: set<Obj>, lists: Lists, frees: Frees, step: Step, g: nat, b: nat)
    requires SpecBy(s, live, lists, frees) && Enabled(s, live, step) && step.Search?
        && LiveIn(s, lists, frees, step.obj, g, b)
    requires var r := SearchDirs(s, step.obj.page, step.size, 0);
             r.Place? && r.g == g && r.b == b && (r.prev == NULL || (r.prev >= 0 && Listed(lists, r.prev)))
    ensures StepBy(s, live, step, lists, lists, frees)
  {
    hide ListsOk, DescsOk, PagesOk, Listed, SearchDirs;
    var s' := Next(s, live, step);
    SameInv(s, lists, frees, s');
    forall o: Obj
      ensures o in live <==> Live(s', lists, frees, o)
    {
      SameLive(s, lists, s', lists, frees, o);
    }
    assert live + {} == live;
  }

  /** Only the tasks have changed, and they are all right. */
  lemma SameInv(s: State, lists: Lists, frees: Frees, s': State)
    requires Inv(s, lists, frees) && Shape(s') && s' == s.(task := s'.task) && TasksOk(s', lists, frees)
    ensures Inv(s', lists, frees)
    ensures forall h: nat, c: nat {:trigger InList(lists, h, c)} :: h < DIRS && InList(lists, h, c) ==> c < |s.desc|
  {
    ListsSame(s, lists, s');
    forall h: nat, c: nat | h < DIRS && InList(lists, h, c)
      ensures c < |s.desc|
    {
      ListedBelow(s, lists, h, c);
    }
    assert SameChains(s, lists, frees, s', lists);
    SameChainsInv(s, lists, frees, s', lists);
  }

  /** What a caller stores in its object disturbs no free list. */
  lemma StoreStep(s: State, live: set<Obj>, lists: Lists, frees: Frees, step: Step)
    requires SpecBy(s, live, lists, frees) && Enabled(s, live, step) && step.Store?
    ensures StepBy(s, live, step, lists, lists, frees)
  {
    hide ListsOk, DescsOk, PagesOk, TasksOk, FreeList, InList;
    var s' := Next(s, live, step);
    assert Live(s, lists, frees, step.obj);
    var g: nat, b: nat :| LiveIn(s, lists, frees, step.obj, g, b);
    StoreDesc(s, lists, frees, step.obj, step.v, g, b);
    assert frees[b := frees[b]] == frees;
    OneDescInv(s, lists, frees, s', g, b, frees[b]);
    forall o: Obj
      ensures o in live <==> Live(s', lists, frees, o)
    {
      FreesLive(s, lists, frees, s', g, b, frees[b], o);
      LiveOnPage(s, lists, frees, g, b, Obj(s.desc[b].page, o.k));
    }
    assert live + {} == live;
  }

  lemma StoreDesc(s: State, lists: Lists, frees: Frees, o: Obj, v: int, g: nat, b: nat)
    requires Inv(s, lists, frees) && LiveIn(s, lists, frees, o, g, b)
    ensures OneDesc(s, lists, frees, s.(word := s.word[o := v]), g, b, frees[b])
  {
    hide PagesOk, InList;
    assert DescOk(s, frees, g, b);
    assert frees[b := frees[b]] == frees;
    StoreTasks(s, lists, frees, o, v);
  }

  lemma StoreTasks(s: State, lists: Lists, frees: Frees, o: Obj, v: int)
    requires Inv(s, lists, frees)
    ensures Shape(s.(word := s.word[o := v])) && TasksOk(s.(word := s.word[o := v]), lists, frees)
  {
    hide ListsOk, DescsOk, PagesOk, Listed, InList;
    forall t | 0 <= t < |s.task|
      ensures PcOk(s.(word := s.word[o := v]), lists, frees, s.task[t])
    {
      assert PcOk(s, lists, frees, s.task[t]);
    }
  }

  /** Any step from a sound heap leads to a sound heap; an object handed out was not live; the one fault there
      is is a free with a size too large. */
  lemma StepSpec(s: State, live: set<Obj>, step: Step)
    requires Spec(s, live) && Enabled(s, live, step)
    ensures Next(s, live, step).fault ==> step.Search?
    ensures !Next(s, live, step).fault ==>
        Spec(Next(s, live, step), NextLive(s, live, step)) && Handed(s, live, step) !! live
  {
    hide SpecBy, Live, Inv, Next, Handed, Enabled;
    var lists, frees :| SpecBy(s, live, lists, frees);
    StepSpecBy(s, live, step, lists, frees);
  }

  lemma StepLists(s: State, live: set<Obj>, step: Step, lists: Lists, frees: Frees) returns (lists': Lists,
      frees': Frees)
    requires SpecBy(s, live, lists, frees) && Enabled(s, live, step)
    ensures Next(s, live, step).fault ==> step.Search?
    ensures !Next(s, live, step).fault ==> StepBy(s, live, step, lists, lists', frees')
  {
    hide Live, Next, Handed, Enabled, ListsOk, DescsOk, PagesOk, TasksOk;
    lists', frees' := lists, frees;
    match step {
      case Malloc(_, _) => lists', frees' := MallocStep(s, live, lists, frees, step);
      case Describe(_) => lists', frees' := DescribeStep(s, live, lists, frees, step);
      case Link(_, _) => lists', frees' := LinkStep(s, live, lists, frees, step);
      case Search(_, _, _) => SearchStep(s, live, lists, frees, step);
      case Finish(_) => lists', frees' := FinishStep(s, live, lists, frees, step);
      case Store(_, _) => StoreStep(s, live, lists, frees, step);
    }
    if !step.Search? {
      StepSound(s, live, step, lists, lists', frees');
    }
  }

  lemma StepSound(s: State, live: set<Obj>, step: Step, lists: Lists, lists': Lists, frees': Frees)
    requires StepBy(s, live, step, lists, lists', frees')
    ensures !Next(s, live, step).fault
  {
    hide Live, Next, Handed, Enabled, ListsOk, DescsOk, PagesOk, TasksOk, NextLive, Back;
  }

  lemma StepSpecBy(s: State, live: set<Obj>, step: Step, lists: Lists, frees: Frees)
    requires SpecBy(s, live, lists, frees) && Enabled(s, live, step)
    ensures Next(s, live, step).fault ==> step.Search?
    ensures !Next(s, live, step).fault ==>
        Spec(Next(s, live, step), NextLive(s, live, step)) && Handed(s, live, step) !! live
  {
    hide Live, Next, Handed, Enabled, ListsOk, DescsOk, PagesOk, TasksOk, SpecBy, Back, LiveIn;
    var lists', frees' := StepLists(s, live, step, lists, frees);
    if !Next(s, live, step).fault {
      assert SpecBy(Next(s, live, step), NextLive(s, live, step), lists', frees');
    }
  }

  // ------------------------------------------------------------ what it means

  ghost function OnPage(live: set<Obj>, page: nat): set<Obj> {
    set o | o in live && o.page == page
  }

  /** A page is kept exactly while it has a live object. */
  lemma PagesAreLive(s: State, live: set<Obj>, page: nat)
    requires Spec(s, live)
    ensures page in s.pages <==> OnPage(live, page) != {}
  {
    var lists, frees :| SpecBy(s, live, lists, frees);
    if page in s.pages {
      var b: nat :| HasPage(s, lists, b, page);
      var g: nat :| g < DIRS && InList(lists, g, b);
      assert DescOk(s, frees, g, b);
      var k := Missing(frees[b], PerPage(g));
      LiveOnPage(s, lists, frees, g, b, Obj(page, k));
      assert Obj(page, k) in OnPage(live, page);
    }
    if o :| o in OnPage(live, page) {
      assert Live(s, lists, frees, o);
      var g: nat, b: nat :| LiveIn(s, lists, frees, o, g, b);
      assert DescOk(s, frees, g, b);
    }
  }

  /** A list of distinct numbers below n that is shorter than n misses one. */
  lemma Missing(f: seq<nat>, n: nat) returns (k: nat)
    requires NoDup(f) && |f| < n && forall i :: 0 <= i < |f| ==> f[i] < n
    ensures k < n && k !in f
  {
    var left := Below(n) - SetOf(f);
    SeqSetCard(f);
    assert Below(n) == SetOf(f) + left;
    assert left != {};
    k :| k in left;
  }

  function SetOf(f: seq<nat>): set<nat> {
    set x | x in f
  }

  lemma {:induction false} SeqSetCard(f: seq<nat>)
    ensures |SetOf(f)| <= |f|
  {
    if f != [] {
      SeqSetCard(f[1..]);
      assert SetOf(f) == SetOf(f[1..]) + {f[0]};
    }
  }

  function Address(o: Obj, size: nat): nat {
    PAGE_SIZE * o.page + o.k * size
  }

  /** The bytes of an object of chain g. */
  ghost predicate Apart(o: Obj, g: nat, p: Obj, h: nat)
    requires g < DIRS && h < DIRS
  {
    Address(o, SizeOf(g)) + SizeOf(g) <= Address(p, SizeOf(h))
        || Address(p, SizeOf(h)) + SizeOf(h) <= Address(o, SizeOf(g))
  }

  ghost predicate OnItsPage(o: Obj, g: nat)
    requires g < DIRS
  {
    PAGE_SIZE * o.page <= Address(o, SizeOf(g)) && Address(o, SizeOf(g)) + SizeOf(g) <= PAGE_SIZE * (o.page + 1)
  }

  /** Two live objects never overlap in memory, each taken at the size of its own chain, and each lies within its
      page. */
  lemma LiveObjectsDisjoint(
    s: State, live: set<Obj>, lists: Lists, frees: Frees, o: Obj, g: nat, b: nat, p: Obj, h: nat, c: nat)
    requires SpecBy(s, live, lists, frees) && o != p
    requires LiveIn(s, lists, frees, o, g, b) && LiveIn(s, lists, frees, p, h, c)
    ensures o in live && p in live && Apart(o, g, p, h) && OnItsPage(o, g) && OnItsPage(p, h)
  {
    hide ListsOk, DescsOk, PagesOk, TasksOk, PerPage;
    assert Live(s, lists, frees, o) && Live(s, lists, frees, p);
    ObjectOnPage(o, g);
    ObjectOnPage(p, h);
    if o.page == p.page {
      SamePageSameChain(s, lists, frees, o.page, g, b, h, c);
      ObjectsApart(o, p, g);
    }
  }

  /** Every live object belongs to one chain. */
  lemma LiveHasChain(s: State, live: set<Obj>, lists: Lists, frees: Frees, o: Obj) returns (g: nat, b: nat)
    requires SpecBy(s, live, lists, frees) && o in live
    ensures LiveIn(s, lists, frees, o, g, b)
  {
    hide ListsOk, DescsOk, PagesOk, TasksOk;
    assert Live(s, lists, frees, o);
    g, b :| LiveIn(s, lists, frees, o, g, b);
  }

  lemma SamePageSameChain(s: State, lists: Lists, frees: Frees, page: nat, g: nat, b: nat, h: nat, c: nat)
    requires Inv(s, lists, frees) && g < DIRS && h < DIRS && InList(lists, g, b) && InList(lists, h, c)
    requires b < |s.desc| && c < |s.desc| && s.desc[b].page == page == s.desc[c].page
    ensures g == h && b == c
  {
    hide ListsOk, DescsOk, PagesOk, TasksOk;
    if b != c {
      OnePageEach(s, lists, frees, g, b, h, c);
    } else {
      SameList(s, lists, g, h, b);
    }
  }

  lemma ObjectOnPage(o: Obj, g: nat)
    requires g < DIRS && o.k < PerPage(g)
    ensures OnItsPage(o, g)
  {
    var size, n := SizeOf(g), PerPage(g);
    assert (o.k + 1) * size <= n * size;
  }

  lemma ObjectsApart(o: Obj, p: Obj, g: nat)
    requires g < DIRS && o.page == p.page && o.k != p.k
    ensures Apart(o, g, p, g)
  {
    var size := SizeOf(g);
    if o.k < p.k {
      assert (o.k + 1) * size <= p.k * size;
    } else {
      assert (p.k + 1) * size <= o.k * size;
    }
  }

  // --------------------------------------------------------------------- runs

  ghost predicate Legal(s: State, live: set<Obj>, steps: seq<Step>)
    decreases |steps|
  {
    steps == [] || (Enabled(s, live, steps[0]) && Legal(Next(s, live, steps[0]), NextLive(s, live, steps[0]),
        steps[1..]))
  }

  ghost function Run(s: State, live: set<Obj>, steps: seq<Step>): (State, set<Obj>)
    requires Legal(s, live, steps)
    decreases |steps|
  {
    if steps == [] then (s, live) else Run(Next(s, live, steps[0]), NextLive(s, live, steps[0]), steps[1..])
  }

  /** The chain a live object belongs to. */
  ghost predicate InChain(s: State, live: set<Obj>, o: Obj, g: nat) {
    exists lists: Lists, frees: Frees, b: nat {:trigger LiveIn(s, lists, frees, o, g, b)} ::
      SpecBy(s, live, lists, frees) && LiveIn(s, lists, frees, o, g, b)
  }

  /** The size given to free_s is not larger than the size of the object's chain. */
  ghost predicate SizeFits(s: State, live: set<Obj>, step: Step) {
    step.Search? ==> exists g: nat {:trigger InChain(s, live, step.obj, g)} ::
      g < DIRS && InChain(s, live, step.obj, g) && step.size <= SizeOf(g)
  }

  /** Every size given to free_s along the run fits. */
  ghost predicate SizesFit(s: State, live: set<Obj>, steps: seq<Step>)
    requires Legal(s, live, steps)
    decreases |steps|
  {
    steps == [] || (SizeFits(s, live, steps[0]) && SizesFit(Next(s, live, steps[0]), NextLive(s, live, steps[0]),
        steps[1..]))
  }

  /** A step panics exactly if it is a free with a size that does not fit. */
  lemma FaultsIff(s: State, live: set<Obj>, step: Step)
    requires Spec(s, live) && Enabled(s, live, step)
    ensures Next(s, live, step).fault <==> !SizeFits(s, live, step)
  {
    hide ListsOk, DescsOk, PagesOk, TasksOk, WalkFree, WalkPage, TakeFrom, DoMalloc, DoFinish, LinkPage, DoDescribe;
    StepSpec(s, live, step);
    if step.Search? {
      var lists, frees :| SpecBy(s, live, lists, frees);
      var g, b := LiveHasChain(s, live, lists, frees, step.obj);
      SearchFinds(s, lists, frees, step.obj, step.size, g, b, 0);
      assert InChain(s, live, step.obj, g);
      forall h: nat | h < DIRS && InChain(s, live, step.obj, h)
        ensures h == g
      {
        OneChain(s, live, lists, frees, step.obj, g, b, h);
      }
    }
  }

  /** Whatever lists witness the heap, an object's chain is the one its page is found in. */
  lemma OneChain(s: State, live: set<Obj>, lists: Lists, frees: Frees, o: Obj, g: nat, b: nat, h: nat)
    requires SpecBy(s, live, lists, frees) && LiveIn(s, lists, frees, o, g, b) && h < DIRS && InChain(s, live, o, h)
    ensures h == g
  {
    hide ListsOk, DescsOk, PagesOk, TasksOk, SearchDirs;
    var lists', frees', b' :| SpecBy(s, live, lists', frees') && LiveIn(s, lists', frees', o, h, b');
    SearchFinds(s, lists, frees, o, 0, g, b, 0);
    SearchFinds(s, lists', frees', o, 0, h, b', 0);
  }

  /** In every run, however searches, unlinkings, allocations and waits interleave, the heap stays sound: in
      every chained descriptor live objects and free list make up the page, no live object is handed out again,
      no page outlives its last object, and no chain is ever found corrupted. The one panic there can be is
      that of a free with a size that does not fit; a run meets it exactly if it makes such a free. */
  lemma {:induction false} HeapRun(s: State, live: set<Obj>, steps: seq<Step>)
    requires Spec(s, live) && Legal(s, live, steps)
    ensures var (s', live') := Run(s, live, steps);
            && (SizesFit(s, live, steps) <==> !s'.fault)
            && (!s'.fault ==> Spec(s', live'))
    decreases |steps|
  {
    hide Inv, Live, Next, SizeFits;
    if steps == [] {
      SpecSound(s, live);
      return;
    }
    FaultsIff(s, live, steps[0]);
    StepSpec(s, live, steps[0]);
    var s1, live1 := Next(s, live, steps[0]), NextLive(s, live, steps[0]);
    if s1.fault {
      assert steps[1..] == [] by {
        assert Legal(s1, live1, steps[1..]);
      }
      return;
    }
    HeapRun(s1, live1, steps[1..]);
  }

  lemma SpecSound(s: State, live: set<Obj>)
    requires Spec(s, live)
    ensures Shape(s) && !s.fault
  {
    hide Live, ListsOk, DescsOk, PagesOk, TasksOk;
    var lists, frees :| SpecBy(s, live, lists, frees);
  }

  /** The heap at boot: no descriptors, no pages. */
  function Boot(tasks: nat): State {
    State(seq(DIRS + 1, _ => NULL), [], map[], {}, seq(tasks, _ => Idle), false)
  }

  lemma BootSpec(tasks: nat)
    ensures Spec(Boot(tasks), {})
  {
    var s := Boot(tasks);
    var none: seq<nat> := [];
    var lists: Lists := seq(DIRS + 1, _ => none);
    assert forall g :: 0 <= g < |lists| ==> lists[g] == none;
    assert Inv(s, lists, map[]);
    assert forall o: Obj :: !Live(s, lists, map[], o);
    assert SpecBy(s, {}, lists, map[]);
  }

  // ------------------------------------------------- a free with a wrong size

  lemma {:induction false} EmptyChains(s: State, page: nat, g: nat)
    requires Shape(s) && 1 <= g <= DIRS && forall h :: 1 <= h < DIRS ==> s.head[h] == NULL
    ensures SearchDirs(s, page, 32, g).Nowhere?
    decreases DIRS - g
  {
    if g < DIRS {
      EmptyChains(s, page, g + 1);
    }
  }

  lemma FirstWants() returns (s: State)
    ensures Enabled(Boot(1), {}, Malloc(0, 16)) && s == Next(Boot(1), {}, Malloc(0, 16))
    ensures NextLive(Boot(1), {}, Malloc(0, 16)) == {}
    ensures s == Boot(1).(task := [Wanting(0)]) && Shape(s)
  {
    assert DirFor(16, 0) == 0 && Boot(1).task == [Idle];
    s := Next(Boot(1), {}, Malloc(0, 16));
  }

  lemma FirstGrows(s: State) returns (s': State)
    requires s == Boot(1).(task := [Wanting(0)]) && Shape(s)
    ensures Enabled(s, {}, Describe(0)) && s' == Next(s, {}, Describe(0)) && NextLive(s, {}, Describe(0)) == {}
    ensures Shape(s') && !s'.fault && s'.task == [Growing(0, 0)] && s'.pages == {}
    ensures forall h :: 0 <= h < DIRS ==> s'.head[h] == NULL
  {
    hide NewDescs;
    MoreShape(s);
    s' := Next(s, {}, Describe(0));
  }

  lemma FirstLinks(s: State) returns (s': State)
    requires Shape(s) && !s.fault && s.task == [Growing(0, 0)] && s.pages == {} && forall h :: 0 <= h < DIRS ==>
        s.head[h] == NULL
    ensures Enabled(s, {}, Link(0, 7)) && s' == Next(s, {}, Link(0, 7)) && NextLive(s, {}, Link(0, 7)) == {Obj(7, 0)}
    ensures Shape(s') && !s'.fault && s'.task == [Idle] && forall h :: 1 <= h < DIRS ==> s'.head[h] == NULL
  {
    s' := Next(s, {}, Link(0, 7));
  }

  lemma RunOne(s: State, live: set<Obj>, step: Step, rest: seq<Step>)
    requires Enabled(s, live, step) && Legal(Next(s, live, step), NextLive(s, live, step), rest)
    ensures Legal(s, live, [step] + rest)
    ensures Run(s, live, [step] + rest) == Run(Next(s, live, step), NextLive(s, live, step), rest)
  {
    assert ([step] + rest)[1..] == rest;
  }

  /** The first 16 bytes ever allocated, on page 7. */
  lemma FirstMalloc() returns (s: State)
    ensures var steps := [Malloc(0, 16), Describe(0), Link(0, 7)];
            Legal(Boot(1), {}, steps) && Run(Boot(1), {}, steps) == (s, {Obj(7, 0)})
    ensures Shape(s) && !s.fault && s.task == [Idle] && forall h :: 1 <= h < DIRS ==> s.head[h] == NULL
  {
    hide Next, NextLive, Enabled, Boot;
    var s1 := FirstWants();
    var s2 := FirstGrows(s1);
    s := FirstLinks(s2);
    RunOne(s2, {}, Link(0, 7), []);
    RunOne(s1, {}, Describe(0), [Link(0, 7)]);
    RunOne(Boot(1), {}, Malloc(0, 16), [Describe(0), Link(0, 7)]);
    assert [Describe(0)] + [Link(0, 7)] == [Describe(0), Link(0, 7)];
    assert [Malloc(0, 16)] + [Describe(0), Link(0, 7)] == [Malloc(0, 16), Describe(0), Link(0, 7)];
  }

  /** From boot: 16 bytes allocated and freed as 32. */
  lemma FreeOfWrongSizePanics() returns (s: State)
    ensures var steps := [Malloc(0, 16), Describe(0), Link(0, 7)];
            Legal(Boot(1), {}, steps) && Run(Boot(1), {}, steps) == (s, {Obj(7, 0)})
    ensures Enabled(s, {Obj(7, 0)}, Search(0, Obj(7, 0), 32)) && Next(s, {Obj(7, 0)}, Search(0, Obj(7, 0), 32)).fault
  {
    hide Run, Legal, Boot;
    s := FirstMalloc();
    EmptyChains(s, 7, 1);
  }

  /** The count of a descriptor is the number of its live objects. */
  lemma RefcntIsLive(s: State, live: set<Obj>, lists: Lists, frees: Frees, g: nat, b: nat)
    requires SpecBy(s, live, lists, frees) && g < DIRS && InList(lists, g, b)
    ensures b < |s.desc| && s.desc[b].refcnt == |OnPage(live, s.desc[b].page)|
  {
    ListedBelow(s, lists, g, b);
    assert DescOk(s, frees, g, b);
    var page, f, n := s.desc[b].page, frees[b], PerPage(g);
    var on := OnPage(live, page);
    forall o: Obj
      ensures o in on <==> o.page == page && o.k < n && o.k !in f
    {
      if o.page == page {
        LiveOnPage(s, lists, frees, g, b, o);
      }
    }
    CountOthers(page, f, n, on);
  }

  lemma {:induction false} CountOthers(page: nat, f: seq<nat>, n: nat, on: set<Obj>)
    requires NoDup(f) && (forall i :: 0 <= i < |f| ==> f[i] < n) && forall o: Obj :: o in on <==>
        o.page == page && o.k < n && o.k !in f
    ensures |on| + |f| == n
    decreases |f|
  {
    if f == [] {
      AllOf(page, n, on);
      return;
    }
    var o := Obj(page, f[0]);
    assert forall k :: k in f <==> k == f[0] || k in f[1..];
    assert f[0] !in f[1..];
    CountOthers(page, f[1..], n, on + {o});
  }

  lemma {:induction false} AllOf(page: nat, n: nat, on: set<Obj>)
    requires forall o: Obj :: o in on <==> o.page == page && o.k < n
    ensures |on| == n
  {
    if n > 0 {
      AllOf(page, n - 1, on - {Obj(page, n - 1)});
    }
  }

  /** malloc hands out an object at once exactly if some page of the chain for the length, which is the one with the
      smallest objects that are large enough, is not full of live objects; else it waits for a page. */
  lemma MallocReuses(s: State, live: set<Obj>, lists: Lists, frees: Frees, t: nat, len: nat)
    requires SpecBy(s, live, lists, frees) && Enabled(s, live, Malloc(t, len))
    ensures var g, r := DirFor(len, 0), Next(s, live, Malloc(t, len));
            && g < DIRS && len <= SizeOf(g) && (forall h :: 0 <= h < g ==> SizeOf(h) < len)
            && (if Handed(s, live, Malloc(t, len)) == {}
                then (forall b: nat {:trigger InList(lists, g, b)} ::
                        InList(lists, g, b) ==> b < |s.desc| && |OnPage(live, s.desc[b].page)| == PerPage(g))
                     && t < |r.task| && (r.task[t].Wanting? || r.task[t].Growing?) && r.pages == s.pages
                else (exists b: nat {:trigger InList(lists, g, b)} ::
                        InList(lists, g, b) && b < |s.desc| && |OnPage(live, s.desc[b].page)| < PerPage(g))
                     && r.task == s.task && r.pages == s.pages)
  {
    hide ListsOk, DescsOk, PagesOk, TasksOk, WalkFree, OnPage, Next, Handed, Live;
    var g := DirFor(len, 0);
    assert SizeOf(8) == PAGE_SIZE;
    MallocWalk(s, live, lists, frees, t, len);
    forall b: nat | InList(lists, g, b)
      ensures b < |s.desc| && (s.desc[b].freeptr == NULL <==> |OnPage(live, s.desc[b].page)| == PerPage(g))
          && |OnPage(live, s.desc[b].page)| <= PerPage(g)
    {
      FullIff(s, live, lists, frees, g, b);
    }
  }

  lemma FullIff(s: State, live: set<Obj>, lists: Lists, frees: Frees, g: nat, b: nat)
    requires SpecBy(s, live, lists, frees) && g < DIRS && InList(lists, g, b)
    ensures b < |s.desc| && (s.desc[b].freeptr == NULL <==> |OnPage(live, s.desc[b].page)| == PerPage(g))
    ensures |OnPage(live, s.desc[b].page)| <= PerPage(g)
  {
    hide ListsOk, PagesOk, TasksOk, OnPage;
    RefcntIsLive(s, live, lists, frees, g, b);
    assert DescOk(s, frees, g, b);
  }

  lemma MallocWalk(s: State, live: set<Obj>, lists: Lists, frees: Frees, t: nat, len: nat)
    requires SpecBy(s, live, lists, frees) && Enabled(s, live, Malloc(t, len)) && DirFor(len, 0) < DIRS
    ensures var g, r := DirFor(len, 0), Next(s, live, Malloc(t, len));
            if Handed(s, live, Malloc(t, len)) == {} then
              && (forall b: nat {:trigger InList(lists, g, b)} ::
                    InList(lists, g, b) && b < |s.desc| ==> s.desc[b].freeptr == NULL)
              && t < |r.task| && (r.task[t].Wanting? || r.task[t].Growing?) && r.pages == s.pages
            else
              && (exists b: nat {:trigger InList(lists, g, b)} ::
                    InList(lists, g, b) && b < |s.desc| && s.desc[b].freeptr != NULL)
              && r.task == s.task && r.pages == s.pages
  {
    hide DescsOk, PagesOk, TasksOk, DirFor, WalkFree, Live;
    var g := DirFor(len, 0);
    var q := lists[g];
    assert Linked(s.desc, s.head[g], q);
    ListLength(q, |s.desc|);
    WalkFreeIs(s.desc, q, s.head[g], 0, |s.desc|);
    var b := WalkFree(s.desc, s.head[g], |s.desc|);
    if b != NULL {
      assert InList(lists, g, b);
    }
  }
}

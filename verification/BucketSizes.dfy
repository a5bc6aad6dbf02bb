/**
 Frees as callers make them: with the size they asked for, or a smaller one, or none. Each live object
 is tied to the length it was allocated with; such frees never panic.
*/
module BucketSizes {
  import opened Buckets
  import opened BucketRuns

  /** The length asked for when an object was handed out, and the one a task's malloc under way has asked for. */
  datatype Asked = Asked(lens: map<Obj, nat>, calls: map<nat, nat>)

  ghost function NextAsked(s: State, live: set<Obj>, step: Step, a: Asked): Asked
    requires Enabled(s, live, step)
  {
    match step
    case Malloc(t, len) => Asked(a.lens + (map o | o in Handed(s, live, step) :: len), a.calls[t := len])
    case Link(t, _) =>
      if t in a.calls then a.(lens := a.lens + (map o | o in Handed(s, live, step) :: a.calls[t])) else a
    case _ => a
  }

  /** What was asked for is not longer than the objects of the chain. */
  ghost predicate Fits(s: State, live: set<Obj>, lens: map<Obj, nat>, o: Obj) {
    o in lens
    && exists g: nat {:trigger InChain(s, live, o, g)} :: g < DIRS && InChain(s, live, o, g) && lens[o] <= SizeOf(g)
  }

  predicate CallFits(pc: Pc, calls: map<nat, nat>, t: nat) {
    pc.Wanting? || pc.Growing? ==> t in calls && pc.g < DIRS && calls[t] <= SizeOf(pc.g)
  }

  /** Live objects fit, and so do those to come. */
  ghost predicate AskedOk(s: State, live: set<Obj>, a: Asked) {
    && (forall o {:trigger o in live} :: o in live ==> Fits(s, live, a.lens, o))
    && (forall t: nat {:trigger s.task[t]} :: t < |s.task| ==> CallFits(s.task[t], a.calls, t))
  }

  /** Every free of the run gives at most the length its object was allocated with. */
  ghost predicate AsAllocated(s: State, live: set<Obj>, a: Asked, steps: seq<Step>)
    requires Legal(s, live, steps)
    decreases |steps|
  {
    steps == [] || (
      && (steps[0].Search? ==> steps[0].obj in a.lens && steps[0].size <= a.lens[steps[0].obj])
      && AsAllocated(
           Next(s, live, steps[0]), NextLive(s, live, steps[0]), NextAsked(s, live, steps[0], a), steps[1..]))
  }

  /** An object's page stays in its chain. */
  lemma ChainStays(s: State, live: set<Obj>, lists: Lists, frees: Frees, s': State, lists': Lists, frees': Frees,
      o: Obj, g: nat, b: nat, h: nat, c: nat)
    requires SpecBy(s, live, lists, frees) && LiveIn(s, lists, frees, o, g, b)
    requires Shape(s') && Back(s, lists, s', lists') && LiveIn(s', lists', frees', o, h, c)
    ensures h == g
  {
    hide ListsOk, PagesOk, TasksOk;
    assert DescOk(s, frees, g, b);
    assert InList(lists', h, c);
    SamePageSameChain(s, lists, frees, o.page, g, b, h, c);
  }

  /** The step, with the lists before and after. */
  lemma StepWith(s: State, live: set<Obj>, step: Step) returns (lists: Lists, frees: Frees, lists': Lists,
      frees': Frees)
    requires Spec(s, live) && Enabled(s, live, step) && !Next(s, live, step).fault
    ensures SpecBy(s, live, lists, frees) && StepBy(s, live, step, lists, lists', frees')
  {
    hide SpecBy, Next, Enabled, StepBy;
    lists, frees :| SpecBy(s, live, lists, frees);
    lists', frees' := StepLists(s, live, step, lists, frees);
  }

  /** An object that stays live fits its chain as before. */
  lemma OldFits(s: State, live: set<Obj>, step: Step, a: Asked, lists: Lists, frees: Frees, lists': Lists,
      frees': Frees, o: Obj)
    requires SpecBy(s, live, lists, frees) && StepBy(s, live, step, lists, lists', frees') && Enabled(s, live, step)
    requires AskedOk(s, live, a) && o in live && o in NextLive(s, live, step)
    ensures Fits(Next(s, live, step), NextLive(s, live, step), a.lens, o)
  {
    hide Inv, Live, Next, NextLive, Handed, Enabled, Back, SizeOf;
    var s', live' := Next(s, live, step), NextLive(s, live, step);
    assert Fits(s, live, a.lens, o);
    var g: nat :| g < DIRS && InChain(s, live, o, g) && a.lens[o] <= SizeOf(g);
    var g0, b := LiveHasChain(s, live, lists, frees, o);
    OneChain(s, live, lists, frees, o, g0, b, g);
    var h, c := LiveHasChain(s', live', lists', frees', o);
    SpecShape(s', live', lists', frees');
    ChainStays(s, live, lists, frees, s', lists', frees', o, g0, b, h, c);
    assert InChain(s', live', o, h);
  }

  lemma SpecShape(s: State, live: set<Obj>, lists: Lists, frees: Frees)
    requires SpecBy(s, live, lists, frees)
    ensures Shape(s) && !s.fault
  {
    hide ListsOk, DescsOk, PagesOk, TasksOk, Live;
  }

  /** An object handed out is long enough. */
  lemma NewFits(s: State, live: set<Obj>, step: Step, a: Asked, lists: Lists, lists': Lists, frees': Frees, o: Obj)
    requires Enabled(s, live, step) && StepBy(s, live, step, lists, lists', frees') && AskedOk(s, live, a)
    requires o in Handed(s, live, step)
    ensures Fits(Next(s, live, step), NextLive(s, live, step), NextAsked(s, live, step, a).lens, o)
  {
    hide Inv, Live, Next, NextLive, Back, SpecBy, LiveIn;
    var s', live' := Next(s, live, step), NextLive(s, live, step);
    SpecShape(s', live', lists', frees');
    var b: nat :| LiveIn(s', lists', frees', o, ChainFor(s, step), b);
    assert SpecBy(s', live', lists', frees');
    assert step.Link? ==> CallFits(s.task[step.t], a.calls, step.t);
    assert InChain(s', live', o, ChainFor(s, step));
  }

  lemma MallocTask(s: State, t: nat, len: nat)
    requires Shape(s) && t < |s.task| && !DoMalloc(s, t, len).fault
    ensures DirFor(len, 0) < DIRS
    ensures var r := DoMalloc(s, t, len);
            || r.task == s.task
            || (|r.task| == |s.task| && r.task == s.task[t := r.task[t]]
                && (r.task[t].Wanting? || r.task[t].Growing?) && r.task[t].g == DirFor(len, 0))
  {
    hide WalkFree, DirFor;
  }

  lemma OtherTasks(s: State, t: nat, page: nat)
    requires Shape(s) && t < |s.task|
    ensures s.task[t].Freeing? ==> DoFinish(s, t).task == s.task[t := Idle]
    ensures s.task[t].Growing? ==> LinkPage(s, t, page).task == s.task[t := Idle]
  {
    hide WalkPrev, Thread;
  }

  lemma TasksFit(s: State, live: set<Obj>, step: Step, a: Asked, t: nat)
    requires Enabled(s, live, step) && AskedOk(s, live, a) && !Next(s, live, step).fault
    requires t < |Next(s, live, step).task|
    ensures CallFits(Next(s, live, step).task[t], NextAsked(s, live, step, a).calls, t)
  {
    hide SearchDirs, NewDescs, DoMalloc, DoFinish, LinkPage, Fits, Handed, Shape, DirFor;
    match step {
      case Malloc(u, len) => MallocTask(s, u, len);
      case Link(u, page) => OtherTasks(s, u, page);
      case Finish(u) => OtherTasks(s, u, 0);
      case _ =>
    }
    assert |Next(s, live, step).task| == |s.task|;
    assert CallFits(s.task[t], a.calls, t);
  }

  lemma AskedNext(s: State, live: set<Obj>, step: Step, a: Asked)
    requires Spec(s, live) && Enabled(s, live, step) && AskedOk(s, live, a) && !Next(s, live, step).fault
    ensures AskedOk(Next(s, live, step), NextLive(s, live, step), NextAsked(s, live, step, a))
  {
    hide Spec, SpecBy, Next, NextLive, NextAsked, Handed, Enabled, StepBy, Fits, CallFits;
    var lists, frees, lists', frees' := StepWith(s, live, step);
    var s', live', a' := Next(s, live, step), NextLive(s, live, step), NextAsked(s, live, step, a);
    forall o | o in live'
      ensures Fits(s', live', a'.lens, o)
    {
      if o in Handed(s, live, step) {
        NewFits(s, live, step, a, lists, lists', frees', o);
      } else {
        WasLive(s, live, step, o);
        OldFits(s, live, step, a, lists, frees, lists', frees', o);
        OldLen(s, live, step, a, o);
      }
    }
    forall t: nat | t < |s'.task|
      ensures CallFits(s'.task[t], a'.calls, t)
    {
      TasksFit(s, live, step, a, t);
    }
  }

  /** Other lengths are as they were. */
  lemma OldLen(s: State, live: set<Obj>, step: Step, a: Asked, o: Obj)
    requires Enabled(s, live, step) && o !in Handed(s, live, step)
    requires Fits(Next(s, live, step), NextLive(s, live, step), a.lens, o)
    ensures Fits(Next(s, live, step), NextLive(s, live, step), NextAsked(s, live, step, a).lens, o)
  {
    hide Next, NextLive, Handed, Enabled, InChain;
  }

  lemma WasLive(s: State, live: set<Obj>, step: Step, o: Obj)
    requires Enabled(s, live, step) && o in NextLive(s, live, step) && o !in Handed(s, live, step)
    ensures o in live
  {
    hide Handed;
  }

  /** A free of at most the length asked for fits. */
  lemma FreeFits(s: State, live: set<Obj>, step: Step, a: Asked)
    requires Spec(s, live) && Enabled(s, live, step) && AskedOk(s, live, a)
    requires step.Search? ==> step.obj in a.lens && step.size <= a.lens[step.obj]
    ensures SizeFits(s, live, step) && !Next(s, live, step).fault
  {
    hide Spec, InChain, SizeOf, Next;
    FaultsIff(s, live, step);
  }

  /** Objects freed as they were allocated: no free panics, and the heap stays sound, in any run. */
  lemma {:induction false} FreesNeverPanic(s: State, live: set<Obj>, a: Asked, steps: seq<Step>)
    requires Spec(s, live) && AskedOk(s, live, a) && Legal(s, live, steps) && AsAllocated(s, live, a, steps)
    ensures SizesFit(s, live, steps)
    ensures var (s', live') := Run(s, live, steps); !s'.fault && Spec(s', live')
    decreases |steps|
  {
    hide Spec, Next, NextLive, Enabled, SizeFits, AskedOk, NextAsked;
    HeapRun(s, live, steps);
    if steps != [] {
      FreeFits(s, live, steps[0], a);
      AskedNext(s, live, steps[0], a);
      StepSpec(s, live, steps[0]);
      var s1, live1, a1 := Next(s, live, steps[0]), NextLive(s, live, steps[0]), NextAsked(s, live, steps[0], a);
      FreesNeverPanic(s1, live1, a1, steps[1..]);
    }
  }

  /** From the empty heap. */
  lemma FreesFromBoot(tasks: nat, steps: seq<Step>)
    requires Legal(Boot(tasks), {}, steps) && AsAllocated(Boot(tasks), {}, Asked(map[], map[]), steps)
    ensures var (s, live) := Run(Boot(tasks), {}, steps); !s.fault && Spec(s, live)
  {
    BootSpec(tasks);
    hide Spec, Legal, AsAllocated, Run;
    FreesNeverPanic(Boot(tasks), {}, Asked(map[], map[]), steps);
  }
}

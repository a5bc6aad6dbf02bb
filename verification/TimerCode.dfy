/**
 add_timer and do_timer's loop on the pool itself: entries linked by next, contents
 swapped in place. Each leaves the state Timers says.
*/
module TimerCode {
  import opened Timers

  const NULL := -1

  ghost predicate Distinct(order: seq<int>) {
    && (forall i :: 0 <= i < |order| ==> 0 <= order[i] < TIME_REQUESTS)
    && (forall i, j :: 0 <= i < j < |order| ==> order[i] != order[j])
  }

  /** An entry of the pool: struct timer_list. */
  datatype Slot = Slot(jiffies: int, fn: nat, next: int)

  /** The links run through order, and an entry is in use exactly when it is on it. */
  ghost predicate Linked(order: seq<int>, pool: seq<Slot>, first: int) {
    && Distinct(order) && |pool| == TIME_REQUESTS
    && first == (if order == [] then NULL else order[0])
    && (forall i, j {:trigger pool[order[i]], order[j]} :: 0 <= i && j == i + 1 && j < |order| ==>
        pool[order[i]].next == order[j])
    && (order != [] ==> pool[order[|order| - 1]].next == NULL)
    && (forall p :: 0 <= p < TIME_REQUESTS ==> (pool[p].fn != 0 <==> p in order))
  }

  ghost function Contents(order: seq<int>, pool: seq<Slot>): (l: seq<Timer>)
    requires Distinct(order) && |pool| == TIME_REQUESTS
    ensures |l| == |order| && forall i :: 0 <= i < |order| ==> l[i] == Timer(pool[order[i]].jiffies, pool[order[i]].fn)
  {
    seq(|order|, i requires 0 <= i < |order| => Timer(pool[order[i]].jiffies, pool[order[i]].fn))
  }

  ghost function Slots(order: seq<int>): set<int> {
    set x | x in order
  }

  lemma {:induction false} SlotCount(order: seq<int>)
    requires Distinct(order)
    ensures |Slots(order)| == |order|
    decreases |order|
  {
    if order != [] {
      var n := |order| - 1;
      SlotCount(order[..n]);
      assert order == order[..n] + [order[n]];
      assert Slots(order) == Slots(order[..n]) + {order[n]};
    }
  }

  ghost function Below(n: nat): (r: set<int>)
    ensures |r| == n && forall x :: x in r <==> 0 <= x < n
  {
    if n == 0 then {} else Below(n - 1) + {n - 1}
  }

  /** The search of the pool finds a free entry exactly when fewer than 64 are linked. */
  lemma RoomLeft(order: seq<int>, p: int)
    requires Distinct(order) && 0 <= p <= TIME_REQUESTS
    requires forall q :: 0 <= q < p ==> q in order
    requires p < TIME_REQUESTS ==> p !in order
    ensures p < TIME_REQUESTS <==> |order| < TIME_REQUESTS
  {
    SlotCount(order);
    Room(Slots(order), p, TIME_REQUESTS);
  }

  lemma Room(used: set<int>, p: int, n: nat)
    requires 0 <= p <= n && (forall x :: x in used ==> 0 <= x < n)
    requires (forall q :: 0 <= q < p ==> q in used) && (p < n ==> p !in used)
    ensures p < n <==> |used| < n
  {
    var rest := Below(n) - used;
    assert Below(n) == used + rest;
    if p < n {
      assert p in rest;
    } else {
      assert rest == {};
    }
  }

  lemma SlotIs(order: seq<int>, pool: seq<Slot>, first: int, i: nat)
    requires Linked(order, pool, first) && i < |order|
    ensures Distinct(order) && 0 <= order[i] < TIME_REQUESTS == |pool|
    ensures Contents(order, pool)[i] == Timer(pool[order[i]].jiffies, pool[order[i]].fn)
  {
  }

  lemma SizeIs(order: seq<int>, pool: seq<Slot>, first: int)
    requires Linked(order, pool, first)
    ensures |pool| == TIME_REQUESTS
  {
  }

  /** What the head pointer says about the list. */
  lemma FirstIs(order: seq<int>, pool: seq<Slot>, first: int)
    requires Linked(order, pool, first)
    ensures first == NULL <==> order == []
    ensures order != [] ==>
        first == order[0] && 0 <= first < TIME_REQUESTS == |pool|
        && Contents(order, pool)[0] == Timer(pool[first].jiffies, pool[first].fn)
  {
  }

  /** A free entry p put first. */
  lemma LinkFirst(order: seq<int>, pool: seq<Slot>, first: int, p: int, t: Timer)
    requires Linked(order, pool, first) && 0 <= p < TIME_REQUESTS && p !in order && t.fn != 0
    ensures var pool' := pool[p := Slot(t.delta, t.fn, first)];
            Linked([p] + order, pool', p) && Contents([p] + order, pool') == [t] + Contents(order, pool)
  {
  }

  /** The first entry taken off and marked free. */
  lemma UnlinkFirst(order: seq<int>, pool: seq<Slot>, first: int)
    requires Linked(order, pool, first) && order != []
    ensures var pool' := pool[first := pool[first].(fn := 0)];
            Linked(order[1..], pool', pool[first].next) && Contents(order[1..], pool') == Contents(order, pool)[1..]
  {
    var pool' := pool[first := pool[first].(fn := 0)];
    forall p | 0 <= p < TIME_REQUESTS ensures pool'[p].fn != 0 <==> p in order[1..] {
      assert p in order <==> p == first || p in order[1..];
    }
  }

  /** The list the walk is on its way to, when the new contents have reached entry i. */
  ghost function Settled(l: seq<Timer>, i: nat): seq<Timer>
    requires i < |l|
  {
    l[..i] + Insert(l[i + 1..], l[i])
  }

  lemma SettledFirst(l: seq<Timer>)
    requires l != []
    ensures Settled(l, 0) == Insert(l[1..], l[0])
  {
    assert l[..0] == [] && l[0 + 1..] == l[1..];
  }

  /** One turn of the walk swaps an entry's contents with its successor's, taking the successor's ticks off. */
  lemma SinkStep(was: seq<Timer>, l: seq<Timer>, i: nat)
    requires i + 1 < |was| == |l| && was[i + 1].delta < was[i].delta
    requires l == was[i := was[i + 1]][i + 1 := was[i].(delta := was[i].delta - was[i + 1].delta)]
    ensures Settled(l, i + 1) == Settled(was, i)
  {
    assert was[i + 1..][0] == was[i + 1] && was[i + 1..][1..] == l[i + 2..];
    assert l[..i + 1] == was[..i] + [was[i + 1]];
  }

  ghost predicate Swapped(was: seq<Slot>, pool: seq<Slot>, p: int, n: int) {
    && 0 <= p < |was| && 0 <= n < |was|
    && pool == was[p := Slot(was[n].jiffies, was[n].fn, was[p].next)]
                  [n := Slot(was[p].jiffies - was[n].jiffies, was[p].fn, was[n].next)]
  }

  lemma SinkDone(l: seq<Timer>, i: nat)
    requires i < |l| && (i + 1 < |l| ==> l[i + 1].delta >= l[i].delta)
    ensures Settled(l, i) == l
  {
    assert l == l[..i] + ([l[i]] + l[i + 1..]);
  }

  class TimerList {
    const pool: array<Slot>
    var nextTimer: int
    var halted: bool
    ghost var order: seq<int>        // the linked entries, as indices into the pool
    ghost var now: nat
    ghost var past: seq<Past>
    ghost var log: seq<Event>

    ghost predicate Valid()
      reads this, pool
    {
      Linked(order, pool[..], nextTimer) && |past| == |order|
    }

    ghost function View(): (s: State)
      requires Valid()
      reads this, pool
      ensures |s.list| == |s.past|
    {
      State(now, Contents(order, pool[..]), past, log, halted)
    }

    constructor ()
      ensures Valid() && View() == Boot()
    {
      pool := new Slot[TIME_REQUESTS](_ => Slot(0, 0, NULL));
      nextTimer, halted, order, now, past, log := NULL, false, [], 0, [], [];
    }

    /** The assignments that exchange an entry's contents with its successor's. */
    method Swap(p: int)
      requires pool.Length == TIME_REQUESTS && 0 <= p < TIME_REQUESTS && 0 <= pool[p].next < TIME_REQUESTS
          && pool[p].next != p
      modifies pool
      ensures Swapped(old(pool[..]), pool[..], p, old(pool[p].next))
    {
      var n := pool[p].next;
      pool[p] := pool[p].(jiffies := pool[p].jiffies - pool[n].jiffies);
      var fn := pool[p].fn;
      pool[p] := pool[p].(fn := pool[n].fn);
      pool[n] := pool[n].(fn := fn);
      var jiffies := pool[p].jiffies;
      pool[p] := pool[p].(jiffies := pool[n].jiffies);
      pool[n] := pool[n].(jiffies := jiffies);
    }

    /** One turn of the walk, at entry i of the list. */
    method SwapOne(p: int, ghost i: nat)
      requires Valid() && i + 1 < |order| && p == order[i] && View().list[i + 1].delta < View().list[i].delta
      modifies pool
      ensures Valid() && Settled(View().list, i + 1) == Settled(old(View()).list, i)
      ensures 0 <= p < pool.Length && pool[p].next == order[i + 1]
    {
      hide Linked, Settled, Contents, Swapped, Insert;
      ghost var was := pool[..];
      SlotIs(order, was, nextTimer, i);
      SlotIs(order, was, nextTimer, i + 1);
      NextIs(order, was, nextTimer, i);
      Swap(p);
      SwapLinked(order, was, pool[..], nextTimer, i);
      NextIs(order, pool[..], nextTimer, i);
      SinkStep(Contents(order, was), Contents(order, pool[..]), i);
    }

    /** The condition of the walk: is the successor smaller than what the request has left? */
    predicate Passes(p: int, ghost i: nat)
      requires Valid() && i < |order| && p == order[i]
      reads this, pool
      ensures Passes(p, i) <==> i + 1 < |order| && View().list[i + 1].delta < View().list[i].delta
    {
      NextIs(order, pool[..], nextTimer, i);
      SlotIs(order, pool[..], nextTimer, i);
      pool[p].next != NULL &&
        (SlotIs(order, pool[..], nextTimer, i + 1);
         pool[pool[p].next].jiffies < pool[p].jiffies)
    }

    /** The walk from the first entry: contents move, links do not. */
    method Sink()
      requires Valid() && order != []
      modifies pool
      ensures Valid() && View().list == Insert(old(View()).list[1..], old(View()).list[0])
    {
      hide Insert, Linked, Settled, Contents;
      FirstIs(order, pool[..], nextTimer);
      var p := nextTimer;
      ghost var i := 0;
      SettledFirst(View().list);
      while Passes(p, i)
        invariant 0 <= i < |order| && p == order[i] && Valid()
        invariant Settled(View().list, i) == Settled(old(View()).list, 0)
        decreases |order| - i
      {
        SwapOne(p, i);
        p := pool[p].next;
        i := i + 1;
      }
      SinkDone(View().list, i);
    }

    /** The search for an entry whose function is null; none is past the end. */
    method FindFree() returns (p: int)
      requires Valid()
      ensures 0 <= p <= TIME_REQUESTS && (p < TIME_REQUESTS ==> p !in order)
      ensures p < TIME_REQUESTS <==> |View().list| < TIME_REQUESTS
    {
      p := 0;
      while p < TIME_REQUESTS && pool[p].fn != 0
        invariant 0 <= p <= TIME_REQUESTS && forall q :: 0 <= q < p ==> q in order
      {
        p := p + 1;
      }
      RoomLeft(order, p);
    }

    /** The free entry p filled and put first. */
    method Link(p: int, j: int, f: nat)
      requires Valid() && 0 <= p < TIME_REQUESTS && p !in order && f != 0
      modifies this`nextTimer, this`order, this`past, pool
      ensures Valid() && order != [] && View().list == [Timer(j, f)] + old(View()).list
    {
      hide Linked;
      ghost var was := pool[..];
      LinkFirst(order, was, nextTimer, p, Timer(j, f));
      SizeIs(order, was, nextTimer);
      pool[p] := Slot(j, f, nextTimer);
      assert pool[..] == was[p := Slot(j, f, nextTimer)];
      nextTimer := p;
      order, past := [p] + order, [Past(0, 0)] + past;
    }

    method AddTimer(j: int, f: nat)
      requires Valid()
      modifies this, pool
      ensures Valid() && View() == Add(old(View()), Request(j, f))
    {
      hide Insert, Place, Residual, Linked;
      if halted || f == 0 {
        return;
      }
      if j <= 0 {
        log := log + [Called(f, now)];
        return;
      }
      var p := FindFree();
      if p >= TIME_REQUESTS {
        halted := true;
        return;
      }
      ghost var s := View();
      Link(p, j, f);
      assert View().list[1..] == s.list;
      Sink();
      past := Add(s, Request(j, f)).past;
    }

    /** The function an entry held, making its own calls of add_timer. */
    method CallBack(calls: seq<Request>)
      requires Valid()
      modifies this, pool
      ensures Valid() && View() == AddAll(old(View()), calls)
    {
      hide Add, Linked;
      var i := 0;
      assert calls[0..] == calls;
      while i < |calls|
        invariant 0 <= i <= |calls| && Valid() && AddAll(View(), calls[i..]) == AddAll(old(View()), calls)
      {
        assert calls[i..][1..] == calls[i + 1..];
        AddTimer(calls[i].jiffies, calls[i].fn);
        i := i + 1;
      }
    }

    /** fn taken out of the first entry, and the entry out of the list. */
    method Unlink()
      requires Valid() && order != []
      modifies this`nextTimer, this`order, this`past, this`log, pool
      ensures Valid() && View() == Pop(old(View()))
    {
      ghost var was := pool[..];
      UnlinkFirst(order, was, nextTimer);
      log := log + [Fired(pool[nextTimer].fn, now, past[0].due, past[0].late)];
      pool[nextTimer] := pool[nextTimer].(fn := 0);
      assert pool[..] == was[nextTimer := was[nextTimer].(fn := 0)];
      nextTimer := pool[nextTimer].next;
      order, past := order[1..], past[1..];
    }

    /** The decrement of the first entry. */
    method Count()
      requires Valid() && order != []
      modifies pool
      ensures Valid() && View() == old(View()).(list := Less(old(View()).list))
    {
      pool[nextTimer] := pool[nextTimer].(jiffies := pool[nextTimer].jiffies - 1);
    }

    /** The condition of do_timer's loop. */
    predicate Expired()
      requires Valid()
      reads this, pool
      ensures Expired() <==> View().list != [] && View().list[0].delta <= 0
    {
      FirstIs(order, pool[..], nextTimer);
      nextTimer != NULL && pool[nextTimer].jiffies <= 0
    }

    method DoTimer(calls: seq<seq<Request>>)
      requires Valid() && Positive(View().list)
      modifies this, pool
      ensures Valid() && View() == Tick(old(View()), calls)
    {
      hide AddAll, Linked;
      if halted {
        return;
      }
      FirstIs(order, pool[..], nextTimer);
      now := now + 1;
      if nextTimer == NULL {
        return;
      }
      Count();
      ghost var s := View();
      assert s.list[1..] == old(View()).list[1..];
      var i := 0;
      assert calls[0..] == calls;
      while !halted && Expired()
        invariant 0 <= i && Valid() && Ticked(View().list)
        invariant Drain(View(), calls[if i < |calls| then i else |calls|..]) == Drain(s, calls)
        decreases if Expired() then 1 else 0
      {
        Unlink();
        if i < |calls| {
          assert calls[i..][1..] == calls[i + 1..];
          CallBack(calls[i]);
        }
        i := i + 1;
      }
    }
  }

  lemma NextIs(order: seq<int>, pool: seq<Slot>, first: int, i: nat)
    requires Linked(order, pool, first) && i < |order|
    ensures pool[order[i]].next == if i + 1 < |order| then order[i + 1] else NULL
  {
    if i + 1 < |order| {
      var j := i + 1;
      assert pool[order[i]].next == order[j];
    }
  }

  /** Exchanging contents keeps the links, and swaps two entries of the list. */
  lemma SwapLinked(order: seq<int>, was: seq<Slot>, pool: seq<Slot>, first: int, i: nat)
    requires Linked(order, was, first) && i + 1 < |order|
    requires Swapped(was, pool, order[i], order[i + 1])
    ensures Linked(order, pool, first)
    ensures var l := Contents(order, was);
            Contents(order, pool) == l[i := l[i + 1]][i + 1 := l[i].(delta := l[i].delta - l[i + 1].delta)]
  {
    NextIs(order, was, first, i);
    forall p | 0 <= p < TIME_REQUESTS ensures pool[p].next == was[p].next && (pool[p].fn != 0 <==> p in order) {
    }
  }
}

/**
 The kernel timers of 0.12: a pool of 64 entries linked in the order they expire, each
 holding the ticks left after the entry before it.
*/
module Timers {
  const TIME_REQUESTS: nat := 64

  /** What is in an entry; fn 0 is the null function. */
  datatype Timer = Timer(delta: int, fn: nat)

  ghost predicate Positive(l: seq<Timer>) {
    forall i :: 0 <= i < |l| ==> l[i].delta >= 1
  }

  function Sum(l: seq<Timer>): int
    decreases |l|
  {
    if l == [] then 0 else l[0].delta + Sum(l[1..])
  }

  /** Ticks until entry i expires: the sum of the deltas up to and with its own. */
  function Expiry(l: seq<Timer>, i: nat): int
    requires i < |l|
  {
    Sum(l[..i + 1])
  }

  /** add_timer's walk: past every entry smaller than what is left of the request, which the entry is taken from. */
  function Insert(l: seq<Timer>, t: Timer): (r: seq<Timer>)
    decreases |l|
  {
    if l == [] || l[0].delta >= t.delta then [t] + l
    else [l[0]] + Insert(l[1..], t.(delta := t.delta - l[0].delta))
  }

  /** How many pending timers expire before j ticks from now. */
  function Place(l: seq<Timer>, j: int): (k: nat)
    ensures k <= |l|
    decreases |l|
  {
    if l == [] || l[0].delta >= j then 0 else 1 + Place(l[1..], j - l[0].delta)
  }

  /** What is left of a request after the timers that expire before it. */
  function Residual(l: seq<Timer>, j: int): (r: int)
    ensures j >= 1 ==> r >= 1
    decreases |l|
  {
    if l == [] || l[0].delta >= j then j else Residual(l[1..], j - l[0].delta)
  }

  lemma {:induction false} SumOfTwo(a: seq<Timer>, b: seq<Timer>)
    ensures Sum(a + b) == Sum(a) + Sum(b)
    decreases |a|
  {
    if a == [] {
      assert a + b == b;
    } else {
      assert (a + b)[1..] == a[1..] + b;
      SumOfTwo(a[1..], b);
    }
  }

  lemma {:induction false} SumAtLeast(l: seq<Timer>)
    requires Positive(l)
    ensures Sum(l) >= |l|
    decreases |l|
  {
    if l != [] {
      SumAtLeast(l[1..]);
    }
  }

  lemma ExpiryUp(l: seq<Timer>, i: nat, j: nat)
    requires Positive(l) && i < j < |l|
    ensures 1 <= Expiry(l, i) < Expiry(l, j)
  {
    SumAtLeast(l[..i + 1]);
    SumAtLeast(l[i + 1..j + 1]);
    SumOfTwo(l[..i + 1], l[i + 1..j + 1]);
    assert l[..i + 1] + l[i + 1..j + 1] == l[..j + 1];
  }

  lemma ExpiryFirst(l: seq<Timer>)
    requires l != []
    ensures Expiry(l, 0) == l[0].delta
  {
    var a := l[..0 + 1];
    assert a[0] == l[0] && a[1..] == [];
    assert Sum(a[1..]) == 0;
  }

  lemma ExpiryTail(l: seq<Timer>, i: nat)
    requires 0 < i < |l|
    ensures Expiry(l, i) == l[0].delta + Expiry(l[1..], i - 1)
  {
    assert l[..i + 1][1..] == l[1..][..i];
  }

  /** Place counts exactly the timers that expire sooner. */
  lemma {:induction false} PlaceExact(l: seq<Timer>, j: int, i: nat)
    requires Positive(l) && i < |l|
    ensures i < Place(l, j) <==> Expiry(l, i) < j
    decreases i
  {
    ExpiryFirst(l);
    if i == 0 {
    } else if l[0].delta < j {
      ExpiryTail(l, i);
      PlaceExact(l[1..], j - l[0].delta, i - 1);
    } else {
      ExpiryUp(l, 0, i);
    }
  }

  /** The swapping walk puts one entry in, at its place, and changes no other: not even the successor's delta. */
  lemma {:induction false} InsertForm(l: seq<Timer>, t: Timer)
    ensures var k, r := Place(l, t.delta), Residual(l, t.delta);
            Insert(l, t) == l[..k] + [t.(delta := r)] + l[k..] && Sum(l[..k]) + r == t.delta
    decreases |l|
  {
    if l != [] && l[0].delta < t.delta {
      var t1 := t.(delta := t.delta - l[0].delta);
      InsertForm(l[1..], t1);
      var k := Place(l, t.delta);
      assert l[..k] == [l[0]] + l[1..][..k - 1];
      assert l[..k][1..] == l[1..][..k - 1];
    }
  }

  lemma InsertPositive(l: seq<Timer>, t: Timer)
    requires Positive(l) && t.delta >= 1
    ensures Positive(Insert(l, t))
  {
    InsertForm(l, t);
  }

  /** A new timer expires exactly when asked. */
  lemma InsertExact(l: seq<Timer>, t: Timer)
    ensures Place(l, t.delta) < |Insert(l, t)| && Insert(l, t)[Place(l, t.delta)].fn == t.fn
    ensures Expiry(Insert(l, t), Place(l, t.delta)) == t.delta
  {
    var k, r := Place(l, t.delta), Insert(l, t);
    InsertForm(l, t);
    assert r[..k + 1] == l[..k] + [r[k]];
    SumOfTwo(l[..k], [r[k]]);
  }

  /** Adding a timer leaves the timers ahead of it alone and delays each one behind it by the new entry's delta. */
  lemma InsertShifts(l: seq<Timer>, t: Timer, i: nat)
    requires i < |l|
    ensures var k, r := Place(l, t.delta), Insert(l, t);
            && |r| == |l| + 1
            && (i < k ==> r[i] == l[i] && Expiry(r, i) == Expiry(l, i))
            && (i >= k ==> r[i + 1] == l[i] && Expiry(r, i + 1) == Expiry(l, i) + Residual(l, t.delta))
  {
    var k, r, x := Place(l, t.delta), Insert(l, t), t.(delta := Residual(l, t.delta));
    InsertForm(l, t);
    if i < k {
      assert r[..i + 1] == l[..i + 1];
      return;
    }
    assert r[..i + 2] == l[..k] + ([x] + l[k..i + 1]);
    assert l[..i + 1] == l[..k] + l[k..i + 1];
    SumOfTwo(l[..k], [x] + l[k..i + 1]);
    SumOfTwo([x], l[k..i + 1]);
    SumOfTwo(l[..k], l[k..i + 1]);
  }

  /** The place of entry i once t is in. */
  function Moved(l: seq<Timer>, t: Timer, i: nat): nat {
    if i < Place(l, t.delta) then i else i + 1
  }

  /** The successor's delta is not reduced, so every pending timer keeps its expiry exactly when the new one goes
      last. */
  lemma DelaysNoneIffLast(l: seq<Timer>, t: Timer)
    requires Positive(l) && t.delta >= 1
    ensures |Insert(l, t)| == |l| + 1
    ensures (forall i: nat :: i < |l| ==> Expiry(Insert(l, t), Moved(l, t, i)) == Expiry(l, i))
        <==> (l == [] || Expiry(l, |l| - 1) < t.delta)
  {
    InsertForm(l, t);
    if l == [] {
      return;
    }
    var k, n := Place(l, t.delta), |l| - 1;
    PlaceExact(l, t.delta, n);
    if k > n {
      forall i: nat | i < |l| ensures Expiry(Insert(l, t), Moved(l, t, i)) == Expiry(l, i) {
        InsertShifts(l, t, i);
      }
    } else {
      InsertShifts(l, t, n);
      assert Expiry(Insert(l, t), Moved(l, t, n)) != Expiry(l, n);
    }
  }

  // ------------------------------------------------------------------ history

  /** When a timer was asked to expire, and how much later entries put ahead of it have delayed it. */
  datatype Past = Past(due: int, late: nat)

  /** A timer running out of the list, or one called by add_timer itself. */
  datatype Event = Fired(fn: nat, at: int, due: int, late: nat) | Called(fn: nat, at: int)

  datatype State = State(now: nat, list: seq<Timer>, past: seq<Past>, log: seq<Event>, halted: bool)

  /** A call of add_timer: ticks and function. */
  datatype Request = Request(jiffies: int, fn: nat)

  function Delayed(past: seq<Past>, extra: nat): (r: seq<Past>)
    ensures |r| == |past|
    ensures forall i :: 0 <= i < |past| ==> r[i] == past[i].(late := past[i].late + extra)
  {
    seq(|past|, i requires 0 <= i < |past| => past[i].(late := past[i].late + extra))
  }

  ghost predicate Paired(s: State) {
    |s.list| == |s.past| && Positive(s.list)
  }

  function Add(s: State, q: Request): (s': State)
    requires |s.list| == |s.past|
    ensures |s'.list| == |s'.past| && (Positive(s.list) ==> Positive(s'.list))
  {
    InsertForm(s.list, Timer(q.jiffies, q.fn));
    if s.halted || q.fn == 0 then s
    else if q.jiffies <= 0 then s.(log := s.log + [Called(q.fn, s.now)])
    else if |s.list| >= TIME_REQUESTS then s.(halted := true)
    else
      var k, r := Place(s.list, q.jiffies), Residual(s.list, q.jiffies);
      s.(list := Insert(s.list, Timer(q.jiffies, q.fn)),
         past := s.past[..k] + [Past(s.now + q.jiffies, 0)] + Delayed(s.past[k..], r))
  }

  function AddAll(s: State, qs: seq<Request>): (s': State)
    requires |s.list| == |s.past|
    ensures |s'.list| == |s'.past| && (Positive(s.list) ==> Positive(s'.list))
    decreases |qs|
  {
    if qs == [] then s else AddAll(Add(s, qs[0]), qs[1..])
  }

  /** A history for the list: every entry expires when asked, later by the delays it has had. */
  ghost predicate Accounted(now: nat, list: seq<Timer>, past: seq<Past>)
    requires |list| == |past|
  {
    forall i: nat :: i < |list| ==> now + Expiry(list, i) == past[i].due + past[i].late
  }

  ghost predicate Inv(s: State) {
    && Paired(s) && |s.list| <= TIME_REQUESTS
    && (forall i :: 0 <= i < |s.list| ==> s.list[i].fn != 0)
    && Accounted(s.now, s.list, s.past)
    && (forall i :: 0 <= i < |s.log| && s.log[i].Fired? ==>
        s.log[i].at == s.log[i].due + s.log[i].late && s.log[i].at <= s.now)
    && (forall i, j :: 0 <= i < j < |s.log| && s.log[i].Fired? && s.log[j].Fired? ==> s.log[i].at < s.log[j].at)
  }

  lemma AddAccounted(s: State, q: Request)
    requires Paired(s) && Accounted(s.now, s.list, s.past) && q.jiffies > 0 && q.fn != 0 && !s.halted
        && |s.list| < TIME_REQUESTS
    ensures Accounted(s.now, Add(s, q).list, Add(s, q).past)
  {
    var t := Timer(q.jiffies, q.fn);
    var k, s' := Place(s.list, t.delta), Add(s, q);
    forall i: nat | i < |s'.list|
      ensures s'.now + Expiry(s'.list, i) == s'.past[i].due + s'.past[i].late
    {
      if i < k {
        InsertShifts(s.list, t, i);
      } else if i == k {
        InsertExact(s.list, t);
      } else {
        InsertShifts(s.list, t, i - 1);
      }
    }
  }

  lemma AddInv(s: State, q: Request)
    requires Inv(s)
    ensures Inv(Add(s, q)) && Add(s, q).now == s.now
    ensures s.log <= Add(s, q).log && (forall i :: |s.log| <= i < |Add(s, q).log| ==> Add(s, q).log[i].Called?)
  {
    hide Expiry, Insert, Place, Residual;
    if s.halted || q.fn == 0 || q.jiffies <= 0 || |s.list| >= TIME_REQUESTS {
      return;
    }
    AddAccounted(s, q);
    InsertPositive(s.list, Timer(q.jiffies, q.fn));
    InsertForm(s.list, Timer(q.jiffies, q.fn));
  }

  lemma {:induction false} AddAllInv(s: State, qs: seq<Request>)
    requires Inv(s)
    ensures Inv(AddAll(s, qs)) && AddAll(s, qs).now == s.now
    ensures s.log <= AddAll(s, qs).log && (forall i :: |s.log| <= i < |AddAll(s, qs).log| ==>
        AddAll(s, qs).log[i].Called?)
    decreases |qs|
  {
    if qs != [] {
      AddInv(s, qs[0]);
      AddAllInv(Add(s, qs[0]), qs[1..]);
    }
  }

  // -------------------------------------------------------- in absolute time

  /** A pending timer: its function, the tick it is going to run at, and the tick it was asked for. */
  datatype Alarm = Alarm(fn: nat, at: int, due: int)

  ghost function AlarmAt(s: State, i: nat): Alarm
    requires |s.list| == |s.past| && i < |s.list|
  {
    Alarm(s.list[i].fn, s.now + Expiry(s.list, i), s.past[i].due)
  }

  /** What the list stands for. */
  ghost function Alarms(s: State): (r: seq<Alarm>)
    requires |s.list| == |s.past|
    ensures |r| == |s.list|
  {
    seq(|s.list|, i requires 0 <= i < |s.list| => AlarmAt(s, i))
  }

  function Later(a: seq<Alarm>, extra: int): (r: seq<Alarm>)
    ensures |r| == |a|
    ensures forall i {:trigger r[i]} :: 0 <= i < |a| ==> r[i] == a[i].(at := a[i].at + extra)
  {
    seq(|a|, i requires 0 <= i < |a| => a[i].(at := a[i].at + extra))
  }

  /** The request takes place k: the timers that run sooner are ahead of it, and those behind it are delayed by what
      it lies beyond the last timer ahead. */
  ghost predicate Entered(a: seq<Alarm>, now: int, q: Request, k: nat, b: seq<Alarm>) {
    var tick := now + q.jiffies;
    && k <= |a|
    && (forall i :: 0 <= i < |a| ==> (i < k <==> a[i].at < tick))
    && b == a[..k] + [Alarm(q.fn, tick, tick)] + Later(a[k..], tick - if k == 0 then now else a[k - 1].at)
  }

  lemma ResidualIs(l: seq<Timer>, j: int)
    requires j >= 1
    ensures var k := Place(l, j);
            Residual(l, j) == j - (if k == 0 then 0 else Expiry(l, k - 1)) && Residual(l, j) >= 1
  {
    hide Place, Residual;
    InsertForm(l, Timer(j, 0));
  }

  /** One alarm of the new list. */
  lemma AddAlarm(s: State, q: Request, i: nat)
    requires Inv(s) && !s.halted && q.fn != 0 && q.jiffies > 0 && |s.list| < TIME_REQUESTS && i <= |s.list|
    ensures |Add(s, q).list| == |s.list| + 1
    ensures var k := Place(s.list, q.jiffies);
            AlarmAt(Add(s, q), i) ==
              if i < k then AlarmAt(s, i)
              else if i == k then Alarm(q.fn, s.now + q.jiffies, s.now + q.jiffies)
              else AlarmAt(s, i - 1).(at := AlarmAt(s, i - 1).at + Residual(s.list, q.jiffies))
  {
    hide Expiry, Insert, Place, Residual, Accounted;
    var t := Timer(q.jiffies, q.fn);
    InsertForm(s.list, t);
    if i < Place(s.list, q.jiffies) {
      InsertShifts(s.list, t, i);
    } else if i == Place(s.list, q.jiffies) {
      InsertExact(s.list, t);
    } else {
      InsertShifts(s.list, t, i - 1);
    }
  }

  lemma AddEnters(s: State, q: Request)
    requires Inv(s) && !s.halted && q.fn != 0 && q.jiffies > 0 && |s.list| < TIME_REQUESTS
    ensures Entered(Alarms(s), s.now, q, Place(s.list, q.jiffies), Alarms(Add(s, q)))
  {
    hide Add, Inv, Place, Residual, Expiry, AlarmAt;
    PairedOf(s);
    var k, r := Place(s.list, q.jiffies), Residual(s.list, q.jiffies);
    AddAlarm(s, q, 0);
    ResidualIs(s.list, q.jiffies);
    var a, b, x := Alarms(s), Alarms(Add(s, q)), Alarm(q.fn, s.now + q.jiffies, s.now + q.jiffies);
    SoonerIs(s, q.jiffies);
    forall i | 0 <= i < |b|
      ensures b[i] == (a[..k] + [x] + Later(a[k..], r))[i]
    {
      AddAlarm(s, q, i);
    }
    assert b == a[..k] + [x] + Later(a[k..], r);
  }

  lemma SoonerIs(s: State, j: int)
    requires Paired(s)
    ensures var k, a := Place(s.list, j), Alarms(s);
            && (forall i :: 0 <= i < |a| ==> (i < k <==> a[i].at < s.now + j))
            && (k > 0 ==> a[k - 1].at == s.now + Expiry(s.list, k - 1))
  {
    hide Place, Expiry;
    forall i | 0 <= i < |s.list|
      ensures i < Place(s.list, j) <==> AlarmAt(s, i).at < s.now + j
    {
      PlaceExact(s.list, j, i);
    }
  }

  lemma PairedOf(s: State)
    requires Inv(s)
    ensures Paired(s) && |s.list| <= TIME_REQUESTS
  {
  }

  /** add_timer: a request that is due is called at once, one that finds no free entry stops the kernel, and any other
      is entered to run when asked. */
  lemma AddExact(s: State, q: Request)
    requires Inv(s) && !s.halted && q.fn != 0
    ensures var s' := Add(s, q);
            if q.jiffies <= 0 then s' == s.(log := s.log + [Called(q.fn, s.now)])
            else if |s.list| == TIME_REQUESTS then s' == s.(halted := true)
            else && s' == s.(list := s'.list, past := s'.past)
                 && exists k: nat :: Entered(Alarms(s), s.now, q, k, Alarms(s'))
  {
    hide Entered, Alarms;
    if q.jiffies > 0 && |s.list| < TIME_REQUESTS {
      AddEnters(s, q);
    }
  }

  // ------------------------------------------------------------------ the tick

  /** The list between the decrement of its head and the loop that runs the expired entries. */
  ghost predicate Ticked(l: seq<Timer>) {
    l == [] || (l[0].delta >= 0 && Positive(l[1..]))
  }

  function Pop(s: State): (s': State)
    requires |s.list| == |s.past| && s.list != []
    ensures |s'.list| == |s'.past|
  {
    s.(list := s.list[1..], past := s.past[1..],
       log := s.log + [Fired(s.list[0].fn, s.now, s.past[0].due, s.past[0].late)])
  }

  /** do_timer's loop; calls[i] are the calls of add_timer made by the i-th function it runs. */
  function Drain(s: State, calls: seq<seq<Request>>): (s': State)
    requires |s.list| == |s.past| && Ticked(s.list)
    ensures |s'.list| == |s'.past|
    decreases if s.list != [] && s.list[0].delta <= 0 then 1 else 0
  {
    if s.halted || s.list == [] || s.list[0].delta > 0 then s
    else if calls == [] then Drain(Pop(s), calls)
    else Drain(AddAll(Pop(s), calls[0]), calls[1..])
  }

  function Tick(s: State, calls: seq<seq<Request>>): (s': State)
    requires |s.list| == |s.past| && Positive(s.list)
    ensures |s'.list| == |s'.past|
  {
    if s.halted then s
    else if s.list == [] then s.(now := s.now + 1)
    else Drain(s.(now := s.now + 1, list := s.list[0 := s.list[0].(delta := s.list[0].delta - 1)]), calls)
  }

  /** One tick later, the rest of the list once its head has run out. */
  lemma TailAccounted(now: nat, list: seq<Timer>, past: seq<Past>)
    requires |list| == |past| && Accounted(now, list, past) && list != [] && list[0].delta == 1
    ensures Accounted(now + 1, list[1..], past[1..]) && now + 1 == past[0].due + past[0].late
  {
    ExpiryFirst(list);
    forall i: nat | i < |list| - 1 ensures now + 1 + Expiry(list[1..], i) == past[1..][i].due + past[1..][i].late {
      ExpiryTail(list, i + 1);
      assert now + Expiry(list, i + 1) == past[i + 1].due + past[i + 1].late;
    }
  }

  function Less(l: seq<Timer>): (r: seq<Timer>)
    requires l != []
  {
    l[0 := l[0].(delta := l[0].delta - 1)]
  }

  lemma LessExpiry(l: seq<Timer>, i: nat)
    requires i < |l|
    ensures Expiry(Less(l), i) == Expiry(l, i) - 1
  {
    assert Less(l)[..i + 1][1..] == l[..i + 1][1..];
  }

  lemma LessAccounted(now: nat, list: seq<Timer>, past: seq<Past>)
    requires |list| == |past| && Accounted(now, list, past) && list != []
    ensures Accounted(now + 1, Less(list), past)
  {
    forall i: nat | i < |list| ensures now + 1 + Expiry(Less(list), i) == past[i].due + past[i].late {
      LessExpiry(list, i);
    }
  }

  /** What a tick does when nothing is added by the functions it runs: its head runs if it had one tick left. */
  function Plain(s: State): State
    requires |s.list| == |s.past|
  {
    var s1 := s.(now := s.now + 1);
    if s.list == [] then s1
    else if s.list[0].delta > 1 then s1.(list := Less(s.list))
    else Pop(s1)
  }

  lemma TickIs(s: State, calls: seq<seq<Request>>)
    requires Paired(s) && !s.halted
    ensures Tick(s, calls) == if s.list != [] && s.list[0].delta == 1
        && calls != [] then AddAll(Plain(s), calls[0]) else Plain(s)
  {
    if s.list == [] || s.list[0].delta > 1 {
      return;
    }
    var s1 := s.(now := s.now + 1, list := Less(s.list));
    assert s1.list[1..] == s.list[1..];
    assert Pop(s1) == Pop(s.(now := s.now + 1));
    if calls == [] {
      assert Drain(Pop(s1), calls) == Pop(s1);
    } else {
      var s2 := AddAll(Pop(s1), calls[0]);
      assert Drain(s2, calls[1..]) == s2;
    }
  }

  lemma PlainInv(s: State)
    requires Inv(s)
    ensures Inv(Plain(s))
  {
    hide Expiry;
    if s.list == [] {
      return;
    }
    if s.list[0].delta > 1 {
      LessAccounted(s.now, s.list, s.past);
    } else {
      TailAccounted(s.now, s.list, s.past);
    }
  }

  /** At most one timer runs out in a tick, whatever the functions it calls add: the first event is it, the rest are
      calls made at once. */
  lemma TickInv(s: State, calls: seq<seq<Request>>)
    requires Inv(s)
    ensures Inv(Tick(s, calls)) && s.log <= Tick(s, calls).log
    ensures forall i :: |s.log| < i < |Tick(s, calls).log| ==> Tick(s, calls).log[i].Called?
    ensures |Tick(s, calls).log| > |s.log| <==> !s.halted && s.list != [] && s.list[0].delta == 1
    ensures |Tick(s, calls).log| > |s.log| ==>
              Tick(s, calls).log[|s.log|] == Fired(s.list[0].fn, s.now + 1, s.past[0].due, s.past[0].late)
  {
    hide Expiry, Drain, AddAll, Accounted;
    if s.halted {
      return;
    }
    TickIs(s, calls);
    PlainInv(s);
    if s.list != [] && s.list[0].delta == 1 && calls != [] {
      AddAllInv(Plain(s), calls[0]);
    }
  }

  /** A tick runs the first alarm if it is for that tick, and moves no other. */
  lemma TickExact(s: State)
    requires Inv(s) && !s.halted
    ensures var a, s' := Alarms(s), Tick(s, []);
            && s'.now == s.now + 1 && |s'.list| == |s'.past| && !s'.halted
            && (if a != [] && a[0].at == s'.now then
                  Alarms(s') == a[1..] && s'.log == s.log + [Fired(a[0].fn, s'.now, a[0].due, s.past[0].late)]
                else Alarms(s') == a && s'.log == s.log)
  {
    hide Expiry;
    PairedOf(s);
    TickIs(s, []);
    var a, s' := Alarms(s), Plain(s);
    if s.list == [] {
      return;
    }
    ExpiryFirst(s.list);
    forall i: nat | i < |s'.list|
      ensures s.list[0].delta > 1 ==> AlarmAt(s', i) == a[i]
      ensures s.list[0].delta == 1 ==> AlarmAt(s', i) == a[i + 1]
    {
      if s.list[0].delta > 1 {
        LessExpiry(s.list, i);
      } else {
        ExpiryTail(s.list, i + 1);
      }
    }
    assert Alarms(s') == if s.list[0].delta > 1 then a else a[1..];
  }

  // ------------------------------------------------- requests and their calls

  /** A call a request stands for: at the tick it asks for, or at once. */
  datatype Promise = InTime(fn: nat, tick: int) | AtOnce(fn: nat, tick: int)

  /** The requests add_timer accepts, as calls: all but a null function, and none once the kernel has stopped. */
  ghost function Accepted(s: State, q: Request): multiset<Promise>
    requires |s.list| == |s.past|
  {
    if s.halted || q.fn == 0 then multiset{}
    else if q.jiffies <= 0 then multiset{AtOnce(q.fn, s.now)}
    else if |s.list| == TIME_REQUESTS then multiset{}
    else multiset{InTime(q.fn, s.now + q.jiffies)}
  }

  ghost function AcceptedAll(s: State, qs: seq<Request>): multiset<Promise>
    requires |s.list| == |s.past|
    decreases |qs|
  {
    if qs == [] then multiset{} else Accepted(s, qs[0]) + AcceptedAll(Add(s, qs[0]), qs[1..])
  }

  /** The call an event was. */
  function CallOf(e: Event): Promise {
    match e
    case Fired(fn, _, due, _) => InTime(fn, due)
    case Called(fn, at) => AtOnce(fn, at)
  }

  ghost function CallsMade(log: seq<Event>): (r: seq<Promise>)
    ensures |r| == |log|
  {
    seq(|log|, i requires 0 <= i < |log| => CallOf(log[i]))
  }

  ghost function CallsToMake(s: State): (r: seq<Promise>)
    requires |s.list| == |s.past|
    ensures |r| == |s.list|
  {
    seq(|s.list|, i requires 0 <= i < |s.list| => InTime(s.list[i].fn, s.past[i].due))
  }

  /** All calls, made and to be made. */
  ghost function Calls(s: State): multiset<Promise>
    requires |s.list| == |s.past|
  {
    multiset(CallsMade(s.log)) + multiset(CallsToMake(s))
  }

  lemma OneMore(c: seq<Promise>, k: nat, x: Promise)
    requires k <= |c|
    ensures multiset(c[..k] + [x] + c[k..]) == multiset(c) + multiset{x}
  {
    assert c == c[..k] + c[k..];
  }

  lemma EnteredCalls(s: State, q: Request)
    requires |s.list| == |s.past| < TIME_REQUESTS && !s.halted && q.fn != 0 && q.jiffies > 0
    ensures multiset(CallsToMake(Add(s, q))) == multiset(CallsToMake(s)) + multiset{InTime(q.fn, s.now + q.jiffies)}
  {
    CallsEntered(s, q);
    hide Insert, Residual, Place, Positive, CallsToMake, Add;
    OneMore(CallsToMake(s), Place(s.list, q.jiffies), InTime(q.fn, s.now + q.jiffies));
  }

  lemma CallsEntered(s: State, q: Request)
    requires |s.list| == |s.past| < TIME_REQUESTS && !s.halted && q.fn != 0 && q.jiffies > 0
    ensures var k, c := Place(s.list, q.jiffies), CallsToMake(s);
            CallsToMake(Add(s, q)) == c[..k] + [InTime(q.fn, s.now + q.jiffies)] + c[k..]
  {
    hide Insert, Residual, Place, Positive;
    InsertForm(s.list, Timer(q.jiffies, q.fn));
    var k, c, s' := Place(s.list, q.jiffies), CallsToMake(s), Add(s, q);
    forall i: nat | i < |s'.list|
      ensures i < k ==> s'.list[i].fn == s.list[i].fn && s'.past[i].due == s.past[i].due
      ensures i == k ==> s'.list[i].fn == q.fn && s'.past[i].due == s.now + q.jiffies
      ensures i > k ==> s'.list[i].fn == s.list[i - 1].fn && s'.past[i].due == s.past[i - 1].due
    {
    }
  }

  lemma AddCalls(s: State, q: Request)
    requires |s.list| == |s.past| <= TIME_REQUESTS
    ensures Calls(Add(s, q)) == Calls(s) + Accepted(s, q)
  {
    hide Insert, Residual, Place;
    var s' := Add(s, q);
    if s.halted || q.fn == 0 {
    } else if q.jiffies <= 0 {
      assert CallsMade(s'.log) == CallsMade(s.log) + [AtOnce(q.fn, s.now)];
      assert CallsToMake(s') == CallsToMake(s);
    } else if |s.list| == TIME_REQUESTS {
      assert CallsToMake(s') == CallsToMake(s);
    } else {
      EnteredCalls(s, q);
    }
  }

  lemma {:induction false} AddAllCalls(s: State, qs: seq<Request>)
    requires Inv(s)
    ensures Calls(AddAll(s, qs)) == Calls(s) + AcceptedAll(s, qs)
    decreases |qs|
  {
    hide Calls, Accepted, Add, Inv;
    PairedOf(s);
    if qs != [] {
      AddInv(s, qs[0]);
      AddCalls(s, qs[0]);
      PairedOf(Add(s, qs[0]));
      AddAllCalls(Add(s, qs[0]), qs[1..]);
    }
  }

  lemma PlainCalls(s: State)
    requires Inv(s)
    ensures Calls(Plain(s)) == Calls(s)
  {
    hide Accounted;
    var s', c := Plain(s), CallsToMake(s);
    if s.list != [] && s.list[0].delta == 1 {
      assert CallsToMake(s') == c[1..];
      assert CallsMade(s'.log) == CallsMade(s.log) + [c[0]];
      assert c == [c[0]] + c[1..];
    } else {
      assert CallsToMake(s') == c;
    }
  }

  // --------------------------------------------------------------------- runs

  datatype Step = AddTimer(q: Request) | DoTimer(calls: seq<seq<Request>>)

  function Next(s: State, step: Step): (s': State)
    requires |s.list| == |s.past| && Positive(s.list)
    ensures |s'.list| == |s'.past|
  {
    match step
    case AddTimer(q) => Add(s, q)
    case DoTimer(calls) => Tick(s, calls)
  }

  ghost function Run(s: State, steps: seq<Step>): State
    requires Inv(s)
    decreases |steps|
  {
    if steps == [] then s
    else
      NextInv(s, steps[0]);
      Run(Next(s, steps[0]), steps[1..])
  }

  lemma NextInv(s: State, step: Step)
    requires Inv(s)
    ensures Inv(Next(s, step)) && s.log <= Next(s, step).log
  {
    match step {
      case AddTimer(q) => AddInv(s, q);
      case DoTimer(calls) => TickInv(s, calls);
    }
  }

  function Boot(): State {
    State(0, [], [], [], false)
  }

  /** The requests a step accepts; those of a tick are made by the function it runs. */
  ghost function Asks(s: State, step: Step): multiset<Promise>
    requires Inv(s)
  {
    match step
    case AddTimer(q) => Accepted(s, q)
    case DoTimer(calls) =>
      if !s.halted && s.list != [] && s.list[0].delta == 1 && calls != [] then AcceptedAll(Plain(s), calls[0])
      else multiset{}
  }

  ghost function AllAsked(s: State, steps: seq<Step>): multiset<Promise>
    requires Inv(s)
    decreases |steps|
  {
    if steps == [] then multiset{}
    else
      NextInv(s, steps[0]);
      Asks(s, steps[0]) + AllAsked(Next(s, steps[0]), steps[1..])
  }

  lemma HaltedTick(s: State, calls: seq<seq<Request>>)
    requires Paired(s) && s.halted
    ensures Tick(s, calls) == s
  {
  }

  lemma NextCalls(s: State, step: Step)
    requires Inv(s)
    ensures |Next(s, step).list| == |Next(s, step).past| && Calls(Next(s, step)) == Calls(s) + Asks(s, step)
  {
    hide Calls, Accounted, Add, AddAll, Tick, AcceptedAll, Inv;
    PairedOf(s);
    match step {
      case AddTimer(q) => AddCalls(s, q);
      case DoTimer(calls) =>
        if s.halted {
          HaltedTick(s, calls);
        } else {
          TickIs(s, calls);
          PlainInv(s);
          PlainCalls(s);
          if calls != [] {
            AddAllCalls(Plain(s), calls[0]);
          }
        }
    }
  }

  /** Over any run the calls made and still to be made are those that were asked for in it, each once, with the tick it
      was asked for; no timer runs out early: each does at that tick plus the delays put on it, and no two in one
      tick. */
  lemma {:induction false} NoneFiresEarly(s: State, steps: seq<Step>)
    requires Inv(s)
    ensures var s' := Run(s, steps);
            && Inv(s')
            && (forall i :: 0 <= i < |s'.log| && s'.log[i].Fired? ==>
                s'.log[i].due <= s'.log[i].at == s'.log[i].due + s'.log[i].late)
            && (forall i, j :: 0 <= i < j < |s'.log| && s'.log[i].Fired? && s'.log[j].Fired? ==>
                s'.log[i].at < s'.log[j].at)
            && Calls(s') == Calls(s) + AllAsked(s, steps)
    decreases |steps|
  {
    hide Calls, Accounted, Next, Asks;
    if steps != [] {
      NextInv(s, steps[0]);
      NextCalls(s, steps[0]);
      NoneFiresEarly(Next(s, steps[0]), steps[1..]);
    }
  }

  lemma BootInv()
    ensures Inv(Boot()) && Calls(Boot()) == multiset{}
  {
  }

  /** n ticks in which no timer is added. */
  ghost function Quiet(s: State, n: nat): State
    requires Inv(s)
    decreases n
  {
    if n == 0 then s
    else
      TickInv(s, []);
      Quiet(Tick(s, []), n - 1)
  }

  /** The rest are n ticks nearer. */
  ghost predicate Nearer(l: seq<Timer>, l': seq<Timer>, n: nat, k: nat) {
    |l'| + k == |l| && forall i: nat :: i < |l'| ==> l'[i].fn == l[k + i].fn && Expiry(l', i) == Expiry(l, k + i) - n
  }

  /** What n quiet ticks come to: the first k timers have run out, in order and each at its expiry. */
  ghost predicate Elapsed(s: State, s': State, n: nat, k: nat)
    requires |s.list| == |s.past| && k <= |s.list|
  {
    && s'.now == s.now + n && s'.past == s.past[k..] && |s'.log| == |s.log| + k && s.log <= s'.log
    && Nearer(s.list, s'.list, n, k)
    && (forall j: nat :: j < k ==> s'.log[|s.log| + j] == Ran(s, j))
  }

  ghost function Ran(s: State, j: nat): Event
    requires |s.list| == |s.past| && j < |s.list|
  {
    Fired(s.list[j].fn, s.now + Expiry(s.list, j), s.past[j].due, s.past[j].late)
  }

  /** Every timer that expires within n ticks does run, in n ticks without additions, and exactly then. */
  lemma {:induction false} QuietElapses(s: State, n: nat)
    requires Inv(s) && !s.halted
    ensures Elapsed(s, Quiet(s, n), n, Place(s.list, n + 1))
    decreases n
  {
    if n == 0 {
      if s.list != [] {
        assert Place(s.list, 1) == 0;
      }
      return;
    }
    TickIs(s, []);
    TickInv(s, []);
    QuietElapses(Plain(s), n - 1);
    OneElapses(s, Quiet(Plain(s), n - 1), n);
  }

  lemma OneElapses(s: State, s': State, n: nat)
    requires Inv(s) && n > 0 && Elapsed(Plain(s), s', n - 1, Place(Plain(s).list, n))
    ensures Elapsed(s, s', n, Place(s.list, n + 1))
  {
    if s.list == [] {
    } else if s.list[0].delta > 1 {
      LessElapses(s, s', n);
    } else {
      PopElapses(s, s', n);
    }
  }

  lemma LessElapses(s: State, s': State, n: nat)
    requires Paired(s) && s.list != [] && s.list[0].delta > 1 && n > 0
        && Elapsed(Plain(s), s', n - 1, Place(Plain(s).list, n))
    ensures Elapsed(s, s', n, Place(s.list, n + 1))
  {
    hide Expiry;
    var s1, l, k := Plain(s), s.list, Place(s.list, n + 1);
    assert l[1..] == s1.list[1..];
    assert Place(s1.list, n) == k;
    forall i: nat | i < |s'.list| ensures s'.list[i].fn == l[k + i].fn && Expiry(s'.list, i) == Expiry(l, k + i) - n {
      LessExpiry(l, k + i);
    }
    forall j: nat | j < k ensures s'.log[|s.log| + j] == Ran(s, j) {
      LessExpiry(l, j);
      assert s'.log[|s1.log| + j] == Ran(s1, j);
    }
  }

  lemma PopElapses(s: State, s': State, n: nat)
    requires Paired(s) && s.list != [] && s.list[0].delta == 1 && n > 0
        && Elapsed(Plain(s), s', n - 1, Place(Plain(s).list, n))
    ensures Elapsed(s, s', n, Place(s.list, n + 1))
  {
    hide Expiry;
    var s1, l, k := Plain(s), s.list, Place(s.list, n + 1);
    assert Place(s1.list, n) == k - 1;
    ExpiryFirst(l);
    assert s1.past[k - 1..] == s.past[k..];
    forall i: nat | i < |s'.list| ensures s'.list[i].fn == l[k + i].fn && Expiry(s'.list, i) == Expiry(l, k + i) - n {
      ExpiryTail(l, k + i);
      assert s'.list[i].fn == s1.list[k - 1 + i].fn;
    }
    forall j: nat | j < k ensures s'.log[|s.log| + j] == Ran(s, j) {
      if j == 0 {
        assert s1.log[|s.log|] == Ran(s, 0);
      } else {
        ExpiryTail(l, j);
        assert s'.log[|s1.log| + (j - 1)] == Ran(s1, j - 1);
      }
    }
  }
}

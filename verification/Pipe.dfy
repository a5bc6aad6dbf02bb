/**
 The pipe of 0.12: a ring of 4096 bytes between one reader and one writer. Each step is
 what one of them does between two sleeps; sent and received are the history of all
 bytes accepted and delivered.
*/
module Pipe {
  newtype Byte = x: int | 0 <= x < 256

  const PAGE_SIZE: nat := 4096

  /** A process at its end of the pipe: outside a call (with the last call's result), running in one, or asleep in
      one. */
  datatype Reader = Reading(left: nat, read: nat) | ReadWait(left: nat, read: nat) | ReadIdle(res: int)
  datatype Writer = Writing(rest: seq<Byte>, written: nat) | WriteWait(rest: seq<Byte>, written: nat)
      | WriteIdle(res: int)

  datatype State = State(
    page: seq<Byte>, head: nat, tail: nat,
    r: Reader, w: Writer,
    both: bool,              // i_count is 2
    signal: bool,            // the reader has a signal pending
    sent: seq<Byte>, received: seq<Byte>)

  predicate Shape(s: State) {
    |s.page| == PAGE_SIZE && s.head < PAGE_SIZE && s.tail < PAGE_SIZE
  }

  /** PIPE_SIZE. */
  function Size(head: nat, tail: nat): (n: nat)
    requires head < 4096 && tail < 4096
    ensures n < 4096 && (n == 0 <==> head == tail)
  {
    (head - tail + 4096) % 4096
  }

  /** The bytes between tail and head. */
  function Ring(page: seq<Byte>, head: nat, tail: nat): (r: seq<Byte>)
    requires |page| == 4096 && head < 4096 && tail < 4096
    ensures |r| == Size(head, tail)
  {
    if tail <= head then page[tail..head] else page[tail..] + page[..head]
  }

  function Min(a: nat, b: nat): nat {
    if a < b then a else b
  }

  /** Moving an index forward, masked with PAGE_SIZE - 1. */
  function Forward(i: nat, n: nat): (j: nat)
    requires i + n <= 4096
    ensures j < 4096 && (i + n < 4096 ==> j == i + n) && (i + n == 4096 ==> j == 0)
  {
    (i + n) % 4096
  }

  /** Taking n bytes at the tail takes the first n of the ring. */
  lemma RingTake(page: seq<Byte>, head: nat, tail: nat, n: nat)
    requires |page| == 4096 && head < 4096 && tail < 4096 && n <= Size(head, tail) && tail + n <= 4096
    ensures page[tail..tail + n] == Ring(page, head, tail)[..n]
    ensures Ring(page, head, Forward(tail, n)) == Ring(page, head, tail)[n..]
  {
    hide Forward;
    var ring := Ring(page, head, tail);
    if tail <= head {
      assert page[tail..tail + n] == ring[..n];
      assert page[tail + n..head] == ring[n..];
    } else if tail + n < 4096 {
      assert page[tail + n..] + page[..head] == ring[n..];
    } else {
      assert page[..head] == ring[n..];
    }
  }

  /** The page once b has been stored from index at on. */
  function Stored(page: seq<Byte>, at: nat, b: seq<Byte>): (p: seq<Byte>)
    requires at + |b| <= |page|
    ensures |p| == |page|
  {
    page[..at] + b + page[at + |b|..]
  }

  /** Storing at the head, within the room left, appends to the ring and touches nothing unread. */
  lemma RingPut(page: seq<Byte>, head: nat, tail: nat, b: seq<Byte>)
    requires |page| == 4096 && head < 4096 && tail < 4096 && |b| + Size(head, tail) <= 4095 && head + |b| <= 4096
    ensures Ring(Stored(page, head, b), Forward(head, |b|), tail) == Ring(page, head, tail) + b
  {
    hide Forward;
    var p := Stored(page, head, b);
    if tail <= head {
      assert p[tail..head + |b|] == page[tail..head] + b;
      assert p[tail..] == if head + |b| == 4096 then page[tail..head] + b else p[tail..];
    } else {
      assert p[tail..] + p[..head + |b|] == page[tail..] + page[..head] + b;
    }
  }

  // ------------------------------------------------------------------ the code

  function WakeWriter(s: State): State {
    if s.w.WriteWait? then s.(w := Writing(s.w.rest, s.w.written)) else s
  }

  function WakeReader(s: State): State {
    if s.r.ReadWait? then s.(r := Reading(s.r.left, s.r.read)) else s
  }

  /** How many bytes one turn of read_pipe takes. */
  function ReadChars(s: State): (n: nat)
    requires Shape(s) && s.r.Reading?
    ensures s.r.left > 0 && s.head != s.tail ==> n > 0
    ensures n <= s.r.left && n <= Size(s.head, s.tail) && s.tail + n <= 4096
  {
    Min(Min(4096 - s.tail, s.r.left), Size(s.head, s.tail))
  }

  function ReadTurn(s: State): (s': State)
    requires Shape(s) && s.r.Reading?
    ensures Shape(s') && s'.r.Reading? && s'.r.left == s.r.left - ReadChars(s)
  {
    var n := ReadChars(s);
    s.(tail := Forward(s.tail, n), received := s.received + s.page[s.tail..s.tail + n],
        r := Reading(s.r.left - n, s.r.read + n))
  }

  /** read_pipe up to its return or its sleep. */
  function ReadRun(s: State): (s': State)
    requires Shape(s) && s.r.Reading?
    ensures Shape(s')
    decreases s.r.left
  {
    if s.r.left == 0 then WakeWriter(s).(r := ReadIdle(s.r.read))
    else if Size(s.head, s.tail) == 0 then
      var s1 := WakeWriter(s);
      if !s1.both then s1.(r := ReadIdle(s1.r.read))
      else if s1.signal then s1.(r := ReadIdle(if s1.r.read > 0 then s1.r.read else -512))
      else s1.(r := ReadWait(s1.r.left, s1.r.read))
    else ReadRun(ReadTurn(s))
  }

  function WriteChars(s: State): (n: nat)
    requires Shape(s) && s.w.Writing?
    ensures s.w.rest != [] && Size(s.head, s.tail) < 4095 ==> n > 0
    ensures n <= |s.w.rest| && n + Size(s.head, s.tail) <= 4095 && s.head + n <= 4096
  {
    Min(Min(4096 - s.head, |s.w.rest|), 4095 - Size(s.head, s.tail))
  }

  function WriteTurn(s: State): (s': State)
    requires Shape(s) && s.w.Writing?
    ensures Shape(s') && s'.w.Writing? && |s'.w.rest| == |s.w.rest| - WriteChars(s)
  {
    var n := WriteChars(s);
    s.(head := Forward(s.head, n), page := Stored(s.page, s.head, s.w.rest[..n]),
       sent := s.sent + s.w.rest[..n], w := Writing(s.w.rest[n..], s.w.written + n))
  }

  /** write_pipe up to its return or its sleep. */
  function WriteRun(s: State): (s': State)
    requires Shape(s) && s.w.Writing?
    ensures Shape(s')
    decreases |s.w.rest|
  {
    if s.w.rest == [] then WakeReader(s).(w := WriteIdle(s.w.written))
    else if 4095 - Size(s.head, s.tail) == 0 then
      var s1 := WakeReader(s);
      if !s1.both then s1.(w := WriteIdle(if s1.w.written > 0 then s1.w.written else -1))
      else s1.(w := WriteWait(s1.w.rest, s1.w.written))
    else WriteRun(WriteTurn(s))
  }

  // ---------------------------------------------------------------- invariant

  /** What is sent and not yet received is exactly the ring; an end sleeps only while it can do nothing,
      the other end is still there and, for the reader, no signal is pending. */
  ghost predicate Inv(s: State) {
    && Shape(s)
    && s.sent == s.received + Ring(s.page, s.head, s.tail)
    && (s.r.ReadWait? ==> s.head == s.tail && s.r.left > 0 && s.both && !s.signal)
    && (s.w.WriteWait? ==> Size(s.head, s.tail) == 4095 && s.both)
  }

  lemma NotBothAsleep(s: State)
    requires Inv(s)
    ensures !(s.r.ReadWait? && s.w.WriteWait?)
  {
  }

  /** During a run of the reader its own sleep is not yet decided, and the writer may still sleep on a ring no longer
      full. */
  ghost predicate Flowing(s: State) {
    Shape(s) && s.sent == s.received + Ring(s.page, s.head, s.tail)
  }

  lemma ReadTurnInv(s: State)
    requires Flowing(s) && s.r.Reading?
    ensures Flowing(ReadTurn(s)) && ReadTurn(s).w == s.w && ReadTurn(s).both == s.both && ReadTurn(s).signal == s.signal
    ensures ReadTurn(s).received == s.received + Ring(s.page, s.head, s.tail)[..ReadChars(s)]
        && ReadTurn(s).sent == s.sent
    ensures |ReadTurn(s).received| - ReadTurn(s).r.read == |s.received| - s.r.read
  {
    hide Ring, Forward, Size;
    var n := ReadChars(s);
    var ring := Ring(s.page, s.head, s.tail);
    RingTake(s.page, s.head, s.tail, n);
    assert ring == ring[..n] + ring[n..];
    assert s.received + ring == (s.received + ring[..n]) + ring[n..];
  }

  /** What one stretch of read_pipe does: delivers the next bytes in order; returns short only if the writer is gone or
      a signal came, and then the number of bytes, but -ERESTARTSYS if a signal came before the first. */
  ghost predicate ReadDone(s: State, s': State)
    requires s.r.Reading?
  {
    && Inv(s') && s'.sent == s.sent && s.received <= s'.received && !s'.w.WriteWait? && s'.both == s.both
    && (s'.r.ReadIdle? || s'.r.ReadWait?)
    && (s'.r.ReadWait? ==>
        s'.r.read + s'.r.left == s.r.read + s.r.left && |s'.received| - |s.received| == s'.r.read - s.r.read)
    && (s'.r.ReadIdle? ==>
          var n := |s'.received| - |s.received|;
          && s'.r.res == (if n < s.r.left && s.both && s.r.read + n == 0 then -512 else s.r.read + n)
          && (n < s.r.left ==> s'.head == s'.tail && (!s.both || s.signal)) && n <= s.r.left)
  }

  lemma {:induction false} ReadRunInv(s: State)
    requires Flowing(s) && s.r.Reading?
    ensures ReadDone(s, ReadRun(s))
    decreases s.r.left
  {
    if s.r.left > 0 && Size(s.head, s.tail) != 0 {
      ReadTurnInv(s);
      ReadRunInv(ReadTurn(s));
    }
  }

  lemma WriteTurnInv(s: State)
    requires Flowing(s) && s.w.Writing?
    ensures Flowing(WriteTurn(s)) && WriteTurn(s).r == s.r && WriteTurn(s).both == s.both
        && WriteTurn(s).received == s.received
    ensures WriteTurn(s).sent == s.sent + s.w.rest[..WriteChars(s)]
    ensures Ring(WriteTurn(s).page, WriteTurn(s).head, WriteTurn(s).tail) == Ring(s.page, s.head, s.tail) +
        s.w.rest[..WriteChars(s)]
  {
    hide Ring, Forward, Size;
    var n := WriteChars(s);
    var ring := Ring(s.page, s.head, s.tail);
    RingPut(s.page, s.head, s.tail, s.w.rest[..n]);
    assert s.received + (ring + s.w.rest[..n]) == (s.received + ring) + s.w.rest[..n];
  }

  /** What one stretch of write_pipe does: appends the next bytes, overwriting nothing unread; returns short only if
      the ring is full and there is no reader, and then the number of bytes, but -1 if there is none. */
  ghost predicate WriteDone(s: State, s': State)
    requires s.w.Writing?
  {
    && Inv(s') && s'.received == s.received && !s'.r.ReadWait? && s'.both == s.both
    && s.sent <= s'.sent && s'.sent[|s.sent|..] <= s.w.rest
    && (s'.w.WriteIdle? || s'.w.WriteWait?)
    && (s'.w.WriteWait? ==>
        s'.sent[|s.sent|..] + s'.w.rest == s.w.rest && s'.w.written - s.w.written == |s'.sent| - |s.sent|)
    && (s'.w.WriteIdle? ==>
          var n := |s'.sent| - |s.sent|;
          && s'.w.res == (if n < |s.w.rest| && s.w.written + n == 0 then -1 else s.w.written + n)
          && (n < |s.w.rest| ==> !s.both && Size(s'.head, s'.tail) == 4095))
  }

  lemma {:induction false} WriteRunInv(s: State)
    requires Flowing(s) && s.w.Writing?
    ensures WriteDone(s, WriteRun(s))
    decreases |s.w.rest|
  {
    if s.w.rest != [] && Size(s.head, s.tail) != 4095 {
      WriteTurnInv(s);
      WriteRunInv(WriteTurn(s));
      WriteDoneMore(s, WriteTurn(s), WriteRun(s));
    }
  }

  lemma WriteDoneMore(s: State, s1: State, s': State)
    requires s.w.Writing? && Shape(s) && s1 == WriteTurn(s) && s1.sent == s.sent + s.w.rest[..WriteChars(s)]
        && WriteDone(s1, s')
    requires s1.both == s.both && s1.received == s.received
    ensures WriteDone(s, s')
  {
    hide Inv, Ring, Forward, Stored, Size;
    var n := WriteChars(s);
    var more := s'.sent[|s1.sent|..];
    assert s.sent <= s1.sent <= s'.sent;
    assert s'.sent == s1.sent + more;
    assert s'.sent[|s.sent|..] == s.w.rest[..n] + more;
    assert s.w.rest == s.w.rest[..n] + s.w.rest[n..];
  }

  // --------------------------------------------------------------------- runs

  datatype Step = ReadCall(count: int) | ReadStep | WriteCall(bytes: seq<Byte>) | WriteStep | Signal | SignalTaken
      | Close | Spurious

  predicate Enabled(s: State, step: Step) {
    Shape(s) && match step
    case ReadCall(_) => s.r.ReadIdle?
    case ReadStep => s.r.Reading?
    case WriteCall(_) => s.w.WriteIdle?
    case WriteStep => s.w.Writing?
    case Signal => true
    case SignalTaken => true
    case Close => true
    case Spurious => true
  }

  function Next(s: State, step: Step): State
    requires Enabled(s, step)
  {
    match step
    case ReadCall(n) => s.(r := Reading(if n > 0 then n else 0, 0))
    case ReadStep => ReadRun(s)
    case WriteCall(b) => s.(w := Writing(b, 0))
    case WriteStep => WriteRun(s)
    case Signal => WakeReader(s.(signal := true))
    case SignalTaken => s.(signal := false)
    case Close => WakeReader(WakeWriter(s.(both := false)))
    case Spurious => WakeReader(WakeWriter(s))
  }

  ghost predicate Legal(s: State, steps: seq<Step>)
    decreases |steps|
  {
    steps == [] || (Enabled(s, steps[0]) && Legal(Next(s, steps[0]), steps[1..]))
  }

  ghost function Run(s: State, steps: seq<Step>): State
    requires Legal(s, steps)
    decreases |steps|
  {
    if steps == [] then s else Run(Next(s, steps[0]), steps[1..])
  }

  lemma NextInv(s: State, step: Step)
    requires Inv(s) && Enabled(s, step)
    ensures Inv(Next(s, step)) && s.sent <= Next(s, step).sent && s.received <= Next(s, step).received
  {
    match step {
      case ReadStep => ReadRunInv(s);
      case WriteStep => WriteRunInv(s);
      case _ =>
    }
  }

  /** In every interleaving of the two ends the bytes delivered are a prefix of the bytes accepted, what is in
      between is exactly the ring and at most 4095 bytes, and the ends never sleep at the same time. */
  lemma {:induction false} PipeIsFifo(s: State, steps: seq<Step>)
    requires Inv(s) && Legal(s, steps)
    ensures var s' := Run(s, steps);
            && Inv(s') && s'.received <= s'.sent && |s'.sent| - |s'.received| == Size(s'.head, s'.tail) <= 4095
            && s'.sent[|s'.received|..] == Ring(s'.page, s'.head, s'.tail)
            && s.sent <= s'.sent && s.received <= s'.received && !(s'.r.ReadWait? && s'.w.WriteWait?)
    decreases |steps|
  {
    if steps == [] {
      return;
    }
    NextInv(s, steps[0]);
    PipeIsFifo(Next(s, steps[0]), steps[1..]);
  }

  // ------------------------------------------------------------------ in place

  /** The same with the page as an array and the two ends as loops. */
  class PipeInode {
    const page: array<Byte>
    var head: nat
    var tail: nat
    var r: Reader
    var w: Writer
    var both: bool
    var signal: bool
    ghost var sent: seq<Byte>
    var received: seq<Byte>          // what has been put into the reader's buffers

    ghost predicate Valid()
      reads this, page
    {
      page.Length == PAGE_SIZE && Shape(View())
    }

    ghost function View(): State
      reads this, page
    {
      State(page[..], head, tail, r, w, both, signal, sent, received)
    }

    constructor ()
      ensures Valid() && Inv(View()) && View().sent == []
    {
      page := new Byte[PAGE_SIZE](_ => 0);
      head, tail, r, w, both, signal, sent, received := 0, 0, ReadIdle(0), WriteIdle(0), true, false, [], [];
    }

    /** The chars bytes of one turn, copied out. */
    method CopyOut(chars: nat)
      requires Valid() && r.Reading? && chars == ReadChars(View())
      modifies this
      ensures Valid() && View() == ReadTurn(old(View()))
    {
      hide Ring, Size;
      var at, i := tail, 0;
      ghost var before := View();
      tail := Forward(tail, chars);
      while i < chars
        invariant i <= chars && received == before.received + page[at..at + i]
        invariant View() == before.(tail := Forward(at, chars), received := received)
      {
        received := received + [page[at + i]];
        i := i + 1;
      }
      r := Reading(r.left - chars, r.read + chars);
    }

    method ReadPipe()
      requires Valid() && r.Reading?
      modifies this
      ensures Valid() && View() == ReadRun(old(View()))
    {
      hide Ring, ReadTurn, Forward;
      while r.left > 0
        invariant Valid() && r.Reading? && ReadRun(View()) == ReadRun(old(View()))
        decreases r.left
      {
        var size := Size(head, tail);
        if size == 0 {
          if w.WriteWait? {
            w := Writing(w.rest, w.written);
          }
          if !both {
            r := ReadIdle(r.read);
          } else if signal {
            r := ReadIdle(if r.read > 0 then r.read else -512);
          } else {
            r := ReadWait(r.left, r.read);
          }
          return;
        }
        var chars := Min(Min(4096 - tail, r.left), size);
        CopyOut(chars);
      }
      if w.WriteWait? {
        w := Writing(w.rest, w.written);
      }
      r := ReadIdle(r.read);
    }

    /** The inner loop: get_fs_byte into the page from index at on. */
    method Store(at: nat, b: seq<Byte>)
      requires at + |b| <= page.Length
      modifies page
      ensures page[..] == Stored(old(page[..]), at, b)
    {
      var i := 0;
      while i < |b|
        invariant i <= |b|
        invariant forall k :: 0 <= k < page.Length ==> page[k] == if at <= k < at + i then b[k - at] else old(page[k])
      {
        page[at + i] := b[i];
        i := i + 1;
      }
    }

    /** The chars bytes of one turn, stored from head on. */
    method CopyIn(chars: nat)
      requires Valid() && w.Writing? && chars == WriteChars(View())
      modifies this, page
      ensures Valid() && View() == WriteTurn(old(View()))
    {
      hide Ring, Size, Stored, Forward;
      var at := head;
      head := Forward(head, chars);
      Store(at, w.rest[..chars]);
      sent := sent + w.rest[..chars];
      w := Writing(w.rest[chars..], w.written + chars);
    }

    method WritePipe()
      requires Valid() && w.Writing?
      modifies this, page
      ensures Valid() && View() == WriteRun(old(View()))
    {
      hide Ring, WriteTurn, Forward;
      while w.rest != []
        invariant Valid() && w.Writing? && WriteRun(View()) == WriteRun(old(View()))
        decreases |w.rest|
      {
        var size := 4095 - Size(head, tail);
        if size == 0 {
          if r.ReadWait? {
            r := Reading(r.left, r.read);
          }
          w := if !both then WriteIdle(if w.written > 0 then w.written else -1) else WriteWait(w.rest, w.written);
          return;
        }
        var chars := Min(Min(4096 - head, |w.rest|), size);
        CopyIn(chars);
      }
      if r.ReadWait? {
        r := Reading(r.left, r.read);
      }
      w := WriteIdle(w.written);
    }
  }
}

/**
 The argument half of execve in 0.12: strings copied backwards into pages, the pointer
 tables built from them, and the arguments of a script that names its interpreter.
*/
module ExecArgs {
  newtype Byte = x: int | 0 <= x < 256
  type Str = seq<Byte>

  const PAGE_SIZE: nat := 4096
  const MAX_ARG_PAGES: nat := 32
  const ARG_SPACE: nat := 131072          // PAGE_SIZE * MAX_ARG_PAGES
  const BASE: nat := 62783488              // 64 MB less 4 MB for the library and ARG_SPACE

  /** A string as C sees it ends at its first zero byte. */
  predicate IsStr(s: Str) {
    0 !in s
  }

  predicate AllStr(ss: seq<Str>) {
    forall i :: 0 <= i < |ss| ==> IsStr(ss[i])
  }

  /** The strings one after the other, each with its zero byte. */
  function Flat(ss: seq<Str>): Str {
    if ss == [] then [] else ss[0] + [0] + Flat(ss[1..])
  }

  lemma {:induction false} FlatAppend(a: seq<Str>, b: seq<Str>)
    ensures Flat(a + b) == Flat(a) + Flat(b)
  {
    if a == [] {
      assert a + b == b;
    } else {
      FlatAppend(a[1..], b);
      assert (a + b)[1..] == a[1..] + b;
    }
  }

  lemma FlatFront(s: Str, ss: seq<Str>)
    ensures Flat([s] + ss) == s + [0] + Flat(ss)
  {
    assert ([s] + ss)[1..] == ss;
  }

  // ------------------------------------------------------------ reading strings

  /** Where the string at `p` ends: the place of its zero byte, or the end of memory. */
  function EndOf(mem: Str, p: nat): (e: nat)
    requires p <= |mem|
    ensures p <= e <= |mem| && 0 !in mem[p..e] && (e < |mem| ==> mem[e] == 0)
    decreases |mem| - p
  {
    if p == |mem| || mem[p] == 0 then p else EndOf(mem, p + 1)
  }

  function StrAt(mem: Str, p: nat): Str
    requires p <= |mem|
  {
    mem[p..EndOf(mem, p)]
  }

  lemma {:induction false} EndOfStr(mem: Str, p: nat, s: Str)
    requires IsStr(s) && p + |s| < |mem| && mem[p..p + |s|] == s && mem[p + |s|] == 0
    ensures EndOf(mem, p) == p + |s|
    decreases |s|
  {
    if s != [] {
      assert mem[p] == s[0] && s[0] in s;
      assert mem[p + 1..p + 1 + |s[1..]|] == mem[p..p + |s|][1..];
      EndOfStr(mem, p + 1, s[1..]);
    }
  }

  /** The strings lie in memory from `p` on. */
  ghost predicate Holds(mem: Str, p: nat, ss: seq<Str>) {
    && AllStr(ss) && p + |Flat(ss)| <= |mem| && mem[p..p + |Flat(ss)|] == Flat(ss)
  }

  lemma HoldsNext(mem: Str, p: nat, ss: seq<Str>)
    requires Holds(mem, p, ss) && ss != []
    ensures p <= |mem| && EndOf(mem, p) == p + |ss[0]| < |mem| && StrAt(mem, p) == ss[0]
        && Holds(mem, EndOf(mem, p) + 1, ss[1..])
  {
    var s, rest := ss[0], Flat(ss[1..]);
    var all := Flat(ss);
    assert all == s + [0] + rest;
    assert mem[p..p + |s|] == mem[p..p + |all|][..|s|] == s;
    assert mem[p + |s|] == mem[p..p + |all|][|s|] == 0;
    EndOfStr(mem, p, s);
    assert mem[p + |s| + 1..p + |s| + 1 + |rest|] == mem[p..p + |all|][|s| + 1..] == rest;
  }

  lemma {:induction false} FlatLength(ss: seq<Str>)
    ensures |Flat(ss)| >= |ss|
  {
    if ss != [] {
      FlatLength(ss[1..]);
    }
  }

  // ------------------------------------------------------------- create_tables

  /** Addresses of the tables for strings at address `p`. */
  function EnvpAt(p: nat, envc: nat): int {
    p - p % 4 - 4 * (envc + 1)
  }

  function ArgvAt(p: nat, argc: nat, envc: nat): int {
    EnvpAt(p, envc) - 4 * (argc + 1)
  }

  type Words = map<int, int>

  function WordAt(w: Words, a: int): int {
    if a in w then w[a] else 0
  }

  /** The word at `a` points to a copy of `s`. */
  predicate PointsTo(mem: Str, w: Words, a: int, s: Str) {
    var q := WordAt(w, a);
    BASE <= q <= BASE + |mem| && StrAt(mem, q - BASE) == s
  }

  /** The table at `t` points to the strings `ss`, in order, and ends in zero. */
  ghost predicate TableOk(mem: Str, w: Words, t: int, ss: seq<Str>) {
    (forall i {:trigger ss[i]} :: 0 <= i < |ss| ==> PointsTo(mem, w, t + 4 * i, ss[i])) && WordAt(w, t + 4 * |ss|) == 0
  }

  /** Only words at lo, ..., hi have changed. */
  ghost predicate Within(w: Words, w': Words, lo: int, hi: int) {
    forall a: int {:trigger WordAt(w', a)} :: a < lo || a > hi ==> WordAt(w', a) == WordAt(w, a)
  }

  lemma WithinStep(w: Words, w': Words, lo: int, hi: int, a: int, v: int)
    requires Within(w, w', lo, hi) && lo <= a <= hi
    ensures Within(w, w'[a := v], lo, hi)
  {
    forall b: int | b < lo || b > hi
      ensures WordAt(w'[a := v], b) == WordAt(w, b)
    {
      assert WordAt(w', b) == WordAt(w, b);
    }
  }

  lemma TableNext(mem: Str, w: Words, t: int, ss: seq<Str>, i: nat, p: int, w': Words)
    requires i < |ss| && forall j {:trigger ss[j]} :: 0 <= j < i ==> PointsTo(mem, w, t + 4 * j, ss[j])
    requires w' == w[t + 4 * i := p] && BASE <= p <= BASE + |mem| && StrAt(mem, p - BASE) == ss[i]
    ensures forall j {:trigger ss[j]} :: 0 <= j <= i ==> PointsTo(mem, w', t + 4 * j, ss[j])
  {
    forall j | 0 <= j <= i
      ensures PointsTo(mem, w', t + 4 * j, ss[j])
    {
      if j < i {
        assert WordAt(w', t + 4 * j) == WordAt(w, t + 4 * j);
        var s := ss[j];
      }
    }
  }

  lemma TableEnd(mem: Str, w: Words, t: int, ss: seq<Str>, w': Words)
    requires forall j {:trigger ss[j]} :: 0 <= j < |ss| ==> PointsTo(mem, w, t + 4 * j, ss[j])
    requires w' == w[t + 4 * |ss| := 0]
    ensures TableOk(mem, w', t, ss)
  {
    forall j | 0 <= j < |ss|
      ensures PointsTo(mem, w', t + 4 * j, ss[j])
    {
      assert WordAt(w', t + 4 * j) == WordAt(w, t + 4 * j);
      var s := ss[j];
    }
  }

  lemma TableStays(mem: Str, w: Words, w': Words, t: int, ss: seq<Str>, lo: int, hi: int)
    requires TableOk(mem, w, t, ss) && t + 4 * |ss| < lo && Within(w, w', lo, hi)
    ensures TableOk(mem, w', t, ss)
  {
    assert WordAt(w', t + 4 * |ss|) == WordAt(w, t + 4 * |ss|);
    forall j | 0 <= j < |ss|
      ensures PointsTo(mem, w', t + 4 * j, ss[j])
    {
      assert WordAt(w', t + 4 * j) == WordAt(w, t + 4 * j);
      var s := ss[j];
    }
  }

  /** The user's argument area as change_ldt maps it, and the words put below the strings. */
  class UserStack {
    const mem: Str               // user bytes from BASE on
    var words: Words             // user words, by address

    constructor (bytes: Str)
      ensures mem == bytes && words == map[]
    {
      mem, words := bytes, map[];
    }

    /** `while (get_fs_byte(p++))`. */
    method SkipString(p0: nat) returns (p: nat)
      requires BASE <= p0 && p0 - BASE <= |mem| && EndOf(mem, p0 - BASE) < |mem|
      ensures p == BASE + EndOf(mem, p0 - BASE) + 1
    {
      p := p0;
      while mem[p - BASE] != 0
        invariant p0 <= p && p - BASE <= |mem| && EndOf(mem, p - BASE) == EndOf(mem, p0 - BASE)
        decreases |mem| - (p - BASE)
      {
        p := p + 1;
      }
      p := p + 1;
    }

    /** One loop of create_tables: pointers to the next `n` strings, then a zero. */
    method PointTo(p0: nat, table0: int, ghost ss: seq<Str>, ghost rest: seq<Str>, n: nat) returns (p: nat)
      requires BASE <= p0 && Holds(mem, p0 - BASE, ss + rest) && n == |ss|
      modifies this`words
      ensures BASE <= p && Holds(mem, p - BASE, rest) && TableOk(mem, words, table0, ss)
      ensures Within(old(words), words, table0, table0 + 4 * n)
    {
      hide Holds, EndOf;
      p := p0;
      var table, left: nat := table0, n;
      ghost var i: nat := 0;
      assert ss[0..] + rest == ss + rest;
      while left > 0
        invariant i + left == n && table == table0 + 4 * i && BASE <= p && Holds(mem, p - BASE, ss[i..] + rest)
        invariant forall j {:trigger ss[j]} :: 0 <= j < i ==> PointsTo(mem, words, table0 + 4 * j, ss[j])
        invariant Within(old(words), words, table0, table0 + 4 * n)
      {
        HoldsNext(mem, p - BASE, ss[i..] + rest);
        assert (ss[i..] + rest)[0] == ss[i] && (ss[i..] + rest)[1..] == ss[i + 1..] + rest;
        TableNext(mem, words, table0, ss, i, p, words[table := p]);
        WithinStep(old(words), words, table0, table0 + 4 * n, table, p);
        words := words[table := p];
        table, left := table + 4, left - 1;
        p := SkipString(p);
        i := i + 1;
      }
      assert ss[i..] + rest == rest;
      TableEnd(mem, words, table0, ss, words[table := 0]);
      WithinStep(old(words), words, table0, table0 + 4 * n, table, 0);
      words := words[table := 0];
    }

    /** create_tables; returns the stack pointer. Both tables end in zero and lie below the strings. */
    method CreateTables(p: nat, ghost args: seq<Str>, ghost env: seq<Str>, argc: nat, envc: nat,
        ghost more: seq<Str>) returns (sp: int)
      requires BASE <= p && Holds(mem, p - BASE, args + env + more) && argc == |args| && envc == |env|
      modifies this`words
      ensures sp == ArgvAt(p, argc, envc) - 12 && sp % 4 == 0
      ensures WordAt(words, sp) == argc && WordAt(words, sp + 4) == ArgvAt(p, argc, envc)
          && WordAt(words, sp + 8) == EnvpAt(p, envc)
      ensures TableOk(mem, words, ArgvAt(p, argc, envc), args) && TableOk(mem, words, EnvpAt(p, envc), env)
      ensures EnvpAt(p, envc) + 4 * (envc + 1) <= p
    {
      hide Holds, TableOk;
      sp := p - p % 4;
      sp := sp - 4 * (envc + 1);
      var envp := sp;
      sp := sp - 4 * (argc + 1);
      var argv := sp;
      sp := sp - 4;
      words := words[sp := envp];
      sp := sp - 4;
      words := words[sp := argv];
      sp := sp - 4;
      words := words[sp := argc];
      assert args + env + more == args + (env + more);
      var q := PointTo(p, argv, args, env + more, argc);
      ghost var before := words;
      q := PointTo(q, envp, env, more, envc);
      TableStays(mem, before, words, argv, args, envp, envp + 4 * envc);
    }
  }

  // -------------------------------------------------------------- copy_strings

  /** How many bytes the strings take. */
  function Room(ss: seq<Str>): nat {
    |Flat(ss)|
  }

  /** How many of the pages are there. */
  function Present(page: seq<Str>): (n: nat)
    ensures n <= |page|
  {
    if page == [] then 0 else Present(page[..|page| - 1]) + (if page[|page| - 1] == [] then 0 else 1)
  }

  lemma {:induction false} NonePresent(page: seq<Str>)
    requires forall i :: 0 <= i < |page| ==> page[i] == []
    ensures Present(page) == 0
  {
    if page != [] {
      NonePresent(page[..|page| - 1]);
    }
  }

  /** Only the pages from number `lo` on are there. */
  lemma {:induction false} PresentFrom(page: seq<Str>, lo: nat)
    requires lo <= |page| && forall i :: 0 <= i < |page| ==> (page[i] == [] <==> i < lo)
    ensures Present(page) == |page| - lo
  {
    if lo == |page| {
      NonePresent(page);
    } else {
      PresentFrom(page[..|page| - 1], lo);
    }
  }

  /** The first page there must be when strings have been laid down to p. */
  function Low(p: nat): nat {
    if p >= ARG_SPACE - 4 then MAX_ARG_PAGES else p / 4096
  }

  lemma LowGrows(p: nat, q: nat)
    requires p <= q
    ensures Low(p) <= Low(q) <= MAX_ARG_PAGES
  {
  }

  /** How many pages `room` bytes of strings lie on. */
  function PagesFor(room: nat): (n: nat)
    requires room < ARG_SPACE - 4
    ensures n <= MAX_ARG_PAGES
  {
    MAX_ARG_PAGES - Low(ARG_SPACE - 4 - room)
  }

  lemma {:induction false} OneMore(page: seq<Str>, i: nat, s: Str)
    requires i < |page| && page[i] == [] && s != []
    ensures Present(page[i := s]) == Present(page) + 1
  {
    var n := |page| - 1;
    if i < n {
      assert page[i := s][..n] == page[..n][i := s];
      OneMore(page[..n], i, s);
    } else {
      assert page[i := s][..n] == page[..n];
    }
  }

  lemma {:induction false} SameNumber(page: seq<Str>, i: nat, s: Str)
    requires i < |page| && page[i] != [] && s != []
    ensures Present(page[i := s]) == Present(page)
  {
    var n := |page| - 1;
    if i < n {
      assert page[i := s][..n] == page[..n][i := s];
      SameNumber(page[..n], i, s);
    } else {
      assert page[i := s][..n] == page[..n];
    }
  }

  class ArgPages {
    const page: array<Str>       // page[i], [] while it is 0
    var free: nat                // how many pages get_free_page can still find
    ghost const available: nat

    ghost predicate Valid()
      reads this, page
    {
      && page.Length == MAX_ARG_PAGES && (forall i :: 0 <= i < MAX_ARG_PAGES ==>
          page[i] == [] || |page[i]| == PAGE_SIZE)
      && free + Present(page[..]) == available
    }

    /** The byte at an offset of the argument area; pages not there yet read as zeros. */
    ghost function ByteAt(a: nat): Byte
      requires Valid() && a < ARG_SPACE
      reads this, page
    {
      if page[a / 4096] == [] then 0 else page[a / 4096][a % 4096]
    }

    ghost function View(): (v: Str)
      requires Valid()
      reads this, page
      ensures |v| == ARG_SPACE && forall a :: 0 <= a < ARG_SPACE ==> v[a] == ByteAt(a)
    {
      seq(ARG_SPACE, a requires 0 <= a < ARG_SPACE && Valid() reads this, page => ByteAt(a))
    }

    /** Exactly the pages that strings down to p lie on are there. */
    ghost predicate Filled(p: nat)
      requires page.Length == MAX_ARG_PAGES
      reads this, page
    {
      forall i :: 0 <= i < MAX_ARG_PAGES ==> (page[i] == [] <==> i < Low(p))
    }

    constructor (pages: nat)
      ensures Valid() && available == pages && fresh(page) && Filled(ARG_SPACE - 4)
    {
      page := new Str[MAX_ARG_PAGES](_ => []);
      free, available := pages, pages;
      new;
      NonePresent(page[..]);
    }

    /** Makes sure page `i` is there; false if there is no memory. */
    method EnsurePage(i: nat) returns (ok: bool)
      requires Valid() && i < MAX_ARG_PAGES
      modifies this`free, page
      ensures Valid() && View() == old(View()) && (ok ==> page[i] != [])
      ensures forall j :: 0 <= j < MAX_ARG_PAGES && j != i ==> page[j] == old(page[j])
      ensures !ok ==> free == 0 && page[i] == old(page[i]) == []
    {
      if page[i] != [] {
        return true;
      }
      if free == 0 {
        return false;
      }
      free := free - 1;
      OneMore(page[..], i, seq(PAGE_SIZE, _ => 0));
      page[i] := seq(PAGE_SIZE, _ => 0);
      assert forall a :: 0 <= a < ARG_SPACE ==> View()[a] == old(View())[a];
      return true;
    }

    /** `*(pag + offset) = byte`. */
    method PutByte(a: nat, byte: Byte)
      requires Valid() && a < ARG_SPACE && page[a / 4096] != []
      modifies page
      ensures Valid() && View() == old(View())[a := byte]
      ensures forall i :: 0 <= i < MAX_ARG_PAGES ==> (page[i] == [] <==> old(page[i]) == [])
    {
      var bytes: Str := page[a / 4096];
      SameNumber(page[..], a / 4096, bytes[a % 4096 := byte]);
      page[a / 4096] := bytes[a % 4096 := byte];
      assert forall b :: 0 <= b < ARG_SPACE ==> View()[b] == old(View())[a := byte][b] by {
        forall b: nat | b < ARG_SPACE
          ensures View()[b] == old(View())[a := byte][b]
        {
          assert b / 4096 == a / 4096 && b % 4096 == a % 4096 ==> b == a;
        }
      }
    }

    /** One string, last byte first; `offset` says where in its page the byte before `p0` lies, if that page is
        known. */
    method CopyOne(s: Str, p0: nat, offset0: int) returns (ok: bool, p: nat, offset: int)
      requires Valid() && IsStr(s) && |s| + 1 <= p0 <= ARG_SPACE - 4 && Filled(p0)
      requires 0 <= offset0 < PAGE_SIZE && (offset0 > 0 ==> offset0 == p0 % 4096 && page[p0 / 4096] != [])
      modifies this`free, page
      ensures Valid() && (ok <==> MAX_ARG_PAGES - Low(p0 - (|s| + 1)) <= available)
      ensures ok ==> p == p0 - (|s| + 1) && Filled(p)
      ensures ok ==> 0 <= offset < PAGE_SIZE && offset == p % 4096 && p < ARG_SPACE && page[p / 4096] != []
      ensures ok ==> View() == old(View())[..p] + (s + [0]) + old(View())[p0..]
    {
      hide Present, IsStr;
      p, offset := p0, offset0;
      var len: nat := |s| + 1;
      ghost var t := s + [0];
      ghost var v := View();
      while len > 0
        invariant Valid() && len <= |t| && p == p0 - (|t| - len) && Filled(p)
        invariant 0 <= offset < PAGE_SIZE && (offset > 0 ==> offset == p % 4096 && page[p / 4096] != [])
        invariant len < |t| ==> offset == p % 4096 && page[p / 4096] != []
        invariant View() == v[..p] + t[len..] + v[p0..]
      {
        p, len := p - 1, len - 1;
        offset := offset - 1;
        if offset < 0 {
          offset := p % PAGE_SIZE;
          ok := EnsurePage(p / PAGE_SIZE);
          if !ok {
            PresentFrom(page[..], Low(p + 1));
            return;
          }
        }
        ByteLaid(v, p0, t, len, p, View());
        PutByte(p, if len == |s| then 0 else s[len]);
      }
      ok := true;
      PresentFrom(page[..], Low(p));
      assert t[len..] == t;
    }

    /** The bytes the new program will find. */
    method Bytes() returns (v: Str)
      requires Valid()
      ensures v == View()
    {
      v := seq(ARG_SPACE, a requires 0 <= a < ARG_SPACE && Valid() reads this, page =>
        if page[a / 4096] == [] then 0 else page[a / 4096][a % 4096]);
    }

    /** copy_strings: the first `argc` strings, last one first; 0 if there is no memory. */
    method CopyStrings(argc: int, argv: seq<Str>, p0: nat) returns (p: nat)
      requires Valid() && AllStr(argv) && argc <= |argv| && p0 <= ARG_SPACE - 4
      requires p0 == 0 || (Room(First(argv, argc)) < p0 && Filled(p0))
      modifies this`free, page
      ensures Valid() && (p0 == 0 ==> p == 0)
      ensures p0 > 0 ==> (p == 0 <==> available < MAX_ARG_PAGES - Low(p0 - Room(First(argv, argc))))
      ensures p > 0 ==> p == p0 - Room(First(argv, argc)) && Filled(p)
      ensures p > 0 ==> View() == old(View())[..p] + Flat(First(argv, argc)) + old(View())[p0..]
    {
      hide Present, IsStr;
      if p0 == 0 {
        return 0;
      }
      p := p0;
      var left := argc;
      var offset := 0;
      ghost var all, v := First(argv, argc), View();
      assert all[|all|..] == [] && v == v[..p] + Flat([]) + v[p0..];
      while left > 0
        invariant left <= |all| && Valid()
        invariant var k := if left > 0 then left else 0;
          && k <= |all| && 0 < p <= p0 && Filled(p) && p == p0 - |Flat(all[k..])|
          && View() == v[..p] + Flat(all[k..]) + v[p0..]
        invariant left <= 0 ==> argc <= 0 || left == 0
        invariant 0 <= offset < PAGE_SIZE && (offset > 0 ==> offset == p % 4096 && page[p / 4096] != [])
      {
        left := left - 1;
        RoomOf(all, left);
        var ok;
        ghost var w, q := View(), p;
        ok, p, offset := CopyOne(argv[left], p, offset);
        if !ok {
          LowGrows(p0 - Room(all), q - (|argv[left]| + 1));
          return 0;
        }
        Layers(v, p0, Flat(all[left + 1..]), q, argv[left] + [0], p, w);
        assert View() == w[..p] + (argv[left] + [0]) + w[q..];
      }
      assert all[0..] == all;
      PresentFrom(page[..], Low(p));
    }
  }

  /** One more byte laid below. */
  lemma ByteLaid(v: Str, p0: nat, t: Str, k: nat, p: nat, w: Str)
    requires p0 <= |v| && k < |t| && p + (|t| - k) == p0 && w == v[..p + 1] + t[k + 1..] + v[p0..]
    ensures p < |w| && w[p := t[k]] == v[..p] + t[k..] + v[p0..]
  {
  }

  /** Two pieces laid one below the other. */
  lemma Layers(v: Str, p0: nat, high: Str, q: nat, low: Str, p: nat, w: Str)
    requires p0 <= |v| && q + |high| == p0 && p + |low| == q && w == v[..q] + high + v[p0..]
    ensures w[..p] + low + w[q..] == v[..p] + (low + high) + v[p0..]
  {
  }

  /** The first `n` strings; none if `n` is negative. */
  function First(ss: seq<Str>, n: int): seq<Str>
    requires n <= |ss|
  {
    if n <= 0 then [] else ss[..n]
  }

  lemma RoomOf(all: seq<Str>, k: nat)
    requires k < |all|
    ensures Flat(all[k..]) == all[k] + [0] + Flat(all[k + 1..])
    ensures |Flat(all[k..])| <= |Flat(all)|
  {
    assert all[k..][1..] == all[k + 1..];
    assert all == all[..k] + all[k..];
    FlatAppend(all[..k], all[k..]);
  }

  // ---------------------------------------------------------------- the #! line

  const NEWLINE: Byte := 10
  const SLASH: Byte := 47

  predicate Blank(b: Byte) {
    b == 32 || b == 9
  }

  predicate AllBlank(s: Str) {
    forall i :: 0 <= i < |s| ==> Blank(s[i])
  }

  predicate NoBlank(s: Str) {
    forall i :: 0 <= i < |s| ==> !Blank(s[i])
  }

  datatype Bang = NoInterpreter | Interpreter(path: Str, name: Str, hasArg: bool, arg: Str)

  /** The first line of a script after `#!`: at most 126 bytes and a newline, no zero before it. */
  predicate IsLine(data: Str, line: Str) {
    && |data| >= 2 + |line| + 1 && |line| < 127 && data[2..2 + |line|] == line && data[2 + |line|] == NEWLINE
    && IsStr(line) && NEWLINE !in line
  }

  /** The line is `b` blanks, the path, and perhaps one more blank and the argument. */
  predicate SplitAt(line: Str, r: Bang, b: nat)
    requires r.Interpreter?
  {
    && b <= |line| && AllBlank(line[..b])
    && if r.hasArg then b + |r.path| < |line| && line[b..b + |r.path|] == r.path && Blank(line[b + |r.path|])
        && line[b + |r.path| + 1..] == r.arg
       else line[b..] == r.path
  }

  /** The name is what follows the last slash of the path. */
  predicate NameFrom(r: Bang, d: nat)
    requires r.Interpreter?
  {
    d <= |r.path| && r.path[d..] == r.name && (d == 0 || r.path[d - 1] == SLASH) && SLASH !in r.name
  }

  /** How a line names its interpreter. */
  ghost predicate Names(line: Str, r: Bang) {
    r.Interpreter? && r.path != [] && NoBlank(r.path) && (exists b: nat :: SplitAt(line, r, b))
        && (exists d: nat :: NameFrom(r, d))
  }

  /** The length of the part before the first newline or zero byte, within 127 bytes. */
  function LineLength(data: Str, k: nat): (n: nat)
    requires 2 + k <= |data| && k <= 127
    ensures k <= n <= 127 && 2 + n <= |data|
    ensures forall j :: 2 + k <= j < 2 + n ==> data[j] != 0 && data[j] != NEWLINE
    ensures n < 127 && 2 + n < |data| ==> data[2 + n] == 0 || data[2 + n] == NEWLINE
    decreases 127 - k
  {
    if k == 127 || 2 + k == |data| || data[2 + k] == 0 || data[2 + k] == NEWLINE then k else LineLength(data, k + 1)
  }

  lemma {:induction false} LineUnique(data: Str, line: Str, k: nat)
    requires IsLine(data, line) && k <= |line|
    ensures LineLength(data, k) == |line|
    decreases |line| - k
  {
    if k < |line| {
      assert data[2..2 + |line|][k] == line[k] && line[k] in line;
      LineUnique(data, line, k + 1);
    }
  }

  /** The interpretation of the first line. */
  method ParseBang(data: Str) returns (r: Bang)
    requires |data| >= 2
    ensures r.Interpreter? ==> exists line ::
        IsLine(data, line) && Names(line, r) && IsStr(r.path) && IsStr(r.name) && IsStr(r.arg)
    ensures r.NoInterpreter? ==> forall line :: IsLine(data, line) ==> AllBlank(line)
  {
    var n: nat := 0;
    while n < 127 && 2 + n < |data| && data[2 + n] != 0 && data[2 + n] != NEWLINE
      invariant n <= 127 && 2 + n <= |data| && LineLength(data, n) == LineLength(data, 0)
    {
      n := n + 1;
    }
    if n == 127 || 2 + n == |data| || data[2 + n] != NEWLINE {
      forall line | IsLine(data, line)
        ensures false
      {
        LineUnique(data, line, 0);
      }
      return NoInterpreter;
    }
    var line := data[2..2 + n];
    forall other | IsLine(data, other)
      ensures other == line
    {
      LineUnique(data, other, 0);
    }
    assert IsLine(data, line);
    r := ParseLine(line);
  }

  method ParseLine(line: Str) returns (r: Bang)
    requires IsStr(line)
    ensures r.Interpreter? ==> Names(line, r) && IsStr(r.path) && IsStr(r.name) && IsStr(r.arg)
    ensures r.NoInterpreter? ==> AllBlank(line)
  {
    hide IsStr;
    var interp: nat := 0;
    while interp < |line| && Blank(line[interp])
      invariant interp <= |line| && AllBlank(line[..interp])
    {
      interp := interp + 1;
    }
    if interp == |line| {
      assert line[..interp] == line;
      return NoInterpreter;
    }
    var cp, iName := PathEnd(line, interp);
    var path, name := line[interp..cp], line[iName..cp];
    if cp < |line| {
      r := Interpreter(path, name, true, line[cp + 1..]);
    } else {
      r := Interpreter(path, name, false, []);
      assert line[interp..] == path;
    }
    assert SplitAt(line, r, interp) && NameFrom(r, iName - interp);
    Pieces(line, interp, cp, iName);
  }

  lemma Pieces(line: Str, a: nat, b: nat, c: nat)
    requires IsStr(line) && a <= c <= b <= |line|
    ensures IsStr(line[a..b]) && IsStr(line[c..b]) && (b < |line| ==> IsStr(line[b + 1..])) && IsStr([])
  {
  }

  /** Where the path that starts at `interp` ends, and where its last component starts. */
  method PathEnd(line: Str, interp: nat) returns (cp: nat, iName: nat)
    requires interp < |line| && !Blank(line[interp])
    ensures interp <= iName <= cp <= |line| && interp < cp && NoBlank(line[interp..cp])
        && (cp < |line| ==> Blank(line[cp]))
    ensures SLASH !in line[iName..cp] && (iName == interp || line[iName - 1] == SLASH)
  {
    cp, iName := interp, interp;
    while cp < |line| && !Blank(line[cp])
      invariant interp <= iName <= cp <= |line| && NoBlank(line[interp..cp])
      invariant SLASH !in line[iName..cp] && (iName == interp || line[iName - 1] == SLASH)
    {
      assert line[interp..cp + 1] == line[interp..cp] + [line[cp]]
          && line[iName..cp + 1] == line[iName..cp] + [line[cp]];
      if line[cp] == SLASH {
        iName := cp + 1;
      }
      cp := cp + 1;
    }
  }

  // ------------------------------------------------------------------- do_execve

  /** The arguments a script is run with: interpreter name, optional argument, script name, old arguments from index
      1. */
  function Spliced(r: Bang, filename: Str, argv: seq<Str>): seq<Str>
    requires r.Interpreter?
  {
    [r.name] + (if r.hasArg then [r.arg] else []) + [filename] + Later(argv)
  }

  /** What execve leaves on the new stack: argc, and tables that point to the strings in order. */
  ghost predicate StackOk(u: UserStack, sp: int, args: seq<Str>, env: seq<Str>)
    reads u
  {
    && sp % 4 == 0 && WordAt(u.words, sp) == |args|
    && TableOk(u.mem, u.words, WordAt(u.words, sp + 4), args) && TableOk(u.mem, u.words, WordAt(u.words, sp + 8), env)
    && WordAt(u.words, sp + 4) + 4 * (|args| + 1) <= WordAt(u.words, sp + 8)
  }

  lemma OneArgc(u: UserStack, sp: int, a: seq<Str>, e: seq<Str>, b: seq<Str>, f: seq<Str>)
    requires StackOk(u, sp, a, e) && |a| != |b|
    ensures !StackOk(u, sp, b, f)
  {
  }

  datatype Script = Binary | Bang(data: Str)

  /** copy_strings for all strings of one kind: what is laid below what is there. */
  ghost predicate Laid(v: Str, p: nat, ss: seq<Str>) {
    |v| == ARG_SPACE && p + Room(ss) == ARG_SPACE - 4 && v[p..p + Room(ss)] == Flat(ss)
  }

  lemma LaidMore(v: Str, p: nat, ss: seq<Str>, more: seq<Str>, v': Str, p': nat)
    requires Laid(v, p, ss) && p' + Room(more) == p && v' == v[..p'] + Flat(more) + v[p..]
    ensures Laid(v', p', more + ss)
  {
    FlatAppend(more, ss);
    assert v'[p'..p' + Room(more + ss)] == Flat(more) + v[p..p + Room(ss)];
  }

  /** The strings have been laid down to p, or p is 0 and there were too few pages for them. */
  ghost predicate LaidOrOut(pages: ArgPages, p: nat, ss: seq<Str>)
    requires pages.Valid()
    reads pages, pages.page
  {
    && Room(ss) < ARG_SPACE - 4
    && (p == 0 <==> pages.available < PagesFor(Room(ss)))
    && (p > 0 ==> Laid(pages.View(), p, ss) && pages.Filled(p))
  }

  lemma PagesGrow(a: nat, b: nat)
    requires a <= b < ARG_SPACE - 4
    ensures PagesFor(a) <= PagesFor(b)
  {
  }

  /** One more call of copy_strings, with what has been laid so far. */
  method Lay(pages: ArgPages, argc: int, argv: seq<Str>, p: nat, ghost ss: seq<Str>) returns (p': nat)
    requires pages.Valid() && AllStr(argv) && argc <= |argv| && AllStr(ss)
    requires LaidOrOut(pages, p, ss) && Room(First(argv, argc)) + Room(ss) < ARG_SPACE - 4
    modifies pages, pages.page
    ensures pages.Valid() && LaidOrOut(pages, p', First(argv, argc) + ss)
    ensures p' > 0 ==> Laid(pages.View(), p', First(argv, argc) + ss) && AllStr(First(argv, argc) + ss)
  {
    ghost var v := if p > 0 then pages.View() else [];
    RoomBoth(First(argv, argc), ss);
    PagesGrow(Room(ss), Room(First(argv, argc) + ss));
    if p == 0 {
      return 0;
    }
    p' := pages.CopyStrings(argc, argv, p);
    if p' > 0 {
      LaidMore(v, p, ss, First(argv, argc), pages.View(), p');
    }
  }

  /** The end of do_execve: the tables for what has been laid out. */
  method Finish(pages: ArgPages, p: nat, argc: int, envc: nat, ghost args: seq<Str>, ghost env: seq<Str>,
      ghost more: seq<Str>)
    returns (stack: UserStack?, sp: int)
    requires pages.Valid() && (p > 0 ==> Laid(pages.View(), p, args + env + more) && AllStr(args + env + more))
        && argc == |args| && envc == |env|
    ensures stack == null <==> p == 0
    ensures stack != null ==> fresh(stack) && StackOk(stack, sp, args, env)
  {
    stack, sp := null, 0;
    if p == 0 {
      return;
    }
    var bytes := pages.Bytes();
    stack := new UserStack(bytes);
    sp := stack.CreateTables(BASE + p, args, env, argc, envc, more);
  }

  lemma RoomFront(s: Str, ss: seq<Str>)
    ensures Room([s] + ss) == |s| + 1 + Room(ss) && Flat([s]) == s + [0]
  {
    FlatFront(s, ss);
    FlatFront(s, []);
    assert [s] + [] == [s];
  }

  lemma RoomBoth(a: seq<Str>, b: seq<Str>)
    ensures Room(a + b) == Room(a) + Room(b)
  {
    FlatAppend(a, b);
  }

  /** One string in front of what has been laid. */
  method LayOne(pages: ArgPages, s: Str, p: nat, ghost ss: seq<Str>) returns (p': nat)
    requires pages.Valid() && IsStr(s) && AllStr(ss) && LaidOrOut(pages, p, ss)
        && |s| + 1 + Room(ss) < ARG_SPACE - 4
    modifies pages, pages.page
    ensures pages.Valid() && LaidOrOut(pages, p', [s] + ss)
    ensures AllStr([s] + ss) && Room([s] + ss) == |s| + 1 + Room(ss)
  {
    RoomFront(s, ss);
    assert First([s], 1) == [s];
    p' := Lay(pages, 1, [s], p, ss);
  }

  lemma LaidNothing(v: Str)
    requires |v| == ARG_SPACE
    ensures Laid(v, ARG_SPACE - 4, []) && Flat([]) == []
  {
  }

  /** The old environment and the old arguments from index 1; argc is one less. */
  method LayOld(pages: ArgPages, argv: seq<Str>, envp: seq<Str>, p0: nat) returns (p: nat)
    requires pages.Valid() && AllStr(argv) && AllStr(envp) && Room(envp) + Room(Later(argv)) < p0 == ARG_SPACE - 4
    requires pages.Filled(p0)
    modifies pages, pages.page
    ensures pages.Valid() && LaidOrOut(pages, p, Later(argv) + envp)
    ensures AllStr(Later(argv) + envp) && Room(Later(argv) + envp) == Room(Later(argv)) + Room(envp)
  {
    hide Laid, Flat;
    LaidNothing(pages.View());
    assert First(envp, |envp|) + [] == envp && First(envp, |envp|) == envp;
    p := Lay(pages, |envp|, envp, p0, []);
    RoomBoth(Later(argv), envp);
    assert First(Later(argv), |argv| - 1) == Later(argv);
    p := Lay(pages, |argv| - 1, Later(argv), p, envp);
  }

  function Later(argv: seq<Str>): seq<Str> {
    if argv == [] then [] else argv[1..]
  }

  lemma RoomSpliced(r: Bang, filename: Str, argv: seq<Str>)
    requires r.Interpreter?
    ensures Room(Spliced(r, filename, argv)) ==
            |r.name| + 1 + (if r.hasArg then |r.arg| + 1 else 0) + |filename| + 1 + Room(Later(argv))
  {
    var tail := [filename] + Later(argv);
    RoomFront(filename, Later(argv));
    if r.hasArg {
      RoomFront(r.arg, tail);
      RoomFront(r.name, [r.arg] + tail);
      assert Spliced(r, filename, argv) == [r.name] + ([r.arg] + tail);
    } else {
      RoomFront(r.name, tail);
      assert Spliced(r, filename, argv) == [r.name] + tail;
    }
  }

  /** The script's strings, laid in reverse. */
  method LayScript(pages: ArgPages, filename: Str, argv: seq<Str>, envp: seq<Str>, r: Bang, p0: nat) returns (p: nat,
      argc: int)
    requires pages.Valid() && IsStr(filename) && AllStr(argv) && AllStr(envp) && r.Interpreter? && IsStr(r.name)
        && IsStr(r.arg)
    requires Room(Spliced(r, filename, argv)) + Room(envp) < p0 == ARG_SPACE - 4 && pages.Filled(p0)
    modifies pages, pages.page
    ensures pages.Valid() && LaidOrOut(pages, p, Spliced(r, filename, argv) + envp)
    ensures argc == if argv == [] then |Spliced(r, filename, argv)| - 1 else |Spliced(r, filename, argv)|
    ensures AllStr(Spliced(r, filename, argv) + envp)
  {
    hide Laid, Flat, IsStr, AllStr;
    RoomSpliced(r, filename, argv);
    p := LayOld(pages, argv, envp, p0);
    argc := |argv| - 1;
    ghost var have := Later(argv) + envp;
    p := LayOne(pages, filename, p, have);
    have := [filename] + have;
    argc := argc + 1;
    if r.hasArg {
      p := LayOne(pages, r.arg, p, have);
      have := [r.arg] + have;
      argc := argc + 1;
    }
    p := LayOne(pages, r.name, p, have);
    argc := argc + 1;
    assert [r.name] + have == Spliced(r, filename, argv) + envp;
  }

  method RunScript(pages: ArgPages, filename: Str, argv: seq<Str>, envp: seq<Str>, r: Bang) returns (stack: UserStack?,
      sp: int)
    requires pages.Valid() && IsStr(filename) && AllStr(argv) && AllStr(envp) && r.Interpreter? && IsStr(r.name)
        && IsStr(r.arg)
    requires Room(Spliced(r, filename, argv)) + Room(envp) < ARG_SPACE - 4 && pages.Filled(ARG_SPACE - 4)
    modifies pages, pages.page
    ensures stack == null <==> pages.available < PagesFor(Room(Spliced(r, filename, argv)) + Room(envp))
    ensures stack != null ==> fresh(stack) && (StackOk(stack, sp, Spliced(r, filename, argv), envp) <==> argv != [])
    ensures stack != null && argv == [] ==>
      var args := Spliced(r, filename, argv);
      StackOk(stack, sp, args[..|args| - 1], ([filename] + envp)[..|envp|])
  {
    hide Laid, StackOk, Flat;
    var p, argc := LayScript(pages, filename, argv, envp, r, ARG_SPACE - 4);
    ghost var args := Spliced(r, filename, argv);
    RoomBoth(args, envp);
    if argv == [] {
      ghost var all := args + envp;
      ghost var n := |args| - 1;
      assert args[..n] + ([filename] + envp)[..|envp|] + all[|all| - 1..] == all;
      stack, sp := Finish(pages, p, argc, |envp|, args[..n], ([filename] + envp)[..|envp|], all[|all| - 1..]);
      if stack != null {
        OneArgc(stack, sp, args[..n], ([filename] + envp)[..|envp|], args, envp);
      }
    } else {
      assert args + envp + [] == args + envp;
      stack, sp := Finish(pages, p, argc, |envp|, args, envp, []);
    }
  }

  /** The strings the new program gets leave something of the argument space. */
  ghost predicate Fits(file: Script, filename: Str, argv: seq<Str>, envp: seq<Str>) {
    match file
    case Binary => Room(argv) + Room(envp) < ARG_SPACE - 4
    case Bang(data) =>
      forall line, r {:trigger IsLine(data, line), Names(line, r)} :: IsLine(data, line) && Names(line, r) ==>
        Room(Spliced(r, filename, argv)) + Room(envp) < ARG_SPACE - 4
  }

  /** The argument half of do_execve for a program file, or for a script whose interpreter is one. The strings
      must fit; then it fails exactly if the line names no interpreter or fewer pages are free than the strings
      lie on. A script started with no arguments at all is the exception: its argc comes out one short, the last
      argument goes to the environment and the last environment string is lost. */
  method Execute(filename: Str, argv: seq<Str>, envp: seq<Str>, file: Script,
      available: nat) returns (stack: UserStack?, sp: int, r: Bang)
    requires IsStr(filename) && AllStr(argv) && AllStr(envp) && (file.Bang? ==> 2 <= |file.data| <= 1024)
    requires Fits(file, filename, argv, envp)
    ensures stack != null && file.Binary? ==> StackOk(stack, sp, argv, envp)
    ensures stack != null && file.Bang? ==> r.Interpreter? && exists line :: IsLine(file.data, line) && Names(line, r)
    ensures stack != null && file.Bang? ==> (StackOk(stack, sp, Spliced(r, filename, argv), envp) <==> argv != [])
    ensures stack != null && file.Bang? && argv == [] ==>
      var args := Spliced(r, filename, argv);
      StackOk(stack, sp, args[..|args| - 1], ([filename] + envp)[..|envp|])
    ensures file.Binary? ==> (stack == null <==> available < PagesFor(Room(argv) + Room(envp)))
    ensures file.Bang? && r.Interpreter? ==>
      var room := Room(Spliced(r, filename, argv)) + Room(envp);
      room < ARG_SPACE - 4 && (stack == null <==> available < PagesFor(room))
    ensures file.Bang? && r.NoInterpreter? ==> stack == null && forall line ::
        IsLine(file.data, line) ==> AllBlank(line)
  {
    hide Laid, StackOk, Flat, Spliced, AllBlank;
    stack, sp, r := null, 0, NoInterpreter;
    var pages := new ArgPages(available);
    var p: nat := ARG_SPACE - 4;
    if file.Bang? {
      r := ParseBang(file.data);
      if r.NoInterpreter? {
        return;
      }
      ghost var line :| IsLine(file.data, line) && Names(line, r) && IsStr(r.path) && IsStr(r.name) && IsStr(r.arg);
      stack, sp := RunScript(pages, filename, argv, envp, r);
    } else {
      assert First(envp, |envp|) + [] == envp && First(envp, |envp|) == envp && First(argv, |argv|) == argv;
      RoomBoth(argv, envp);
      LaidNothing(pages.View());
      p := Lay(pages, |envp|, envp, p, []);
      p := Lay(pages, |argv|, argv, p, envp);
      assert argv + envp + [] == argv + envp;
      stack, sp := Finish(pages, p, |argv|, |envp|, argv, envp, []);
    }
  }
}

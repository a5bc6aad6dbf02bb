/**
 The queues of the 0.98 buffer cache as the pointers they are: hash chains through b_next
 and b_prev, the ring of all buffers through b_next_free and b_prev_free. The methods cut
 and splice pointers in place and are proved against the sequences that BufferCache uses.
*/
module BufferQueues {
  import opened BufferCache
  import opened BufferSafety

  /** A pointer to a buffer head, or NULL. */
  const NULL: int := -1

  // ---------------------------------------------------------- linked sequences

  /** Place `j` comes after place `i` on a circle of `n`. */
  predicate After(i: int, j: int, n: nat) {
    j == if i + 1 == n then 0 else i + 1
  }

  /** `ring` is the circle of `next` and `prev` from `first` on; heads off the ring have no predecessor. */
  ghost predicate RingLinked(next: seq<int>, prev: seq<int>, first: int, ring: seq<nat>) {
    && |next| == |prev| && NoDup(ring) && Within(ring, |next|)
    && first == (if ring == [] then NULL else ring[0])
    && (forall i, j {:trigger ring[i], ring[j]} :: 0 <= i < |ring| && 0 <= j < |ring| && After(i, j, |ring|) ==>
          next[ring[i]] == ring[j] && prev[ring[j]] == ring[i])
    && (forall b: nat :: b < |next| && b !in ring ==> prev[b] == NULL)
  }

  /** `c` is the chain of `next` and `prev` from `first` on. */
  ghost predicate ChainLinked(next: seq<int>, prev: seq<int>, first: int, c: seq<nat>) {
    && |next| == |prev| && NoDup(c) && Within(c, |next|)
    && first == (if c == [] then NULL else c[0])
    && (c != [] ==> next[c[|c| - 1]] == NULL && prev[c[0]] == NULL)
    && (forall i, j {:trigger c[i], c[j]} :: 0 <= i < |c| && j == i + 1 < |c| ==>
        next[c[i]] == c[j] && prev[c[j]] == c[i])
  }

  ghost predicate InQueue(heads: seq<Head>, chain: seq<seq<nat>>, b: nat)
    requires b < |heads| && |chain| == NR_HASH
  {
    heads[b].key.dev != 0 && b in chain[HashFn(heads[b].key)]
  }

  /** The hash table: every chain is linked and holds only heads that hash to it. */
  ghost predicate Linked(heads: seq<Head>, next: seq<int>, prev: seq<int>, table: seq<int>, chain: seq<seq<nat>>) {
    && |heads| == |next| == |prev| && |table| == |chain| == NR_HASH
    && (forall h :: 0 <= h < NR_HASH ==> ChainLinked(next, prev, table[h], chain[h]))
    && (forall h: nat, b: nat {:trigger b in chain[h]} :: h < NR_HASH && b in chain[h] ==>
          b < |heads| && heads[b].key.dev != 0 && HashFn(heads[b].key) == h)
    && (forall b: nat :: b < |heads| && !InQueue(heads, chain, b) ==> next[b] == NULL && prev[b] == NULL)
  }

  lemma {:induction false} RemoveAt(q: seq<nat>, k: nat)
    requires NoDup(q) && k < |q|
    ensures Remove(q, q[k]) == q[..k] + q[k + 1..]
  {
    NoDupTail(q);
    if k == 0 {
      hide NoDup;
      RemoveAbsent(q[1..], q[0]);
      return;
    }
    assert q[1..][k - 1] == q[k] && q[k] in q[1..];
    RemoveAt(q[1..], k - 1);
    hide NoDup;
    assert q[..k] == [q[0]] + q[1..][..k - 1];
    assert q[1..][k..] == q[k + 1..];
  }

  lemma {:induction false} RemoveAbsent(q: seq<nat>, b: nat)
    requires b !in q
    ensures Remove(q, b) == q
  {
    if q != [] {
      RemoveAbsent(q[1..], b);
    }
  }

  lemma IndexIn(q: seq<nat>, b: nat) returns (k: nat)
    requires b in q
    ensures k < |q| && q[k] == b
  {
    k :| k < |q| && q[k] == b;
  }

  // ------------------------------------------------------------------ the ring

  lemma Distinct(q: seq<nat>, i: nat, j: nat)
    requires NoDup(q) && i < |q| && j < |q|
    ensures q[i] == q[j] <==> i == j
  {
  }

  function Skip(i: nat, k: nat): nat {
    if i < k then i else i + 1
  }

  /** The head at place `k`, between places `p` and `q`, has been cut out of a ring of two or more. */
  ghost predicate Cut(next: seq<int>, prev: seq<int>, first: int, ring: seq<nat>, p: nat, k: nat, q: nat,
      next': seq<int>, prev': seq<int>) {
    true == (
      && RingLinked(next, prev, first, ring) && |ring| >= 2 && p < |ring| && k < |ring| && q < |ring|
      && After(p, k, |ring|) && After(k, q, |ring|)
      && next' == next[ring[p] := ring[q]][ring[k] := NULL] && prev' == prev[ring[q] := ring[p]][ring[k] := NULL])
  }

  lemma WithoutLink(next: seq<int>, prev: seq<int>, first: int, ring: seq<nat>, p: nat, k: nat, q: nat, next': seq<int>,
      prev': seq<int>, i: nat, j: nat)
    requires Cut(next, prev, first, ring, p, k, q, next', prev')
    requires i < |ring| - 1 && j < |ring| - 1 && After(i, j, |ring| - 1)
    ensures ring[Skip(i, k)] < |next'| && ring[Skip(j, k)] < |prev'|
    ensures next'[ring[Skip(i, k)]] == ring[Skip(j, k)] && prev'[ring[Skip(j, k)]] == ring[Skip(i, k)]
  {
    var i0, j0 := Skip(i, k), Skip(j, k);
    Distinct(ring, i0, p);
    Distinct(ring, j0, q);
    Distinct(ring, i0, k);
    Distinct(ring, j0, k);
    hide NoDup;
    assert After(i0, j0, |ring|) || (i0 == p && j0 == q);
  }

  lemma WithoutLinks(next: seq<int>, prev: seq<int>, first: int, ring: seq<nat>, p: nat, k: nat, q: nat,
      next': seq<int>, prev': seq<int>, r: seq<nat>)
    requires Cut(next, prev, first, ring, p, k, q, next', prev')
    requires |r| == |ring| - 1 && Within(r, |next'|) && |next'| == |prev'| && forall i :: 0 <= i < |r| ==>
        r[i] == ring[Skip(i, k)]
    ensures forall i, j {:trigger r[i], r[j]} :: 0 <= i < |r| && 0 <= j < |r| && After(i, j, |r|) ==>
        next'[r[i]] == r[j] && prev'[r[j]] == r[i]
  {
    forall i: nat, j: nat | i < |r| && j < |r| && After(i, j, |r|)
      ensures next'[r[i]] == r[j] && prev'[r[j]] == r[i]
    {
      WithoutLink(next, prev, first, ring, p, k, q, next', prev', i, j);
      hide Cut;
      assert r[i] == ring[Skip(i, k)] && r[j] == ring[Skip(j, k)];
    }
  }

  /** The places of a ring without its place `k`. */
  lemma WithoutPlaces(next: seq<int>, prev: seq<int>, first: int, ring: seq<nat>, p: nat, k: nat, q: nat,
      next': seq<int>, prev': seq<int>)
    requires Cut(next, prev, first, ring, p, k, q, next', prev')
    ensures k < |ring| && |next'| == |prev'|
    ensures var r := Remove(ring, ring[k]);
            |r| == |ring| - 1 && NoDup(r) && Within(r, |next'|) && forall i :: 0 <= i < |r| ==> r[i] == ring[Skip(i, k)]
  {
    RemoveAt(ring, k);
    RemoveNoDup(ring, ring[k]);
    WithinRemove(ring, ring[k], |next|);
  }

  lemma WithoutRest(next: seq<int>, prev: seq<int>, first: int, ring: seq<nat>, p: nat, k: nat, q: nat, next': seq<int>,
      prev': seq<int>)
    requires Cut(next, prev, first, ring, p, k, q, next', prev')
    ensures var r := Remove(ring, ring[k]);
            && r != [] && (if first == ring[k] then ring[q] else first) == r[0]
            && forall x: nat :: x < |prev'| && x !in r ==> prev'[x] == NULL
  {
    WithoutPlaces(next, prev, first, ring, p, k, q, next', prev');
    Distinct(ring, 0, k);
    Distinct(ring, q, k);
    hide NoDup, Within;
  }

  /** What is left is the ring without that head. */
  lemma RingWithout(next: seq<int>, prev: seq<int>, first: int, ring: seq<nat>, p: nat, k: nat, q: nat, next': seq<int>,
      prev': seq<int>)
    requires Cut(next, prev, first, ring, p, k, q, next', prev')
    ensures RingLinked(next', prev', if first == ring[k] then ring[q] else first, Remove(ring, ring[k]))
  {
    WithoutPlaces(next, prev, first, ring, p, k, q, next', prev');
    WithoutLinks(next, prev, first, ring, p, k, q, next', prev', Remove(ring, ring[k]));
    WithoutRest(next, prev, first, ring, p, k, q, next', prev');
    hide NoDup, Remove, After, Skip, Cut, Within;
  }

  /** The places around `k`. */
  lemma Neighbours(k: nat, n: nat) returns (p: nat, q: nat)
    requires k < n
    ensures p < n && q < n && After(p, k, n) && After(k, q, n)
  {
    p, q := if k == 0 then n - 1 else k - 1, if k + 1 == n then 0 else k + 1;
  }

  lemma NoDupSnoc(q: seq<nat>, x: nat)
    requires NoDup(q) && x !in q
    ensures NoDup(q + [x])
  {
  }

  /** Linking a head in between the last one and the first one. */
  lemma RingWith(next: seq<int>, prev: seq<int>, first: int, ring: seq<nat>, b: nat, next': seq<int>, prev': seq<int>)
    requires RingLinked(next, prev, first, ring) && ring != [] && b < |next| && b !in ring
    requires var last := ring[|ring| - 1];
             next' == next[b := ring[0]][last := b] && prev' == prev[b := last][ring[0] := b]
    ensures RingLinked(next', prev', first, ring + [b])
  {
    var r := ring + [b];
    NoDupSnoc(ring, b);
    assert forall x: nat :: x !in r ==> x !in ring;
  }

  /** Where a ring starts is a matter of free_list alone. */
  lemma RingRotate(next: seq<int>, prev: seq<int>, first: int, ring: seq<nat>)
    requires RingLinked(next, prev, first, ring) && ring != []
    ensures RingLinked(next, prev, next[first], ring[1..] + [ring[0]])
  {
    var r := ring[1..] + [ring[0]];
    assert forall i :: 0 <= i < |r| ==> r[i] == if i < |ring| - 1 then ring[i + 1] else ring[0];
    assert forall x: nat :: x in ring ==> x in r by {
      forall x: nat | x in ring
        ensures x in r
      {
        var j := IndexIn(ring, x);
        assert r[if j == 0 then |ring| - 1 else j - 1] == x;
      }
    }
  }

  // ------------------------------------------------------------------- chains

  function At(c: seq<nat>, i: int): int {
    if 0 <= i < |c| then c[i] else NULL
  }

  /** The head at place `k` has been cut out of a chain. */
  ghost predicate ChainCut(next: seq<int>, prev: seq<int>, first: int, c: seq<nat>, k: nat, next': seq<int>,
      prev': seq<int>) {
    true == (
      && ChainLinked(next, prev, first, c) && k < |c|
      && next' == (if k > 0 then next[c[k - 1] := At(c, k + 1)] else next)[c[k] := NULL]
      && prev' == (if k + 1 < |c| then prev[c[k + 1] := At(c, k - 1)] else prev)[c[k] := NULL])
  }

  lemma ChainPair(next: seq<int>, prev: seq<int>, first: int, c: seq<nat>, k: nat, next': seq<int>, prev': seq<int>,
      i: nat)
    requires ChainCut(next, prev, first, c, k, next', prev') && i + 1 < |c| - 1
    ensures c[Skip(i, k)] < |next'| && c[Skip(i + 1, k)] < |prev'|
    ensures next'[c[Skip(i, k)]] == c[Skip(i + 1, k)] && prev'[c[Skip(i + 1, k)]] == c[Skip(i, k)]
  {
    var i0, j0 := Skip(i, k), Skip(i + 1, k);
    Distinct(c, i0, k);
    Distinct(c, j0, k);
    if k > 0 {
      Distinct(c, i0, k - 1);
    }
    if k + 1 < |c| {
      Distinct(c, j0, k + 1);
    }
    hide NoDup;
    assert j0 == i0 + 1 ==> next[c[i0]] == c[j0] && prev[c[j0]] == c[i0];
  }

  lemma ChainEnds(next: seq<int>, prev: seq<int>, first: int, c: seq<nat>, k: nat, next': seq<int>, prev': seq<int>,
      r: seq<nat>)
    requires ChainCut(next, prev, first, c, k, next', prev')
    requires |r| == |c| - 1 && Within(r, |next'|) && |next'| == |prev'| && forall i :: 0 <= i < |r| ==>
        r[i] == c[Skip(i, k)]
    ensures r != [] ==> next'[r[|r| - 1]] == NULL && prev'[r[0]] == NULL
  {
    if r != [] {
      var i0, j0 := Skip(|r| - 1, k), Skip(0, k);
      assert r[|r| - 1] == c[i0] && r[0] == c[j0];
      Distinct(c, i0, k);
      Distinct(c, j0, k);
      if k > 0 {
        Distinct(c, i0, k - 1);
      }
      if k + 1 < |c| {
        Distinct(c, j0, k + 1);
      }
      hide NoDup;
    }
  }

  lemma ChainPlaces(next: seq<int>, prev: seq<int>, first: int, c: seq<nat>, k: nat, next': seq<int>, prev': seq<int>)
    requires ChainCut(next, prev, first, c, k, next', prev')
    ensures k < |c| && |next'| == |prev'|
    ensures var r := Remove(c, c[k]);
            |r| == |c| - 1 && NoDup(r) && Within(r, |next'|) && forall i :: 0 <= i < |r| ==> r[i] == c[Skip(i, k)]
    ensures (if k == 0 then At(c, 1) else first) == At(Remove(c, c[k]), 0)
  {
    RemoveAt(c, k);
    RemoveNoDup(c, c[k]);
    WithinRemove(c, c[k], |next|);
  }

  lemma ChainWithout(next: seq<int>, prev: seq<int>, first: int, c: seq<nat>, k: nat, next': seq<int>, prev': seq<int>)
    requires ChainCut(next, prev, first, c, k, next', prev')
    ensures k < |c| && ChainLinked(next', prev', if k == 0 then At(c, 1) else first, Remove(c, c[k]))
  {
    hide ChainCut, ChainLinked, NoDup, Remove, Within, Skip, At;
    ChainPlaces(next, prev, first, c, k, next', prev');
    var r := Remove(c, c[k]);
    ChainPairs(next, prev, first, c, k, next', prev', r);
    ChainEnds(next, prev, first, c, k, next', prev', r);
    ChainMake(next', prev', if k == 0 then At(c, 1) else first, r);
  }

  lemma ChainMake(next: seq<int>, prev: seq<int>, first: int, r: seq<nat>)
    requires |next| == |prev| && NoDup(r) && Within(r, |next|) && first == At(r, 0)
    requires r != [] ==> next[r[|r| - 1]] == NULL && prev[r[0]] == NULL
    requires forall i, j {:trigger r[i], r[j]} :: 0 <= i < |r| && j == i + 1 < |r| ==>
        next[r[i]] == r[j] && prev[r[j]] == r[i]
    ensures ChainLinked(next, prev, first, r)
  {
    hide NoDup;
  }

  lemma ChainPairs(next: seq<int>, prev: seq<int>, first: int, c: seq<nat>, k: nat, next': seq<int>, prev': seq<int>,
      r: seq<nat>)
    requires ChainCut(next, prev, first, c, k, next', prev')
    requires |r| == |c| - 1 && Within(r, |next'|) && |next'| == |prev'| && forall i :: 0 <= i < |r| ==>
        r[i] == c[Skip(i, k)]
    ensures forall i, j {:trigger r[i], r[j]} :: 0 <= i < |r| && j == i + 1 < |r| ==>
        next'[r[i]] == r[j] && prev'[r[j]] == r[i]
  {
    forall i: nat, j: nat | i < |r| && j == i + 1 < |r|
      ensures next'[r[i]] == r[j] && prev'[r[j]] == r[i]
    {
      ChainPair(next, prev, first, c, k, next', prev', i);
      hide ChainCut;
      assert r[i] == c[Skip(i, k)] && r[j] == c[Skip(j, k)];
    }
  }

  /** A new first head. */
  lemma ChainWith(next: seq<int>, prev: seq<int>, first: int, c: seq<nat>, b: nat, next': seq<int>, prev': seq<int>)
    requires ChainLinked(next, prev, first, c) && b < |next| && b !in c && prev[b] == NULL
    requires next' == next[b := first] && prev' == if first == NULL then prev else prev[first := b]
    ensures ChainLinked(next', prev', b, [b] + c)
  {
    var r := [b] + c;
    NoDupCons(b, c);
    forall i: nat, j: nat | i < |r| && j == i + 1 < |r|
      ensures next'[r[i]] == r[j] && prev'[r[j]] == r[i]
    {
      if i > 0 {
        assert r[i] == c[i - 1] && r[j] == c[j - 1];
        assert c[j - 1] != c[0];
      }
    }
  }

  /** Pointers of other heads are of no concern to a chain. */
  lemma ChainSame(next: seq<int>, prev: seq<int>, first: int, c: seq<nat>, next': seq<int>, prev': seq<int>)
    requires ChainLinked(next, prev, first, c) && |next'| == |prev'| == |next|
    requires forall x :: x in c ==> 0 <= x < |next| && next'[x] == next[x] && prev'[x] == prev[x]
    ensures ChainLinked(next', prev', first, c)
  {
    assert forall i :: 0 <= i < |c| ==> c[i] in c;
    hide NoDup;
  }

  // ------------------------------------------------------------ the hash table

  /** The pointers of chain `h` have changed and of no head outside it. */
  ghost predicate OneChain(heads: seq<Head>, next: seq<int>, prev: seq<int>, table: seq<int>, chain: seq<seq<nat>>,
                           h: nat, next': seq<int>, prev': seq<int>, first': int, c': seq<nat>, b: nat) {
    true == (
      && Linked(heads, next, prev, table, chain) && h < NR_HASH && |next'| == |prev'| == |next| && b < |next|
      && ChainLinked(next', prev', first', c')
      && (forall x :: x in c' ==> x in chain[h] || x == b)
      && (forall x :: x in chain[h] ==> x in c' || x == b)
      && heads[b].key.dev != 0 && HashFn(heads[b].key) == h
      && (b !in c' ==> next'[b] == NULL && prev'[b] == NULL)
      && (forall x: nat :: x < |next| && x !in chain[h] && x != b ==> next'[x] == next[x] && prev'[x] == prev[x]))
  }

  lemma OneChainOthers(heads: seq<Head>, next: seq<int>, prev: seq<int>, table: seq<int>, chain: seq<seq<nat>>,
                       h: nat, next': seq<int>, prev': seq<int>, first': int, c': seq<nat>, b: nat, g: nat)
    requires OneChain(heads, next, prev, table, chain, h, next', prev', first', c', b) && g < NR_HASH && g != h
    ensures ChainLinked(next', prev', table[g], chain[g])
  {
    hide ChainLinked, NoDup, HashFn;
    assert forall x :: x in chain[g] ==> x !in chain[h] && x != b;
    ChainSame(next, prev, table[g], chain[g], next', prev');
  }

  lemma OneChainLinked(heads: seq<Head>, next: seq<int>, prev: seq<int>, table: seq<int>, chain: seq<seq<nat>>,
                       h: nat, next': seq<int>, prev': seq<int>, first': int, c': seq<nat>, b: nat)
    requires OneChain(heads, next, prev, table, chain, h, next', prev', first', c', b)
    ensures |table| == |chain| == NR_HASH && h < NR_HASH
    ensures Linked(heads, next', prev', table[h := first'], chain[h := c'])
  {
    hide ChainLinked, NoDup, HashFn;
    var chain' := chain[h := c'];
    forall g | 0 <= g < NR_HASH
      ensures ChainLinked(next', prev', table[h := first'][g], chain'[g])
    {
      if g != h {
        OneChainOthers(heads, next, prev, table, chain, h, next', prev', first', c', b, g);
      }
    }
    forall x: nat | x < |heads| && !InQueue(heads, chain', x)
      ensures next'[x] == NULL && prev'[x] == NULL
    {
      if x != b {
        assert x !in chain[h];
        assert !InQueue(heads, chain, x);
      }
    }
  }

  /** A head in no queue may take any key. */
  lemma KeyChange(heads: seq<Head>, next: seq<int>, prev: seq<int>, table: seq<int>, chain: seq<seq<nat>>, b: nat,
      h: Head)
    requires Linked(heads, next, prev, table, chain) && b < |heads| && !InQueue(heads, chain, b)
    ensures Linked(heads[b := h], next, prev, table, chain)
    ensures forall g :: 0 <= g < NR_HASH ==> b !in chain[g]
  {
    hide ChainLinked, NoDup, HashFn;
    forall g | 0 <= g < NR_HASH
      ensures b !in chain[g]
    {
    }
    forall x: nat | x < |heads| && !InQueue(heads[b := h], chain, x)
      ensures next[x] == NULL && prev[x] == NULL
    {
      assert !InQueue(heads, chain, x);
    }
  }

  /** Flags, counts and data are of no concern to the queues. */
  lemma FlagChange(heads: seq<Head>, next: seq<int>, prev: seq<int>, table: seq<int>, chain: seq<seq<nat>>, b: nat,
      h: Head)
    requires Linked(heads, next, prev, table, chain) && b < |heads| && h.key == heads[b].key
    ensures Linked(heads[b := h], next, prev, table, chain)
  {
    hide ChainLinked, NoDup, HashFn;
    assert forall x: nat :: x < |heads| ==> InQueue(heads[b := h], chain, x) == InQueue(heads, chain, x);
  }

  // -------------------------------------------------------------- the pointers

  /** Where a head is in its queue, the length of the queue if it is not there; what its pointers say about that. */
  lemma Place(heads: seq<Head>, next: seq<int>, prev: seq<int>, table: seq<int>, chain: seq<seq<nat>>,
      b: nat) returns (k: nat)
    requires Linked(heads, next, prev, table, chain) && b < |heads|
    ensures |heads| == |next| == |prev| && |table| == |chain| == NR_HASH
    ensures var c := chain[HashFn(heads[b].key)];
            && k <= |c| && (k < |c| <==> InQueue(heads, chain, b)) && (b in c <==> k < |c|)
            && (k < |c| ==> c[k] == b && next[b] == At(c, k + 1) && prev[b] == At(c, k - 1))
            && (k == |c| ==> next[b] == prev[b] == NULL)
            && (table[HashFn(heads[b].key)] == b <==> k < |c| && k == 0)
            && (forall i :: 0 <= i < |c| ==> c[i] < |next| && (i != k ==> c[i] != b))
  {
    var h := HashFn(heads[b].key);
    var c := chain[h];
    assert ChainLinked(next, prev, table[h], c);
    if b in c {
      k := IndexIn(c, b);
      hide HashFn;
      assert k + 1 < |c| ==> c[k + 1] == next[b];
      assert k > 0 ==> c[k - 1] == prev[b];
    } else {
      k := |c|;
      hide HashFn;
      assert !InQueue(heads, chain, b);
    }
  }

  /** remove_from_hash_queue on the pointers. */
  ghost predicate CutPointers(heads: seq<Head>, next: seq<int>, prev: seq<int>, table: seq<int>, b: nat,
                              next': seq<int>, prev': seq<int>, table': seq<int>)
    requires b < |heads| == |next| == |prev| && |table| == NR_HASH
  {
    var h, n, p := HashFn(heads[b].key), next[b], prev[b];
    && NULL <= n < |prev| && NULL <= p < |next|
    && prev' == (if n != NULL then prev[n := p] else prev)[b := NULL]
    && next' == (if p != NULL then next[p := n] else next)[b := NULL]
    && table' == if table[h] == b then table[h := n] else table
  }

  lemma CutOut(heads: seq<Head>, next: seq<int>, prev: seq<int>, table: seq<int>, chain: seq<seq<nat>>, b: nat,
               next': seq<int>, prev': seq<int>, table': seq<int>)
    requires Linked(heads, next, prev, table, chain) && b < |heads|
    requires |heads| == |next| == |prev| && |table| == |chain| == NR_HASH
        && CutPointers(heads, next, prev, table, b, next', prev', table')
    ensures var h := HashFn(heads[b].key); Linked(heads, next', prev', table', chain[h := Remove(chain[h], b)])
    ensures var h := HashFn(heads[b].key); !InQueue(heads, chain[h := Remove(chain[h], b)], b)
  {
    var h := HashFn(heads[b].key);
    var c := chain[h];
    var k := Place(heads, next, prev, table, chain, b);
    if k == |c| {
      RemoveAbsent(c, b);
      assert chain[h := c] == chain;
      assert next' == next && prev' == prev;
      return;
    }
    assert ChainLinked(next, prev, table[h], c) && ChainCut(next, prev, table[h], c, k, next', prev');
    var first' := if k == 0 then At(c, 1) else table[h];
    assert table' == table[h := first'];
    hide CutPointers;
    ChainWithout(next, prev, table[h], c, k, next', prev');
    CutOthers(heads, next, prev, table, chain, b, k, h, first', next', prev');
    hide Linked, ChainLinked, NoDup, HashFn, ChainCut;
    OneChainLinked(heads, next, prev, table, chain, h, next', prev', first', Remove(c, b), b);
  }

  lemma CutOthers(heads: seq<Head>, next: seq<int>, prev: seq<int>, table: seq<int>, chain: seq<seq<nat>>, b: nat,
      k: nat,
                  h: nat, first': int, next': seq<int>, prev': seq<int>)
    requires Linked(heads, next, prev, table, chain) && b < |heads| && |table| == |chain| == NR_HASH
        && h == HashFn(heads[b].key)
    requires ChainCut(next, prev, table[h], chain[h], k, next', prev') && k < |chain[h]| && chain[h][k] == b
        && heads[b].key.dev != 0
    requires ChainLinked(next', prev', first', Remove(chain[h], b))
    ensures OneChain(heads, next, prev, table, chain, h, next', prev', first', Remove(chain[h], b), b)
  {
    CutElsewhere(next, prev, table[h], chain[h], k, next', prev');
    assert |next| == |heads|;
    hide HashFn, NoDup, ChainLinked, Linked, ChainCut;
  }

  lemma CutElsewhere(next: seq<int>, prev: seq<int>, first: int, c: seq<nat>, k: nat, next': seq<int>, prev': seq<int>)
    requires ChainCut(next, prev, first, c, k, next', prev')
    ensures |next'| == |prev'| == |next| == |prev| && k < |c| && c[k] < |next| && next'[c[k]] == prev'[c[k]] == NULL
    ensures forall x: nat :: x < |next| && x !in c ==> next'[x] == next[x] && prev'[x] == prev[x]
  {
    hide NoDup;
  }

  /** The last head made the first one. */
  lemma RingTurn(next: seq<int>, prev: seq<int>, first: int, ring: seq<nat>)
    requires RingLinked(next, prev, first, ring) && ring != []
    ensures var k := |ring| - 1; RingLinked(next, prev, ring[k], [ring[k]] + ring[..k])
  {
    var k := |ring| - 1;
    var r := [ring[k]] + ring[..k];
    assert forall i :: 0 <= i < |r| ==> r[i] == if i == 0 then ring[k] else ring[i - 1];
    forall x: nat | x in ring
      ensures x in r
    {
      var j := IndexIn(ring, x);
      assert r[if j == k then 0 else j + 1] == x;
    }
  }

  lemma Place0(heads: seq<Head>, next: seq<int>, prev: seq<int>, table: seq<int>, chain: seq<seq<nat>>, b: nat)
    requires Linked(heads, next, prev, table, chain) && b < |heads| && !InQueue(heads, chain, b)
        && heads[b].key.dev != 0
    ensures |heads| == |next| == |prev| && |table| == |chain| == NR_HASH
    ensures next[b] == prev[b] == NULL && NULL <= table[HashFn(heads[b].key)] < |heads|
        && table[HashFn(heads[b].key)] != b
  {
    var h := HashFn(heads[b].key);
    assert ChainLinked(next, prev, table[h], chain[h]);
    hide HashFn, NoDup;
  }

  lemma HookIn(heads: seq<Head>, next: seq<int>, prev: seq<int>, table: seq<int>, chain: seq<seq<nat>>, b: nat,
               next': seq<int>, prev': seq<int>, table': seq<int>)
    requires Linked(heads, next, prev, table, chain) && b < |heads| && !InQueue(heads, chain, b)
        && heads[b].key.dev != 0
    requires |heads| == |next| == |prev| && |table| == |chain| == NR_HASH
    requires var first := table[HashFn(heads[b].key)];
             && NULL <= first < |heads| && next' == next[b := first]
             && prev' == (if first == NULL then prev else prev[first := b])
             && table' == table[HashFn(heads[b].key) := b]
    ensures var h := HashFn(heads[b].key); Linked(heads, next', prev', table', chain[h := [b] + chain[h]])
  {
    var h := HashFn(heads[b].key);
    var c := chain[h];
    assert ChainLinked(next, prev, table[h], c);
    ChainWith(next, prev, table[h], c, b, next', prev');
    assert c != [] ==> c[0] in c && c[0] == table[h];
    assert c == [] ==> table[h] == NULL;
    hide Linked, ChainLinked, NoDup, HashFn;
    assert OneChain(heads, next, prev, table, chain, h, next', prev', b, [b] + c, b);
    OneChainLinked(heads, next, prev, table, chain, h, next', prev', b, [b] + c, b);
  }

  function Pointer(f: Found): int {
    if f.Some? then f.b else NULL
  }

  function Ref(b: int): Found
    requires NULL <= b
  {
    if b == NULL then None else Some(b)
  }

  // ------------------------------------------------------------------ a page

  /** The buffers of one page, in the order of the circle through b_this_page. */
  ghost predicate PageRing(thisPage: seq<int>, page: seq<nat>) {
    && NoDup(page) && Within(page, |thisPage|)
    && forall i, j {:trigger page[i], page[j]} :: 0 <= i < |page| && 0 <= j < |page| && After(i, j, |page|) ==>
        thisPage[page[i]] == page[j]
  }

  /** Heads taken for a new page, each linked to the one taken before it. */
  ghost predicate TakenFrom(thisPage: seq<int>, taken: seq<nat>, ring: seq<nat>) {
    && taken != [] && NoDup(taken) && (forall i :: 0 <= i < |taken| ==> taken[i] < |thisPage| && taken[i] !in ring)
    && forall i {:trigger taken[i]} :: 0 <= i < |taken| ==> thisPage[taken[i]] == Before(taken, i)
  }

  function Before(taken: seq<nat>, i: nat): int
    requires i < |taken|
  {
    if i == 0 then NULL else taken[i - 1]
  }

  lemma TakenAt(thisPage: seq<int>, taken: seq<nat>, ring: seq<nat>, i: nat)
    requires TakenFrom(thisPage, taken, ring) && i < |taken|
    ensures taken[i] < |thisPage| && taken[i] !in taken[i + 1..] + ring
    ensures thisPage[taken[i]] == NULL <==> i == 0
    ensures i > 0 ==> thisPage[taken[i]] == taken[i - 1]
  {
  }

  predicate AtRest(h: Head) {
    h.count == 0 && !h.dirt && h.io.Unlocked?
  }

  function Set(q: seq<nat>): set<nat> {
    set x | x in q
  }

  function Without(q: seq<nat>, gone: set<nat>): (r: seq<nat>)
    ensures forall x :: x in r <==> x in q && x !in gone
  {
    if q == [] then [] else if q[0] in gone then Without(q[1..], gone) else [q[0]] + Without(q[1..], gone)
  }

  lemma {:induction false} RemoveWithout(q: seq<nat>, gone: set<nat>, b: nat)
    ensures Remove(Without(q, gone), b) == Without(q, gone + {b})
  {
    if q != [] {
      RemoveWithout(q[1..], gone, b);
      if q[0] !in gone {
        assert ([q[0]] + Without(q[1..], gone))[1..] == Without(q[1..], gone);
      }
    }
  }

  /** Giving up a page leaves what try_to_free of the state machine leaves. */
  lemma {:induction false} WithoutIsOffPage(heads: seq<Head>, q: seq<nat>, page: seq<nat>, p: nat)
    requires Within(q, |heads|) && forall c :: c in q ==> (heads[c].page == p <==> c in page)
    ensures Without(q, Set(page)) == OffPage(heads, q, p)
  {
    if q != [] {
      assert q[0] in q && forall c :: c in q[1..] ==> c in q;
      WithoutIsOffPage(heads, q[1..], page, p);
    }
  }

  /** The buffers in `gone` have been given up, and nothing else has happened. */
  ghost predicate PageGone(heads: seq<Head>, ring: seq<nat>, chain: seq<seq<nat>>, gone: set<nat>, heads': seq<Head>,
      ring': seq<nat>, chain': seq<seq<nat>>) {
    true == (
      && ring' == Without(ring, gone) && heads' == Wipe(heads, gone) && |chain'| == |chain| == NR_HASH
      && (forall h :: 0 <= h < NR_HASH ==> chain'[h] == Without(chain[h], gone)))
  }

  lemma {:induction false} WithoutNone(q: seq<nat>)
    ensures Without(q, {}) == q
  {
    if q != [] {
      WithoutNone(q[1..]);
    }
  }

  lemma PageStart(heads: seq<Head>, ring: seq<nat>, chain: seq<seq<nat>>, page: seq<nat>)
    requires |chain| == NR_HASH
    ensures PageGone(heads, ring, chain, Set(page[..0]), heads, ring, chain)
  {
    assert Set(page[..0]) == {};
    WithoutNone(ring);
    forall h | 0 <= h < NR_HASH
      ensures Without(chain[h], {}) == chain[h]
    {
      WithoutNone(chain[h]);
    }
    assert Wipe(heads, {}) == heads;
  }

  /** The buffer `b`, one that is not in `gone`, goes too. */
  lemma PageStep(heads: seq<Head>, next: seq<int>, prev: seq<int>, table: seq<int>, ring: seq<nat>,
      chain: seq<seq<nat>>, gone: set<nat>,
                 heads': seq<Head>, ring': seq<nat>, chain': seq<seq<nat>>, b: nat)
    requires PageGone(heads, ring, chain, gone, heads', ring', chain') && b < |heads| && b !in gone && b in ring
        && NoDup(ring')
    requires Linked(heads, next, prev, table, chain)
    ensures b < |heads'| && |chain'| == NR_HASH && b in ring' && |Remove(ring', b)| == |ring'| - 1
    ensures var h := HashFn(heads'[b].key);
            PageGone(heads, ring, chain, gone + {b}, heads'[b := NoHead()], Remove(ring', b),
                chain'[h := Remove(chain'[h], b)])
  {
    RemoveNoDup(ring', b);
    RemoveWithout(ring, gone, b);
    hide ChainLinked, NoDup, HashFn;
    var h := HashFn(heads'[b].key);
    forall g: nat | g < NR_HASH
      ensures chain'[h := Remove(chain'[h], b)][g] == Without(chain[g], gone + {b})
    {
      RemoveWithout(chain[g], gone, b);
      if g != h {
        RemoveAbsent(chain'[g], b);
      }
    }
    assert heads'[b := NoHead()] == Wipe(heads, gone + {b});
  }

  lemma PageTurn(thisPage: seq<int>, page: seq<nat>, i: nat)
    requires PageRing(thisPage, page) && i < |page|
    ensures page[i] in page && page[i] < |thisPage| && page[i] !in Set(page[..i])
        && Set(page[..i + 1]) == Set(page[..i]) + {page[i]}
    ensures i + 1 < |page| ==> thisPage[page[i]] == page[i + 1] != page[0]
    ensures i + 1 == |page| ==> thisPage[page[i]] == page[0]
  {
    var j := if i + 1 == |page| then 0 else i + 1;
    assert thisPage[page[i]] == page[j];
  }

  lemma PageEnd(heads: seq<Head>, ring: seq<nat>, chain: seq<seq<nat>>, page: seq<nat>, heads': seq<Head>,
      ring': seq<nat>, chain': seq<seq<nat>>)
    requires PageGone(heads, ring, chain, Set(page[..|page|]), heads', ring', chain')
    ensures ring' == Without(ring, Set(page)) && heads' == Wipe(heads, Set(page))
    ensures |chain'| == |chain| == NR_HASH && forall h :: 0 <= h < NR_HASH ==> chain'[h] == Without(chain[h], Set(page))
  {
    assert page[..|page|] == page;
  }

  class Buffers {
    const heads: array<Head>
    const thisPage: array<int>      // b_this_page
    const next: array<int>          // b_next
    const prev: array<int>          // b_prev
    const nextFree: array<int>      // b_next_free
    const prevFree: array<int>      // b_prev_free
    const table: array<int>         // hash_table
    var freeList: int               // free_list
    ghost var ring: seq<nat>
    ghost var chain: seq<seq<nat>>

    ghost predicate Valid()
      reads this, heads, next, prev, nextFree, prevFree, table
    {
      && thisPage != next && thisPage != prev && thisPage != nextFree && thisPage != prevFree && thisPage != table
      && next != prev && next != nextFree && next != prevFree && next != table
      && prev != nextFree && prev != prevFree && prev != table
      && nextFree != prevFree && nextFree != table && prevFree != table
      && heads.Length == nextFree.Length == thisPage.Length
      && RingLinked(nextFree[..], prevFree[..], freeList, ring)
      && Linked(heads[..], next[..], prev[..], table[..], chain)
    }

    /** remove_from_hash_queue. */
    method RemoveFromHashQueue(bh: nat)
      requires Valid() && bh < heads.Length
      modifies next, prev, table, this`chain
      ensures Valid()
      ensures var h := HashFn(heads[bh].key); chain == old(chain)[h := Remove(old(chain)[h], bh)]
      ensures !InQueue(heads[..], chain, bh)
    {
      var h := HashFn(heads[bh].key);
      ghost var n, p, t := next[..], prev[..], table[..];
      ghost var k := Place(heads[..], n, p, t, chain, bh);
      assert NULL <= n[bh] < |p| && NULL <= p[bh] < |n| && n[bh] != bh && p[bh] != bh;
      hide RingLinked, ChainLinked, Linked, NoDup, HashFn;
      if next[bh] != NULL {
        prev[next[bh]] := prev[bh];
      }
      if prev[bh] != NULL {
        next[prev[bh]] := next[bh];
      }
      if table[h] == bh {
        table[h] := next[bh];
      }
      next[bh], prev[bh] := NULL, NULL;
      CutOut(heads[..], n, p, t, chain, bh, next[..], prev[..], table[..]);
      chain := chain[h := Remove(chain[h], bh)];
    }

    /** remove_from_free_list, of a ring of two or more. */
    method RemoveFromFreeList(bh: nat)
      requires Valid() && bh in ring && |ring| >= 2
      modifies nextFree, prevFree, this`freeList, this`ring
      ensures Valid() && ring == Remove(old(ring), bh)
    {
      ghost var k := IndexIn(ring, bh);
      ghost var p, q := Neighbours(k, |ring|);
      ghost var n, r, first := nextFree[..], prevFree[..], freeList;
      assert n[bh] == ring[q] && r[bh] == ring[p] && ring[q] != bh && ring[p] != bh;
      nextFree[prevFree[bh]] := nextFree[bh];
      prevFree[nextFree[bh]] := prevFree[bh];
      if freeList == bh {
        freeList := nextFree[bh];
      }
      nextFree[bh], prevFree[bh] := NULL, NULL;
      assert Cut(n, r, first, ring, p, k, q, nextFree[..], prevFree[..]);
      RingWithout(n, r, first, ring, p, k, q, nextFree[..], prevFree[..]);
      hide RingLinked, Linked;
      ring := Remove(ring, bh);
    }

    /** The splice in front of the first buffer of the ring, shared by the three functions that add to it. */
    method SpliceIn(bh: nat)
      requires Valid() && bh < heads.Length && bh !in ring && ring != []
      modifies nextFree, prevFree, this`ring
      ensures Valid() && ring == old(ring) + [bh] && freeList == old(freeList) && nextFree[bh] == freeList
          && prevFree[freeList] == bh
    {
      ghost var n, r := nextFree[..], prevFree[..];
      assert r[ring[0]] == ring[|ring| - 1] && ring[0] in ring && ring[|ring| - 1] in ring;
      hide RingLinked, Linked;
      nextFree[bh] := freeList;
      prevFree[bh] := prevFree[freeList];
      nextFree[prevFree[freeList]] := bh;
      prevFree[freeList] := bh;
      RingWith(n, r, freeList, ring, bh, nextFree[..], prevFree[..]);
      ring := ring + [bh];
    }

    /** One head of a new page, linked in front of the ring. */
    method LinkFirst(tmp: nat)
      requires Valid() && tmp < heads.Length && tmp !in ring
      modifies nextFree, prevFree, this`freeList, this`ring
      ensures Valid() && ring == [tmp] + old(ring)
    {
      if freeList != NULL {
        SpliceIn(tmp);
        ghost var k: nat := |ring| - 1;
        RingTurn(nextFree[..], prevFree[..], freeList, ring);
        assert ring[..k] == old(ring);
      } else {
        prevFree[tmp] := tmp;
        nextFree[tmp] := tmp;
      }
      freeList := tmp;
      ring := [tmp] + old(ring);
    }

    /** The linking loop of grow_buffers: from `bh`, the last head taken, back along b_this_page to the first one,
        which then closes the ring of the page. */
    method LinkNewPage(bh: nat, ghost taken: seq<nat>)
      requires Valid() && taken != [] && TakenFrom(thisPage[..], taken, ring) && bh == taken[|taken| - 1]
      modifies nextFree, prevFree, thisPage, this`freeList, this`ring
      ensures Valid() && ring == taken + old(ring)
      ensures thisPage[..] == old(thisPage[..])[taken[0] := bh]
    {
      hide RingLinked, Linked, TakenFrom, Before, NoDup;
      ghost var links, front := thisPage[..], ring;
      var tmp := bh;
      ghost var i: nat := |taken| - 1;
      TakenAt(links, taken, front, i);
      LinkFirst(tmp);
      assert [tmp] + front == taken[i..] + front;
      while thisPage[tmp] != NULL
        invariant Valid() && i < |taken| && tmp == taken[i] && tmp < heads.Length && ring == taken[i..] + front
        invariant thisPage[..] == links
        decreases i
      {
        TakenAt(links, taken, front, i);
        tmp := thisPage[tmp];
        i := i - 1;
        TakenAt(links, taken, front, i);
        LinkFirst(tmp);
        assert [tmp] + taken[i + 1..] == taken[i..];
        assert [tmp] + (taken[i + 1..] + front) == taken[i..] + front;
      }
      TakenAt(links, taken, front, i);
      assert taken[0..] == taken;
      thisPage[tmp] := bh;
    }

    /** put_first_free. */
    method PutFirstFree(bh: nat)
      requires Valid() && bh in ring && |ring| >= 2
      modifies nextFree, prevFree, this`freeList, this`ring
      ensures Valid()
      ensures ring == if bh == old(ring)[0] then old(ring) else [bh] + Remove(old(ring), bh)
    {
      if bh == freeList {
        return;
      }
      RemoveNoDup(ring, bh);
      RemoveFromFreeList(bh);
      SpliceIn(bh);
      ghost var k: nat := |ring| - 1;
      RingTurn(nextFree[..], prevFree[..], freeList, ring);
      freeList := bh;
      ring := [bh] + ring[..k];
    }

    /** put_last_free. */
    method PutLastFree(bh: nat)
      requires Valid() && bh in ring && |ring| >= 2
      modifies nextFree, prevFree, this`freeList, this`ring
      ensures Valid() && ring == Remove(old(ring), bh) + [bh]
    {
      if bh == freeList {
        RingRotate(nextFree[..], prevFree[..], freeList, ring);
        RemoveAt(ring, 0);
        freeList := nextFree[bh];
        ring := ring[1..] + [bh];
        return;
      }
      RemoveNoDup(ring, bh);
      RemoveFromFreeList(bh);
      SpliceIn(bh);
    }

    /** insert_into_queues: to the end of the ring and, if it has a device, to the front of its hash queue. */
    method InsertIntoQueues(bh: nat)
      requires Valid() && bh < heads.Length && bh !in ring && ring != [] && !InQueue(heads[..], chain, bh)
      modifies next, prev, nextFree, prevFree, table, this`ring, this`chain
      ensures Valid() && ring == old(ring) + [bh]
      ensures var h := HashFn(heads[bh].key);
              chain == if heads[bh].key.dev == 0 then old(chain) else old(chain)[h := [bh] + old(chain)[h]]
    {
      SpliceIn(bh);
      prev[bh], next[bh] := NULL, NULL;
      assert next[..] == old(next[..]) && prev[..] == old(prev[..]);
      if heads[bh].key.dev == 0 {
        return;
      }
      var h := HashFn(heads[bh].key);
      ghost var n, p, t := next[..], prev[..], table[..];
      Place0(heads[..], n, p, t, chain, bh);
      hide RingLinked, ChainLinked, Linked, NoDup, HashFn;
      next[bh] := table[h];
      table[h] := bh;
      if next[bh] != NULL {
        prev[next[bh]] := bh;
      }
      HookIn(heads[..], n, p, t, chain, bh, next[..], prev[..], table[..]);
      chain := chain[h := [bh] + chain[h]];
    }

    /** find_buffer: along the hash queue. */
    method Find(k: Key, size: nat) returns (tmp: int)
      requires Valid()
      ensures var c := chain[HashFn(k)];
              Within(c, heads.Length) && tmp == Pointer(FindIn(heads[..], c, k, size))
    {
      ghost var c := chain[HashFn(k)];
      assert ChainLinked(next[..], prev[..], table[HashFn(k)], c);
      ghost var i: nat := 0;
      tmp := table[HashFn(k)];
      while tmp != NULL
        invariant i <= |c| && tmp == At(c, i)
        invariant FindIn(heads[..], c[i..], k, size) == FindIn(heads[..], c, k, size)
        decreases |c| - i
      {
        assert c[i..][1..] == c[i + 1..];
        if heads[tmp].key == k {
          if heads[tmp].size == size {
            return;
          }
          return NULL;
        }
        assert i + 1 < |c| ==> c[i + 1] == next[c[i]];
        tmp := next[tmp];
        i := i + 1;
      }
    }

    /** The loop of getblk that looks for a victim; nrBuffers is the length of the ring. */
    method PickVictim(size: nat, nrBuffers: nat) returns (bh: int)
      requires Valid() && nrBuffers == |ring| && ring != []
      ensures Within(ring, heads.Length) && bh == Pointer(PickFrom(heads[..], ring, size, None))
    {
      bh := NULL;
      var buffers: nat, tmp := nrBuffers, freeList;
      ghost var i: nat := 0;
      assert ring[0..] == ring;
      while buffers > 0
        invariant i <= |ring| && buffers == |ring| - i && NULL <= bh < heads.Length
        invariant i < |ring| ==> tmp == ring[i]
        invariant PickFrom(heads[..], ring[i..], size, Ref(bh)) == PickFrom(heads[..], ring, size, None)
      {
        assert ring[i..][1..] == ring[i + 1..];
        buffers := buffers - 1;
        if heads[tmp].count == 0 && heads[tmp].size == size {
          if bh == NULL || Badness(heads[tmp]) < Badness(heads[bh]) {
            bh := tmp;
            if Badness(heads[tmp]) == 0 {
              return;
            }
          }
        }
        assert i + 1 < |ring| ==> ring[i + 1] == nextFree[ring[i]];
        assert i + 1 == |ring| ==> ring[0] == nextFree[ring[i]];
        tmp := nextFree[tmp];
        i := i + 1;
      }
    }

    /** The last lines of getblk, on a victim that has passed all tests. */
    method ReKeyBuffer(bh: nat, k: Key)
      requires Valid() && bh in ring && |ring| >= 2 && k.dev != 0
      modifies this, heads, next, prev, nextFree, prevFree, table
      ensures Valid() && ring == Remove(old(ring), bh) + [bh]
      ensures heads[..] == old(heads[..])[bh := old(heads[bh]).(key := k, count := 1, dirt := false, uptodate := false)]
      ensures var h := HashFn(old(heads[bh]).key);
              var without := old(chain)[h := Remove(old(chain)[h], bh)];
              chain == without[HashFn(k) := [bh] + without[HashFn(k)]]
    {
      RemoveNoDup(ring, bh);
      FlagChange(heads[..], next[..], prev[..], table[..], chain, bh,
          heads[bh].(count := 1, dirt := false, uptodate := false));
      heads[bh] := heads[bh].(count := 1, dirt := false, uptodate := false);
      RemoveFromHashQueue(bh);
      RemoveFromFreeList(bh);
      KeyChange(heads[..], next[..], prev[..], table[..], chain, bh, heads[bh].(key := k));
      heads[bh] := heads[bh].(key := k);
      InsertIntoQueues(bh);
    }

    /** The first loop of try_to_free, around the page of `bh`. */
    method AllIdle(bh: nat, ghost page: seq<nat>) returns (idle: bool)
      requires Valid() && PageRing(thisPage[..], page) && Within(page, heads.Length) && page != [] && page[0] == bh
      ensures idle <==> forall c :: c in page ==> AtRest(heads[c])
    {
      var tmp: int := bh;
      ghost var i: nat := 0;
      while true
        invariant i < |page| && tmp == page[i] && forall j :: 0 <= j < i ==> AtRest(heads[page[j]])
        decreases |page| - i
      {
        if heads[tmp].count != 0 || heads[tmp].dirt || !heads[tmp].io.Unlocked? {
          assert page[i] in page;
          return false;
        }
        ghost var j := if i + 1 == |page| then 0 else i + 1;
        assert page[j] == thisPage[page[i]];
        assert j != 0 ==> page[j] != page[0];
        tmp := thisPage[tmp];
        i := i + 1;
        if tmp == bh {
          return true;
        }
      }
    }

    /** remove_from_queues and put_unused_buffer_head. */
    method GiveUpHead(p: nat)
      requires Valid() && p in ring && |ring| >= 2
      modifies this, heads, next, prev, nextFree, prevFree, table
      ensures Valid() && ring == Remove(old(ring), p) && heads[..] == old(heads[..])[p := NoHead()]
      ensures var h := HashFn(old(heads[p]).key); chain == old(chain)[h := Remove(old(chain)[h], p)]
    {
      RemoveFromHashQueue(p);
      RemoveFromFreeList(p);
      KeyChange(heads[..], next[..], prev[..], table[..], chain, p, NoHead());
      heads[p] := NoHead();
    }

    /** try_to_free: gives up all buffers of the page of `bh`, if all are idle. */
    method TryToFreePage(bh: nat, ghost page: seq<nat>) returns (freed: bool)
      requires Valid() && PageRing(thisPage[..], page) && page != [] && page[0] == bh
      requires (forall c :: c in page ==> c in ring) && |ring| > |page|
      modifies this, heads, next, prev, nextFree, prevFree, table
      ensures Valid() && (freed <==> forall c :: c in page ==> AtRest(old(heads[..])[c]))
      ensures !freed ==> ring == old(ring) && chain == old(chain) && heads[..] == old(heads[..])
      ensures freed ==> ring == Without(old(ring), Set(page)) && heads[..] == Wipe(old(heads[..]), Set(page))
      ensures freed ==> |chain| == |old(chain)| && forall h :: 0 <= h < NR_HASH ==>
          chain[h] == Without(old(chain)[h], Set(page))
    {
      freed := AllIdle(bh, page);
      if !freed {
        return;
      }
      var tmp: int := bh;
      ghost var i: nat := 0;
      var again := true;
      PageStart(old(heads[..]), old(ring), old(chain), page);
      ghost var n, r, t := next[..], prev[..], table[..];
      hide RingLinked, Linked, ChainLinked, NoDup, PageRing, PageGone;
      while again
        invariant Valid() && i <= |page| && (again <==> i < |page|) && (again ==> tmp == page[i])
        invariant PageGone(old(heads[..]), old(ring), old(chain), Set(page[..i]), heads[..], ring, chain)
        invariant |ring| == |old(ring)| - i
        decreases |page| - i
      {
        var p := tmp;
        PageTurn(thisPage[..], page, i);
        PageStep(old(heads[..]), n, r, t, old(ring), old(chain), Set(page[..i]), heads[..], ring, chain, p);
        tmp := thisPage[p];
        GiveUpHead(p);
        i := i + 1;
        again := tmp != bh;
      }
      PageEnd(old(heads[..]), old(ring), old(chain), page, heads[..], ring, chain);
    }
  }
}

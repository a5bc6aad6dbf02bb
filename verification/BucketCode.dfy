/**
 lib/malloc.c in its own form: chains walked along their pointers, free objects threaded
 through a page, counts and links changed in place. Callers of the walks know the lists
 the pointers form; these are ghost.
*/
module BucketCode {
  import opened Buckets

  class Heap {
    const head: array<int>       // bucket_dir chains and free_bucket_desc
    var desc: seq<Desc>          // all descriptors made so far
    var word: map<Obj, int>
    var pages: set<nat>
    var panicked: bool

    ghost predicate Valid()
      reads this, head
    {
      head.Length == DIRS + 1 && Shape(View())
    }

    /** The heap as a state with no process between two halves. */
    ghost function View(): State
      reads this, head
    {
      State(head[..], desc, word, pages, [], panicked)
    }

    constructor ()
      ensures Valid() && View() == State(seq(DIRS + 1, _ => NULL), [], map[], {}, [], false)
    {
      head := new int[DIRS + 1](_ => NULL);
      desc, word, pages, panicked := [], map[], {}, false;
      new;
      assert head[..] == seq(DIRS + 1, _ => NULL);
    }

    /** init_bucket_desc: each new descriptor points to the next one, the last one to the old free list. */
    method InitBucketDesc()
      requires Valid()
      modifies this, head
      ensures Valid() && View() == MoreDescs(old(View()))
    {
      var n := |desc|;
      var i: nat := 0;
      ghost var all := NewDescs(n, head[FREE]);
      while i < DESCS_PER_PAGE
        invariant i <= DESCS_PER_PAGE && desc == old(desc) + all[..i]
        invariant head[..] == old(head[..]) && word == old(word) && pages == old(pages) && panicked == old(panicked)
      {
        desc := desc + [Desc(0, if i + 1 < DESCS_PER_PAGE then n + i + 1 else head[FREE], NULL, 0, 0)];
        i := i + 1;
      }
      assert all[..i] == all;
      head[FREE] := n;
    }

    /** The descriptor of chain `g` with a free object, or none. */
    method FindSpace(g: nat, ghost lists: Lists) returns (b: int)
      requires Valid() && g < DIRS && ListsOk(View(), lists)
      ensures b == WalkFree(desc, head[g], |desc|)
    {
      ghost var q := lists[g];
      assert Linked(desc, head[g], q);
      ListLength(q, |desc|);
      ghost var i: nat := 0;
      b := head[g];
      while b != NULL && desc[b].freeptr == NULL
        invariant i <= |q| && b == At(q, i) && WalkFree(desc, b, |desc| - i) == WalkFree(desc, head[g], |desc|)
        decreases |q| - i
      {
        ghost var j := i + 1;
        assert j < |q| ==> desc[q[i]].next == q[j];
        b := desc[b].next;
        i := i + 1;
      }
    }

    /** Hands out the first free object of a descriptor that has one. */
    method Take(b: nat) returns (obj: Obj)
      requires Valid() && b < |desc| && desc[b].freeptr >= 0 && NULL <= Word(View(), Obj(desc[b].page, desc[b].freeptr))
      modifies this
      ensures Valid() && View() == TakeFrom(old(View()), b) && obj == Obj(old(desc[b].page), old(desc[b].freeptr))
    {
      var d := desc[b];
      obj := Obj(d.page, d.freeptr);
      var next := if obj in word then word[obj] else 0;
      desc := desc[b := d.(freeptr := next, refcnt := (d.refcnt + 1) % 65536)];
    }

    /** Threads the objects of a new page. */
    method ThreadPage(page: nat, n: nat)
      requires Valid()
      modifies this
      ensures Valid() && View() == old(View()).(word := Thread(old(word), page, 0, n))
    {
      var k: nat := 0;
      while k < n
        invariant Valid() && k <= n && View() == old(View()).(word := word)
        invariant Thread(word, page, k, n) == Thread(old(word), page, 0, n)
      {
        word := word[Obj(page, k) := if k + 1 < n then k + 1 else NULL];
        k := k + 1;
      }
    }

    /** A new first descriptor for chain `g`: the rest of malloc once it has a page. */
    method LinkNew(g: nat, b: nat, page: nat) returns (obj: Obj)
      requires Valid() && g < DIRS && b < |desc|
      modifies this, head
      ensures Valid()
      ensures obj == Obj(page, 0)
      ensures View() == LinkPage(old(View()).(task := [Growing(g, b)]), 0, page).(task := [])
    {
      desc := desc[b := Desc(page, head[g], 0, 0, g)];
      pages := pages + {page};
      ThreadPage(page, PerPage(g));
      head[g] := b;
      obj := Take(b);
    }

    /** The search of free_s in one chain. */
    method FindPage(g: nat, page: nat, ghost lists: Lists) returns (b: int, prev: int)
      requires Valid() && g < DIRS && ListsOk(View(), lists)
      ensures (b, prev) == WalkPage(desc, head[g], NULL, page, |desc|)
    {
      ghost var q := lists[g];
      assert Linked(desc, head[g], q);
      ListLength(q, |desc|);
      ghost var i: nat := 0;
      b, prev := head[g], NULL;
      while b != NULL && desc[b].page != page
        invariant i <= |q| && b == At(q, i) && NULL <= prev < |desc|
        invariant WalkPage(desc, b, prev, page, |desc| - i) == WalkPage(desc, head[g], NULL, page, |desc|)
        decreases |q| - i
      {
        ghost var j := i + 1;
        assert j < |q| ==> desc[q[i]].next == q[j];
        prev := b;
        b := desc[b].next;
        i := i + 1;
      }
    }

    /** The search of free_s; chains of smaller objects are skipped. */
    method FindDesc(page: nat, size: nat, ghost lists: Lists) returns (r: Place)
      requires Valid() && ListsOk(View(), lists)
      ensures r == SearchDirs(View(), page, size, 0)
    {
      var g: nat := 0;
      while g < DIRS
        invariant g <= DIRS && SearchDirs(View(), page, size, g) == SearchDirs(View(), page, size, 0)
      {
        if SizeOf(g) >= size {
          var b, prev := FindPage(g, page, lists);
          if b != NULL {
            return Place(g, b, prev);
          }
        }
        g := g + 1;
      }
      return Nowhere;
    }

    /** Unlinks a descriptor, looking for its predecessor again if `prev` no longer is one. */
    method UnlinkDesc(g: nat, b: nat, prev: int, ghost lists: Lists)
      requires Valid() && g < DIRS && b < |desc| && NULL <= prev < |desc| && ListsOk(View(), lists)
      modifies this, head
      ensures Valid() && View() == Unlink(old(View()), g, b, prev)
    {
      var p := prev;
      if (p != NULL && desc[p].next != b) || (p == NULL && head[g] != b) {
        ghost var q := lists[g];
        assert Linked(desc, head[g], q);
        ListLength(q, |desc|);
        ghost var i: nat := 0;
        p := head[g];
        while p != NULL && desc[p].next != b
          invariant i <= |q| && p == At(q, i) && WalkPrev(desc, p, b, |desc| - i) == WalkPrev(desc, head[g], b, |desc|)
          decreases |q| - i
        {
          ghost var j := i + 1;
          assert j < |q| ==> desc[q[i]].next == q[j];
          p := desc[p].next;
          i := i + 1;
        }
      }
      if p != NULL {
        desc := desc[p := desc[p].(next := desc[b].next)];
      } else if head[g] != b {
        panicked := true;
      } else {
        head[g] := desc[b].next;
      }
    }

    /** free_s after its search: the object goes to its free list, and with the last one the page. */
    method Release(obj: Obj, g: nat, b: nat, prev: int, ghost lists: Lists)
      requires Valid() && g < DIRS && b < |desc| && NULL <= prev < |desc| && ListsOk(View(), lists)
      modifies this, head
      ensures Valid()
      ensures var s := old(View()).(task := [Freeing(obj, g, b, prev)]); View() == DoFinish(s, 0).(task := [])
    {
      hide ListsOk;
      var d := desc[b];
      word := word[obj := d.freeptr];
      desc := desc[b := d.(freeptr := obj.k, refcnt := if d.refcnt == 0 then 65535 else d.refcnt - 1)];
      if desc[b].refcnt == 0 {
        ListsSame(old(View()), lists, View());
        UnlinkDesc(g, b, prev, lists);
        if panicked {
          return;
        }
        pages := pages - {desc[b].page};
        desc := desc[b := desc[b].(next := head[FREE])];
        head[FREE] := b;
      }
    }
  }
}

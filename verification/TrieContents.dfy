/**
 What the link operations of the trie do to its contents and to path compression.
 */
module TrieContents {
  import opened Bytes
  import opened RadixTrie

  /** Every entry sits at its key, and every key has a node. */
  lemma ContentsIs(ns: Nodes, pt: Paths, m: map<Bytes, Value>)
    requires WellLinked(ns, pt)
    requires forall id :: id in pt && 0 <= id < |ns| && ns[id].value.Some? ==>
               pt[id] in m && m[pt[id]] == ns[id].value.value
    requires forall k :: k in m ==> exists id :: Holds(ns, pt, k, id)
    ensures Contents(ns, pt) == m
  {
    var cs := Contents(ns, pt);
    forall k | k in m
      ensures k in cs && cs[k] == m[k]
    {
      ContentsAt(ns, pt, k);
    }
    forall k | k in cs
      ensures k in m
    {
      ContentsAt(ns, pt, k);
    }
  }

  /** Node `id` of a well-linked trie holds the entry the contents give for its path. */
  lemma EntryAt(ns: Nodes, pt: Paths, id: int)
    requires WellLinked(ns, pt) && id in pt
    ensures 0 <= id < |ns|
    ensures ns[id].value.Some? <==> pt[id] in Contents(ns, pt)
    ensures ns[id].value.Some? ==> Contents(ns, pt)[pt[id]] == ns[id].value.value
  {
    assert NodeOk(ns, pt, id);
    ContentsAt(ns, pt, pt[id]);
    if pt[id] in Contents(ns, pt) {
      var x :| Holds(ns, pt, pt[id], x);
      PathsDiffer(ns, pt, x, id);
    }
  }

  /** Old nodes keep their paths and, except at `id`, their values; new nodes other than `id` are routing nodes. */
  ghost predicate Extends(ns: Nodes, pt: Paths, ns': Nodes, pt': Paths, id: int) {
    && (forall x :: x in pt ==> x in pt' && pt'[x] == pt[x])
    && (forall x :: x in pt && 0 <= x < |ns| && x != id ==> x < |ns'| && ns'[x].value == ns[x].value)
    && (forall x :: x in pt' && x !in pt && x != id ==> 0 <= x < |ns'| && ns'[x].value == None)
  }

  lemma ContentsWith(ns: Nodes, pt: Paths, ns': Nodes, pt': Paths, id: int, v: Value)
    requires WellLinked(ns, pt) && WellLinked(ns', pt') && Extends(ns, pt, ns', pt', id)
    requires id in pt' && 0 <= id < |ns'| && ns'[id].value == Some(v)
    ensures Contents(ns', pt') == Contents(ns, pt)[pt'[id] := v]
  {
    var m := Contents(ns, pt)[pt'[id] := v];
    forall x | x in pt' && 0 <= x < |ns'| && ns'[x].value.Some?
      ensures pt'[x] in m && m[pt'[x]] == ns'[x].value.value
    {
      if x != id {
        EntryAt(ns, pt, x);
        if pt'[x] == pt'[id] {
          PathsDiffer(ns', pt', x, id);
        }
      }
    }
    forall k | k in m
      ensures exists x :: Holds(ns', pt', k, x)
    {
      if k == pt'[id] {
        assert Holds(ns', pt', k, id);
      } else {
        ContentsAt(ns, pt, k);
        var x :| Holds(ns, pt, k, x);
        assert Holds(ns', pt', k, x);
      }
    }
    ContentsIs(ns', pt', m);
  }

  /** Remaining nodes keep paths and values; every entry that went has its key in `gone`. */
  ghost predicate Shrinks(ns: Nodes, pt: Paths, ns': Nodes, pt': Paths, gone: set<Bytes>) {
    && (forall x :: x in pt' ==> x in pt && pt'[x] == pt[x])
    && (forall x :: x in pt' && 0 <= x < |ns'| && ns'[x].value.Some? ==>
          x < |ns| && ns'[x].value == ns[x].value && pt[x] !in gone)
    && (forall x :: x in pt && 0 <= x < |ns| && ns[x].value.Some? && pt[x] !in gone ==>
                      x in pt' && x < |ns'| && ns'[x].value == ns[x].value)
  }

  lemma ContentsWithout(ns: Nodes, pt: Paths, ns': Nodes, pt': Paths, gone: set<Bytes>)
    requires WellLinked(ns, pt) && WellLinked(ns', pt') && Shrinks(ns, pt, ns', pt', gone)
    ensures Contents(ns', pt') == Contents(ns, pt) - gone
  {
    var m := Contents(ns, pt) - gone;
    forall x | x in pt' && 0 <= x < |ns'| && ns'[x].value.Some?
      ensures pt'[x] in m && m[pt'[x]] == ns'[x].value.value
    {
      EntryAt(ns, pt, x);
    }
    forall k | k in m
      ensures exists x :: Holds(ns', pt', k, x)
    {
      ContentsAt(ns, pt, k);
      var x :| Holds(ns, pt, k, x);
      assert Holds(ns', pt', k, x);
    }
    ContentsIs(ns', pt', m);
  }

  lemma HasChild(ns: Nodes, pt: Paths, x: int, y: int)
    requires WellLinked(ns, pt) && x in pt && y in pt && pt[x] <= pt[y] && x != y
    ensures 0 <= x < |ns| && ns[x].child != NIL
  {
    PrefixAnc(ns, pt, x, y);
    var z := ChildTowards(ns, pt, x, y);
    assert NodeOk(ns, pt, z);
  }

  /** Nothing lies below a node without a child. */
  lemma LeafAlone(ns: Nodes, pt: Paths, x: int)
    requires WellLinked(ns, pt) && x in pt && 0 <= x < |ns| && ns[x].child == NIL
    ensures Without(pt, x) == pt - {x}
  {
    forall y | y in pt && pt[x] <= pt[y]
      ensures y == x
    {
      if x != y {
        HasChild(ns, pt, x, y);
      }
    }
  }

  // ---------------------------------------------------------------------------------------------
  // Path compression
  // ---------------------------------------------------------------------------------------------

  /** A new leaf leaves every node branching that was, and turns a node with a child into a branching one. */
  lemma LeafBranches(ns: Nodes, pt: Paths, p: int, prev: int, next: int, n: int, prefix: Bytes, v: Value, kl: int,
      id: int)
    requires WellLinked(ns, pt) && CanLink(ns, pt, p, prev, next, n, prefix) && id in pt
    requires Branches(ns, id) || (id == p && ns[p].child != NIL)
    ensures Branches(WithLeaf(ns, p, prev, next, n, prefix, v, kl), id)
  {
    assert NodeOk(ns, pt, id);
    if id == p && prev != NIL && ns[p].child != prev {
      assert NodeOk(ns, pt, prev);
      assert PairOk(ns, pt, ns[p].child, prev);
    }
  }

  lemma SplitBranches(ns: Nodes, pt: Paths, p: int, prev: int, c: int, m: int, k: nat, kl: int, id: int)
    requires WellLinked(ns, pt) && CanSplit(ns, pt, p, prev, c, m, k) && id in pt && Branches(ns, id)
    ensures Branches(WithSplit(ns, p, prev, c, m, k, kl), id)
  {
    assert NodeOk(ns, pt, id);
    assert NodeOk(ns, pt, c);
    if prev != NIL {
      BeforeOrder(ns, pt, p, prev, c);
    }
  }

  lemma CutBranches(ns: Nodes, pt: Paths, p: int, prev: int, x: int, id: int)
    requires WellLinked(ns, pt) && Before(ns, pt, p, prev, x) && id in pt && id != p && Branches(ns, id)
    ensures Branches(Unlinked(ns, p, prev, x), id)
  {
    assert NodeOk(ns, pt, id);
  }

  lemma MergeBranches(ns: Nodes, pt: Paths, q: int, prev: int, m: int, c: int, id: int)
    requires WellLinked(ns, pt) && CanMerge(ns, pt, q, prev, m, c) && id in pt && id != m && Branches(ns, id)
    ensures Branches(Merged(ns, q, prev, m, c), id)
  {
    OnlyKid(ns, pt, q, prev, m, c, id);
  }
}

/**
 Compaction renumbers the nodes (compactDataStructuresLocked in arena_radix.go): live nodes move
 together in the order of their ids, and every link is translated.
 */
module Renumbering {
  import opened Bytes
  import opened RadixTrie
  import TC = TrieContents

  type Table = map<int, int>

  /** remap: a link under the new numbers. */
  function Link(ren: Table, x: int): int {
    if x in ren then ren[x] else NIL
  }

  function Moved(n: Node, ren: Table): Node {
    n.(parent := Link(ren, n.parent), child := Link(ren, n.child), sibling := Link(ren, n.sibling))
  }

  /** `live` lists the live nodes by their new numbers, and `ren` is its inverse. */
  ghost predicate Numbers(pt: Paths, live: seq<int>, ren: Table) {
    && (forall k :: 0 <= k < |live| ==> live[k] in pt && live[k] in ren && ren[live[k]] == k)
    && (forall id :: id in ren <==> id in pt)
    && (forall id :: id in pt ==> 0 <= ren[id] < |live| && live[ren[id]] == id)
    && ROOT in ren && ren[ROOT] == ROOT && NIL !in ren
  }

  function NewNodes(ns: Nodes, live: seq<int>, ren: Table): (r: Nodes)
    requires forall k :: 0 <= k < |live| ==> 0 <= live[k] < |ns|
    ensures |r| == |live| && forall k :: 0 <= k < |r| ==> r[k] == Moved(ns[live[k]], ren)
  {
    seq(|live|, k requires 0 <= k < |live| => Moved(ns[live[k]], ren))
  }

  ghost function NewPaths(pt: Paths, live: seq<int>): (r: Paths)
    requires forall k :: 0 <= k < |live| ==> live[k] in pt
    ensures forall k :: k in r <==> 0 <= k < |live|
    ensures forall k :: 0 <= k < |live| ==> r[k] == pt[live[k]]
  {
    map k | 0 <= k < |live| :: pt[live[k]]
  }

  /** The old nodes are in range. */
  ghost predicate Fits(ns: Nodes, pt: Paths, live: seq<int>, ren: Table) {
    && WellLinked(ns, pt) && Numbers(pt, live, ren)
    && forall k :: 0 <= k < |live| ==> 0 <= live[k] < |ns|
  }

  /** Children correspond. */
  lemma KidMoves(ns: Nodes, pt: Paths, live: seq<int>, ren: Table, c: int, p: int)
    requires Fits(ns, pt, live, ren) && p in pt && IsKid(ns, pt, c, p)
    ensures c in ren && p in ren && IsKid(NewNodes(ns, live, ren), NewPaths(pt, live), ren[c], ren[p])
    ensures First(NewNodes(ns, live, ren), ren[c]) == First(ns, c)
  {
  }

  lemma KidBack(ns: Nodes, pt: Paths, live: seq<int>, ren: Table, c: int, p: int)
    requires Fits(ns, pt, live, ren) && 0 <= p < |live| && IsKid(NewNodes(ns, live, ren), NewPaths(pt, live), c, p)
    ensures 0 <= c < |live| && IsKid(ns, pt, live[c], live[p])
    ensures First(NewNodes(ns, live, ren), c) == First(ns, live[c])
  {
    assert NodeOk(ns, pt, live[c]);
  }

  lemma MovedNode(ns: Nodes, pt: Paths, live: seq<int>, ren: Table, k: int)
    requires Fits(ns, pt, live, ren) && 0 <= k < |live|
    ensures NodeOk(NewNodes(ns, live, ren), NewPaths(pt, live), k)
  {
    hide WellLinked;
    var id := live[k];
    LinkedNode(ns, pt, id);
    if ns[id].child != NIL {
      KidMoves(ns, pt, live, ren, ns[id].child, id);
    }
    if id != ROOT {
      var p := ns[id].parent;
      if ns[id].sibling != NIL {
        KidMoves(ns, pt, live, ren, ns[id].sibling, p);
      }
      KidMoves(ns, pt, live, ren, ns[p].child, p);
      KidMoves(ns, pt, live, ren, id, p);
    }
  }

  lemma LinkedNode(ns: Nodes, pt: Paths, id: int)
    requires WellLinked(ns, pt) && id in pt
    ensures NodeOk(ns, pt, id)
  {
  }

  lemma MovedPair(ns: Nodes, pt: Paths, live: seq<int>, ren: Table, a: int, c: int)
    requires Fits(ns, pt, live, ren)
    ensures PairOk(NewNodes(ns, live, ren), NewPaths(pt, live), a, c)
  {
    var ns', pt' := NewNodes(ns, live, ren), NewPaths(pt, live);
    if a in pt' && c in pt' && a != c && IsKid(ns', pt', a, ns'[a].parent) && IsKid(ns', pt', c, ns'[a].parent) {
      assert NodeOk(ns, pt, live[a]);
      var p := ns'[a].parent;
      KidBack(ns, pt, live, ren, a, p);
      KidBack(ns, pt, live, ren, c, p);
      assert PairOk(ns, pt, live[a], live[c]);
      if ns[live[a]].sibling != NIL {
        KidMoves(ns, pt, live, ren, ns[live[a]].sibling, live[p]);
      }
    }
  }

  lemma MovedLinked(ns: Nodes, pt: Paths, live: seq<int>, ren: Table)
    requires Fits(ns, pt, live, ren)
    ensures WellLinked(NewNodes(ns, live, ren), NewPaths(pt, live))
  {
    var ns', pt' := NewNodes(ns, live, ren), NewPaths(pt, live);
    forall k | k in pt' ensures NodeOk(ns', pt', k) {
      MovedNode(ns, pt, live, ren, k);
    }
    forall a, c ensures PairOk(ns', pt', a, c) {
      MovedPair(ns, pt, live, ren, a, c);
    }
    assert live[ROOT] == ROOT;
  }

  lemma MovedCompact(ns: Nodes, pt: Paths, live: seq<int>, ren: Table)
    requires Fits(ns, pt, live, ren) && CompactBut(ns, pt, ROOT)
    ensures CompactBut(NewNodes(ns, live, ren), NewPaths(pt, live), ROOT)
  {
    var ns', pt' := NewNodes(ns, live, ren), NewPaths(pt, live);
    forall k | k in pt' && k != ROOT ensures Branches(ns', k) {
      assert Branches(ns, live[k]) && NodeOk(ns, pt, live[k]);
      if ns[live[k]].value.None? {
        assert NodeOk(ns, pt, ns[live[k]].child);
      }
    }
  }

  /** The same entries under the new numbers. */
  lemma MovedContents(ns: Nodes, pt: Paths, live: seq<int>, ren: Table)
    requires Fits(ns, pt, live, ren) && WellLinked(NewNodes(ns, live, ren), NewPaths(pt, live))
    ensures Contents(NewNodes(ns, live, ren), NewPaths(pt, live)) == Contents(ns, pt)
  {
    var ns', pt', m := NewNodes(ns, live, ren), NewPaths(pt, live), Contents(ns, pt);
    forall k | k in pt' && 0 <= k < |ns'| && ns'[k].value.Some?
      ensures pt'[k] in m && m[pt'[k]] == ns'[k].value.value
    {
      TC.EntryAt(ns, pt, live[k]);
    }
    forall key | key in m
      ensures exists k :: Holds(ns', pt', key, k)
    {
      ContentsAt(ns, pt, key);
      var id :| Holds(ns, pt, key, id);
      assert Holds(ns', pt', key, ren[id]);
    }
    TC.ContentsIs(ns', pt', m);
  }
}

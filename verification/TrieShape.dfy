/**
 The compressed trie is canonical: its contents fix its nodes, its edges and its links, up to the
 choice of node ids.
 */
module TrieShape {
  import opened Bytes
  import opened RadixTrie
  import opened TrieContents
  import opened TrieOrder
  import opened ArenaTrie
  import TK = TrieKeys
  import TL = TrieLabels

  /** Two keys agree up to `q` and part there. */
  predicate Parting(q: Bytes, k1: Bytes, k2: Bytes) {
    q <= k1 && q <= k2 && |q| < |k1| && |q| < |k2| && k1[|q|] != k2[|q|]
  }

  /** The strings that must have a node: the empty one, the keys, and where two keys part. */
  ghost predicate InShape(keys: set<Bytes>, q: Bytes) {
    q == [] || q in keys || exists k1, k2 :: k1 in keys && k2 in keys && Parting(q, k1, k2)
  }

  /** Every node other than a childless root has an entry at or below it. */
  lemma {:induction false} EntryBelow(ns: Nodes, pt: Paths, id: int) returns (y: int)
    requires WellFormed(ns, pt) && id in pt && id != ROOT
    ensures y in pt && 0 <= y < |ns| && ns[y].value.Some? && pt[id] <= pt[y]
    decreases Below(pt, id)
  {
    assert Branches(ns, id);
    assert NodeOk(ns, pt, id);
    if ns[id].value.Some? {
      y := id;
    } else {
      var c := ns[id].child;
      assert NodeOk(ns, pt, c);
      assert id in Below(pt, id) && id !in Below(pt, c) && Below(pt, c) <= Below(pt, id);
      y := EntryBelow(ns, pt, c);
    }
  }

  /** Two children of one node part there. */
  lemma KidsPart(ns: Nodes, pt: Paths, q: int, c: int, s: int)
    requires WellFormed(ns, pt) && q in pt && IsKid(ns, pt, c, q) && IsKid(ns, pt, s, q) && c != s
    ensures InShape(Contents(ns, pt).Keys, pt[q])
  {
    var y := EntryBelow(ns, pt, c);
    var z := EntryBelow(ns, pt, s);
    EntryAt(ns, pt, y);
    EntryAt(ns, pt, z);
    assert NodeOk(ns, pt, c);
    assert NodeOk(ns, pt, s);
    assert PairOk(ns, pt, c, s);
    assert Parting(pt[q], pt[y], pt[z]);
  }

  lemma NodeInShape(ns: Nodes, pt: Paths, id: int)
    requires WellFormed(ns, pt) && id in pt
    ensures InShape(Contents(ns, pt).Keys, pt[id])
  {
    if id != ROOT {
      assert Branches(ns, id);
      assert NodeOk(ns, pt, id);
      if ns[id].value.Some? {
        EntryAt(ns, pt, id);
      } else {
        var c := ns[id].child;
        assert NodeOk(ns, pt, c);
        KidsPart(ns, pt, id, c, ns[c].sibling);
      }
    }
  }

  /** Descend along both keys until the node where they part. */
  lemma {:induction false} PartingNode(ns: Nodes, pt: Paths, curr: int, q: Bytes, a: int, b: int) returns (id: int)
    requires WellLinked(ns, pt) && curr in pt && a in pt && b in pt && pt[curr] <= q && Parting(q, pt[a], pt[b])
    ensures id in pt && pt[id] == q
    decreases |q| - |pt[curr]|
  {
    if pt[curr] == q {
      id := curr;
    } else {
      PrefixAnc(ns, pt, curr, a);
      PrefixAnc(ns, pt, curr, b);
      var d := ChildTowards(ns, pt, curr, a);
      var e := ChildTowards(ns, pt, curr, b);
      assert PairOk(ns, pt, d, e);
      var n := |pt[curr]|;
      assert q[n] == pt[a][n] == pt[b][n];
      assert d == e;
      assert forall i :: 0 <= i < |pt[d]| ==> pt[d][i] == pt[a][i] && pt[d][i] == pt[b][i];
      assert pt[d] == pt[a][..|pt[d]|] == q[..|pt[d]|];
      id := PartingNode(ns, pt, d, q, a, b);
    }
  }

  /** The paths of a compressed trie are exactly the strings its contents call for. */
  lemma ShapeNode(ns: Nodes, pt: Paths, q: Bytes) returns (id: int)
    requires WellFormed(ns, pt) && InShape(Contents(ns, pt).Keys, q)
    ensures id in pt && pt[id] == q
  {
    var keys := Contents(ns, pt).Keys;
    if q == [] {
      id := ROOT;
    } else if q in keys {
      ContentsAt(ns, pt, q);
      id :| Holds(ns, pt, q, id);
    } else {
      var k1, k2 :| k1 in keys && k2 in keys && Parting(q, k1, k2);
      ContentsAt(ns, pt, k1);
      ContentsAt(ns, pt, k2);
      var a :| Holds(ns, pt, k1, a);
      var b :| Holds(ns, pt, k2, b);
      id := PartingNode(ns, pt, ROOT, q, a, b);
    }
  }

  // ---------------------------------------------------------------------------------------------
  // Two tries with the same contents
  // ---------------------------------------------------------------------------------------------

  ghost predicate SameContents(ns1: Nodes, pt1: Paths, ns2: Nodes, pt2: Paths) {
    WellFormed(ns1, pt1) && WellFormed(ns2, pt2) && Contents(ns1, pt1) == Contents(ns2, pt2)
  }

  /** Links lead to nodes with the same path, or nowhere. */
  predicate SameLink(pt1: Paths, pt2: Paths, a: int, b: int) {
    (a == NIL && b == NIL) || (a in pt1 && b in pt2 && pt1[a] == pt2[b])
  }

  /** Nodes `a` and `b` agree in everything but the numbering of their neighbours. */
  ghost predicate SameNode(ns1: Nodes, pt1: Paths, ns2: Nodes, pt2: Paths, a: int, b: int) {
    && a in pt1 && b in pt2 && 0 <= a < |ns1| && 0 <= b < |ns2| && pt1[a] == pt2[b]
    && ns1[a].prefix == ns2[b].prefix && ns1[a].value == ns2[b].value
    && SameLink(pt1, pt2, ns1[a].parent, ns2[b].parent)
    && SameLink(pt1, pt2, ns1[a].child, ns2[b].child)
    && SameLink(pt1, pt2, ns1[a].sibling, ns2[b].sibling)
  }

  ghost predicate SameShape(ns1: Nodes, pt1: Paths, ns2: Nodes, pt2: Paths) {
    && (forall a :: a in pt1 ==> exists b :: SameNode(ns1, pt1, ns2, pt2, a, b))
    && (forall b :: b in pt2 ==> exists a :: SameNode(ns1, pt1, ns2, pt2, a, b))
  }

  lemma Counterpart(ns1: Nodes, pt1: Paths, ns2: Nodes, pt2: Paths, a: int) returns (b: int)
    requires SameContents(ns1, pt1, ns2, pt2) && a in pt1
    ensures b in pt2 && pt1[a] == pt2[b]
  {
    NodeInShape(ns1, pt1, a);
    b := ShapeNode(ns2, pt2, pt1[a]);
  }

  /** The parent in one trie is at most as long as the parent in the other. */
  lemma ParentShorter(ns1: Nodes, pt1: Paths, ns2: Nodes, pt2: Paths, a: int, b: int)
    requires SameContents(ns1, pt1, ns2, pt2) && a in pt1 && b in pt2 && pt1[a] == pt2[b] && a != ROOT && b != ROOT
    ensures 0 <= a < |ns1| && 0 <= b < |ns2| && ns1[a].parent in pt1 && ns2[b].parent in pt2
    ensures |pt1[ns1[a].parent]| <= |pt2[ns2[b].parent]|
  {
    assert NodeOk(ns1, pt1, a);
    assert NodeOk(ns2, pt2, b);
    var q := Counterpart(ns1, pt1, ns2, pt2, ns1[a].parent);
    PrefixAnc(ns2, pt2, q, b);
    AncPath(ns2, pt2, q, ns2[b].parent);
  }

  lemma SameRoot(ns1: Nodes, pt1: Paths, ns2: Nodes, pt2: Paths, a: int, b: int)
    requires SameContents(ns1, pt1, ns2, pt2) && a in pt1 && b in pt2 && pt1[a] == pt2[b]
    ensures a == ROOT <==> b == ROOT
  {
    assert NodeOk(ns1, pt1, a);
    assert NodeOk(ns2, pt2, b);
  }

  lemma SameParent(ns1: Nodes, pt1: Paths, ns2: Nodes, pt2: Paths, a: int, b: int)
    requires SameContents(ns1, pt1, ns2, pt2) && a in pt1 && b in pt2 && pt1[a] == pt2[b] && a != ROOT
    ensures b != ROOT && 0 <= a < |ns1| && 0 <= b < |ns2| && ns1[a].parent in pt1 && ns2[b].parent in pt2
    ensures pt1[ns1[a].parent] == pt2[ns2[b].parent] && ns1[a].prefix == ns2[b].prefix
    ensures First(ns1, a) == First(ns2, b)
  {
    SameRoot(ns1, pt1, ns2, pt2, a, b);
    ParentShorter(ns1, pt1, ns2, pt2, a, b);
    ParentShorter(ns2, pt2, ns1, pt1, b, a);
    assert NodeOk(ns1, pt1, a);
    assert NodeOk(ns2, pt2, b);
    var n := |pt1[ns1[a].parent]|;
    assert pt1[ns1[a].parent] == pt1[a][..n] && pt2[ns2[b].parent] == pt2[b][..n];
    assert ns1[a].prefix == pt1[a][n..] && ns2[b].prefix == pt2[b][n..];
  }

  /** A child in one trie has a counterpart that is a child of the counterpart. */
  lemma KidCounterpart(ns1: Nodes, pt1: Paths, ns2: Nodes, pt2: Paths, p1: int, p2: int, c: int) returns (d: int)
    requires SameContents(ns1, pt1, ns2, pt2) && p1 in pt1 && p2 in pt2 && pt1[p1] == pt2[p2] && IsKid(ns1, pt1, c, p1)
    ensures IsKid(ns2, pt2, d, p2) && pt2[d] == pt1[c] && First(ns2, d) == First(ns1, c)
  {
    d := Counterpart(ns1, pt1, ns2, pt2, c);
    SameParent(ns1, pt1, ns2, pt2, c, d);
    PathsDiffer(ns2, pt2, ns2[d].parent, p2);
    assert NodeOk(ns2, pt2, d);
  }

  /** The first child in one trie bounds the first child in the other. */
  lemma ChildBounds(ns1: Nodes, pt1: Paths, ns2: Nodes, pt2: Paths, a: int, b: int) returns (d: int)
    requires SameContents(ns1, pt1, ns2, pt2) && a in pt1 && b in pt2 && pt1[a] == pt2[b]
    requires 0 <= a < |ns1| && ns1[a].child != NIL
    ensures 0 <= b < |ns2| && ns2[b].child != NIL && IsKid(ns1, pt1, ns1[a].child, a)
    ensures IsKid(ns2, pt2, d, b) && pt2[d] == pt1[ns1[a].child] && First(ns2, d) == First(ns1, ns1[a].child)
    ensures First(ns2, ns2[b].child) <= First(ns1, ns1[a].child) && IsKid(ns2, pt2, ns2[b].child, b)
  {
    assert NodeOk(ns1, pt1, a);
    assert NodeOk(ns2, pt2, b);
    d := KidCounterpart(ns1, pt1, ns2, pt2, a, b, ns1[a].child);
    assert NodeOk(ns2, pt2, d);
  }

  lemma SameChild(ns1: Nodes, pt1: Paths, ns2: Nodes, pt2: Paths, a: int, b: int)
    requires SameContents(ns1, pt1, ns2, pt2) && a in pt1 && b in pt2 && pt1[a] == pt2[b]
    ensures 0 <= a < |ns1| && 0 <= b < |ns2| && SameLink(pt1, pt2, ns1[a].child, ns2[b].child)
  {
    assert NodeOk(ns1, pt1, a);
    assert NodeOk(ns2, pt2, b);
    if ns1[a].child != NIL {
      var d := ChildBounds(ns1, pt1, ns2, pt2, a, b);
      var e := ChildBounds(ns2, pt2, ns1, pt1, b, a);
      assert PairOk(ns2, pt2, d, ns2[b].child);
    } else if ns2[b].child != NIL {
      var e := ChildBounds(ns2, pt2, ns1, pt1, b, a);
    }
  }

  lemma SiblingBounds(ns1: Nodes, pt1: Paths, ns2: Nodes, pt2: Paths, a: int, b: int) returns (d: int)
    requires SameContents(ns1, pt1, ns2, pt2) && a in pt1 && b in pt2 && pt1[a] == pt2[b] && a != ROOT && b != ROOT
    requires 0 <= a < |ns1| && ns1[a].sibling != NIL
    ensures 0 <= b < |ns2| && ns2[b].sibling != NIL && IsKid(ns1, pt1, ns1[a].sibling, ns1[a].parent)
    ensures IsKid(ns2, pt2, d, ns2[b].parent) && pt2[d] == pt1[ns1[a].sibling]
    ensures First(ns2, d) == First(ns1, ns1[a].sibling)
    ensures First(ns2, ns2[b].sibling) <= First(ns1, ns1[a].sibling) && IsKid(ns2, pt2, ns2[b].sibling, ns2[b].parent)
  {
    assert NodeOk(ns1, pt1, a);
    assert NodeOk(ns2, pt2, b);
    SameParent(ns1, pt1, ns2, pt2, a, b);
    d := KidCounterpart(ns1, pt1, ns2, pt2, ns1[a].parent, ns2[b].parent, ns1[a].sibling);
    assert PairOk(ns2, pt2, b, d);
  }

  lemma SameSibling(ns1: Nodes, pt1: Paths, ns2: Nodes, pt2: Paths, a: int, b: int)
    requires SameContents(ns1, pt1, ns2, pt2) && a in pt1 && b in pt2 && pt1[a] == pt2[b] && a != ROOT && b != ROOT
    ensures 0 <= a < |ns1| && 0 <= b < |ns2| && SameLink(pt1, pt2, ns1[a].sibling, ns2[b].sibling)
  {
    assert NodeOk(ns1, pt1, a);
    assert NodeOk(ns2, pt2, b);
    if ns1[a].sibling != NIL {
      var d := SiblingBounds(ns1, pt1, ns2, pt2, a, b);
      var e := SiblingBounds(ns2, pt2, ns1, pt1, b, a);
      assert PairOk(ns2, pt2, d, ns2[b].sibling);
    } else if ns2[b].sibling != NIL {
      var e := SiblingBounds(ns2, pt2, ns1, pt1, b, a);
    }
  }

  lemma SameNodes(ns1: Nodes, pt1: Paths, ns2: Nodes, pt2: Paths, a: int, b: int)
    requires SameContents(ns1, pt1, ns2, pt2) && a in pt1 && b in pt2 && pt1[a] == pt2[b]
    ensures SameNode(ns1, pt1, ns2, pt2, a, b)
  {
    SameChild(ns1, pt1, ns2, pt2, a, b);
    SameRoot(ns1, pt1, ns2, pt2, a, b);
    EntryAt(ns1, pt1, a);
    EntryAt(ns2, pt2, b);
    if a != ROOT {
      SameParent(ns1, pt1, ns2, pt2, a, b);
      SameSibling(ns1, pt1, ns2, pt2, a, b);
    }
  }

  /** Compressed tries with the same contents are the same up to the numbering of nodes. */
  lemma Canonical(ns1: Nodes, pt1: Paths, ns2: Nodes, pt2: Paths)
    requires WellFormed(ns1, pt1) && WellFormed(ns2, pt2) && Contents(ns1, pt1) == Contents(ns2, pt2)
    ensures SameShape(ns1, pt1, ns2, pt2)
  {
    forall a | a in pt1
      ensures exists b :: SameNode(ns1, pt1, ns2, pt2, a, b)
    {
      var b := Counterpart(ns1, pt1, ns2, pt2, a);
      SameNodes(ns1, pt1, ns2, pt2, a, b);
    }
    forall b | b in pt2
      ensures exists a :: SameNode(ns1, pt1, ns2, pt2, a, b)
    {
      var a := Counterpart(ns2, pt2, ns1, pt1, b);
      SameNodes(ns1, pt1, ns2, pt2, a, b);
    }
  }

  /** Inserting an absent key and deleting it again restores the shape, whatever happened before. */
  method InsertThenErase(t: Trie, key: Bytes, v: Value)
    requires t.Valid() && key !in t.Entries()
    modifies t
    ensures t.Valid() && t.Entries() == old(t.Entries())
    ensures SameShape(old(t.nodes), old(t.path), t.nodes, t.path)
  {
    hide WellLinked, CompactBut, Contents, SameShape, FreeOk, Blanked, Extends, Shrinks, TK.KeyLensOk, TL.Relabels,
      TL.Cost;
    var id, edits := t.Insert(key, v);
    edits := t.Erase(id);
    assert t.Entries() == old(t.Entries());
    Canonical(old(t.nodes), old(t.path), t.nodes, t.path);
  }
}

/**
 The lexicographic order of paths, which is the order of the stackless preorder traversal: from a
 node to its first child, to its next sibling, or back to its parent.
 */
module TrieOrder {
  import opened Bytes
  import opened RadixTrie
  import opened TrieContents

  /** `a` parts from `b` towards smaller bytes; neither is a prefix of the other. */
  predicate Div(a: Bytes, b: Bytes) {
    var n := Lcp(a, b);
    n < |a| && n < |b| && a[n] < b[n]
  }

  /** Strict lexicographic order. */
  predicate Lex(a: Bytes, b: Bytes) {
    (a <= b && a != b) || Div(a, b)
  }

  lemma LcpAt(a: Bytes, b: Bytes, n: nat)
    requires n <= |a| && n <= |b| && a[..n] == b[..n]
    ensures n <= Lcp(a, b)
    ensures n < |a| && n < |b| && a[n] != b[n] ==> Lcp(a, b) == n
  {
    var m := Lcp(a, b);
    assert forall i :: 0 <= i < n ==> a[i] == a[..n][i] == b[..n][i] == b[i];
    assert forall i :: 0 <= i < m ==> a[i] == a[..m][i] == b[..m][i] == b[i];
  }

  lemma LcpPrefix(a: Bytes, b: Bytes)
    requires a <= b
    ensures Lcp(a, b) == |a| && Lcp(b, a) == |a|
  {
    assert a[..|a|] == a == b[..|a|];
    LcpAt(a, b, |a|);
    LcpAt(b, a, |a|);
  }

  /** Comparing with a longer string `c` is decided by `p`, or by the first byte after `p`. */
  lemma DivLonger(a: Bytes, p: Bytes, c: Bytes)
    requires p <= c && |p| < |c|
    ensures Div(a, p) ==> Div(a, c)
    ensures Div(a, c) ==> Div(a, p) || (p <= a && |p| < |a| && a[|p|] <= c[|p|])
    ensures p <= a && |p| < |a| && a[|p|] < c[|p|] ==> Div(a, c)
    ensures c <= a ==> !Div(a, c)
  {
    var n := Lcp(a, p);
    if n < |p| && n < |a| {
      assert a[..n] == p[..n] == c[..n];
      LcpAt(a, c, n);
    } else if n < |p| {
      assert a == p[..n] <= c;
      LcpPrefix(a, c);
    } else {
      assert a[..n] == p == c[..n];
      LcpAt(a, c, n);
    }
    if c <= a {
      LcpPrefix(c, a);
    }
  }

  lemma DivSelf(a: Bytes, b: Bytes)
    requires a <= b || b <= a
    ensures !Div(a, b) && !Div(b, a)
  {
    if a <= b {
      LcpPrefix(a, b);
    } else {
      LcpPrefix(b, a);
    }
  }

  // ---------------------------------------------------------------------------------------------
  // One step of the traversal
  // ---------------------------------------------------------------------------------------------

  /** Which child of `p` a path through `p` takes, compared with the child `c`. */
  lemma Branch(ns: Nodes, pt: Paths, p: int, c: int, y: int) returns (d: int)
    requires WellLinked(ns, pt) && p in pt && y in pt && IsKid(ns, pt, c, p) && pt[p] <= pt[y] && pt[p] != pt[y]
    ensures IsKid(ns, pt, d, p) && pt[d] <= pt[y] && |pt[p]| < |pt[y]| && pt[y][|pt[p]|] == First(ns, d)
    ensures pt[c] == pt[p] + ns[c].prefix && pt[c][|pt[p]|] == First(ns, c)
    ensures d != c ==> First(ns, d) != First(ns, c)
    ensures First(ns, c) < First(ns, d) ==> ns[c].sibling != NIL && First(ns, ns[c].sibling) <= First(ns, d)
    ensures 0 <= p < |ns| && (ns[p].child == c ==> First(ns, c) <= First(ns, d))
  {
    PrefixAnc(ns, pt, p, y);
    d := ChildTowards(ns, pt, p, y);
    assert NodeOk(ns, pt, c);
    assert NodeOk(ns, pt, d);
    assert PairOk(ns, pt, c, d);
  }

  lemma ToFirstChild(ns: Nodes, pt: Paths, p: int, y: int)
    requires WellLinked(ns, pt) && p in pt && y in pt && 0 <= p < |ns| && ns[p].child != NIL
    ensures IsKid(ns, pt, ns[p].child, p)
    ensures Div(pt[y], pt[ns[p].child]) <==> Div(pt[y], pt[p])
    ensures Lex(pt[y], pt[ns[p].child]) <==> Lex(pt[y], pt[p]) || y == p
  {
    var c := ns[p].child;
    assert NodeOk(ns, pt, p);
    assert NodeOk(ns, pt, c);
    DivLonger(pt[y], pt[p], pt[c]);
    if pt[p] <= pt[y] && pt[p] != pt[y] {
      var d := Branch(ns, pt, p, c, y);
      if d == c {
        DivSelf(pt[c], pt[y]);
      }
    }
    if pt[y] == pt[p] {
      PathsDiffer(ns, pt, y, p);
    }
    if pt[y] <= pt[c] {
      DivSelf(pt[y], pt[c]);
      if |pt[y]| <= |pt[p]| {
        assert pt[y] == pt[c][..|pt[y]|] == pt[p][..|pt[y]|];
      }
    }
  }

  lemma ToNextSibling(ns: Nodes, pt: Paths, c: int, y: int)
    requires WellLinked(ns, pt) && c in pt && y in pt && 0 <= c < |ns| && c != ROOT && ns[c].sibling != NIL
    ensures IsKid(ns, pt, ns[c].sibling, ns[c].parent) && ns[c].parent in pt
    ensures Div(pt[y], pt[ns[c].sibling]) <==> Div(pt[y], pt[c]) || pt[c] <= pt[y]
    ensures Lex(pt[y], pt[ns[c].sibling]) <==> Lex(pt[y], pt[c]) || pt[c] <= pt[y]
  {
    assert NodeOk(ns, pt, c);
    var p, s := ns[c].parent, ns[c].sibling;
    assert NodeOk(ns, pt, s);
    DivLonger(pt[y], pt[p], pt[c]);
    DivLonger(pt[y], pt[p], pt[s]);
    if pt[p] <= pt[y] && pt[p] != pt[y] {
      var d := Branch(ns, pt, p, c, y);
      var e := Branch(ns, pt, p, s, y);
      assert PairOk(ns, pt, d, e);
    }
    AboveKids(pt[y], pt[p], pt[c], pt[s]);
  }

  /** A string above both of two strings that part after `p`. */
  lemma AboveKids(a: Bytes, p: Bytes, c: Bytes, s: Bytes)
    requires p <= c && p <= s && |p| < |c| && |p| < |s| && c[|p|] < s[|p|]
    ensures a <= s && |a| <= |p| ==> a <= c && a != c
    ensures a <= c && a != c ==> (a <= s && a != s) || Div(a, s)
  {
    if a <= s && |a| <= |p| {
      assert a == s[..|a|] == p[..|a|] == c[..|a|];
    }
    if a <= c {
      if |a| <= |p| {
        assert a == c[..|a|] == p[..|a|] == s[..|a|];
      } else {
        DivLonger(a, p, s);
        assert p == c[..|p|] == a[..|p|];
      }
    }
  }

  lemma ToParent(ns: Nodes, pt: Paths, c: int, y: int)
    requires WellLinked(ns, pt) && c in pt && y in pt && 0 <= c < |ns| && c != ROOT && ns[c].sibling == NIL
    ensures ns[c].parent in pt && pt[ns[c].parent] <= pt[c] && |pt[ns[c].parent]| < |pt[c]|
    ensures Div(pt[y], pt[ns[c].parent]) || (pt[ns[c].parent] <= pt[y] && y != ns[c].parent)
            <==> Div(pt[y], pt[c]) || pt[c] <= pt[y]
    ensures Lex(pt[y], pt[ns[c].parent]) || pt[ns[c].parent] <= pt[y] <==> Lex(pt[y], pt[c]) || pt[c] <= pt[y]
  {
    assert NodeOk(ns, pt, c);
    var p := ns[c].parent;
    DivLonger(pt[y], pt[p], pt[c]);
    if pt[y] == pt[p] {
      PathsDiffer(ns, pt, y, p);
    }
    if pt[p] <= pt[y] && pt[p] != pt[y] {
      var d := Branch(ns, pt, p, c, y);
    }
    if pt[y] <= pt[c] && |pt[y]| <= |pt[p]| {
      assert pt[y] == pt[c][..|pt[y]|] == pt[p][..|pt[y]|];
    }
  }

  // ---------------------------------------------------------------------------------------------
  // The nodes below `x` that the traversal has visited, and those it has left for good
  // ---------------------------------------------------------------------------------------------

  ghost function Below(pt: Paths, x: int): set<int>
    requires x in pt
  {
    set y | y in pt && pt[x] <= pt[y]
  }

  /** Visited before the traversal arrives at `curr`. */
  ghost function Visited(pt: Paths, x: int, curr: int): set<int>
    requires x in pt && curr in pt
  {
    set y | y in pt && pt[x] <= pt[y] && Lex(pt[y], pt[curr])
  }

  ghost function Left(pt: Paths, x: int, curr: int): set<int>
    requires x in pt && curr in pt
  {
    set y | y in pt && pt[x] <= pt[y] && Div(pt[y], pt[curr])
  }

  /** Visited when everything below `curr` is done. */
  ghost function VisitedThrough(pt: Paths, x: int, curr: int): set<int>
    requires x in pt && curr in pt
  {
    set y | y in pt && pt[x] <= pt[y] && (Lex(pt[y], pt[curr]) || pt[curr] <= pt[y])
  }

  ghost function LeftThrough(pt: Paths, x: int, curr: int): set<int>
    requires x in pt && curr in pt
  {
    set y | y in pt && pt[x] <= pt[y] && (Div(pt[y], pt[curr]) || (pt[curr] <= pt[y] && y != curr))
  }

  lemma SweepStart(pt: Paths, x: int)
    requires x in pt
    ensures Visited(pt, x, x) == {} && Left(pt, x, x) == {}
  {
    forall y | y in pt && pt[x] <= pt[y]
      ensures !Lex(pt[y], pt[x])
    {
      DivSelf(pt[y], pt[x]);
    }
  }

  lemma SweepDown(ns: Nodes, pt: Paths, x: int, curr: int)
    requires WellLinked(ns, pt) && x in pt && curr in pt && pt[x] <= pt[curr] && 0 <= curr < |ns|
    requires ns[curr].child != NIL
    ensures ns[curr].child in pt && pt[x] <= pt[ns[curr].child]
    ensures Visited(pt, x, ns[curr].child) == Visited(pt, x, curr) + {curr}
    ensures Left(pt, x, ns[curr].child) == Left(pt, x, curr)
  {
    ToFirstChild(ns, pt, curr, curr);
    assert NodeOk(ns, pt, ns[curr].child);
    forall y | y in pt
      ensures Div(pt[y], pt[ns[curr].child]) <==> Div(pt[y], pt[curr])
      ensures Lex(pt[y], pt[ns[curr].child]) <==> Lex(pt[y], pt[curr]) || y == curr
    {
      ToFirstChild(ns, pt, curr, y);
    }
  }

  lemma SweepLeaf(ns: Nodes, pt: Paths, x: int, curr: int)
    requires WellLinked(ns, pt) && x in pt && curr in pt && pt[x] <= pt[curr] && 0 <= curr < |ns|
    requires ns[curr].child == NIL
    ensures VisitedThrough(pt, x, curr) == Visited(pt, x, curr) + {curr}
    ensures LeftThrough(pt, x, curr) == Left(pt, x, curr)
  {
    LeafAlone(ns, pt, curr);
    assert forall y :: y in pt && pt[curr] <= pt[y] ==> y !in Without(pt, curr);
  }

  lemma SweepUp(ns: Nodes, pt: Paths, x: int, curr: int)
    requires WellLinked(ns, pt) && x in pt && curr in pt && pt[x] <= pt[curr] && curr != x
    requires 0 <= curr < |ns| && ns[curr].sibling == NIL
    ensures curr != ROOT && ns[curr].parent in pt && pt[x] <= pt[ns[curr].parent]
    ensures VisitedThrough(pt, x, ns[curr].parent) == VisitedThrough(pt, x, curr)
    ensures LeftThrough(pt, x, ns[curr].parent) == LeftThrough(pt, x, curr) + {curr}
  {
    StaysBelow(ns, pt, x, curr);
    var p := ns[curr].parent;
    forall y | y in pt
      ensures Div(pt[y], pt[p]) || (pt[p] <= pt[y] && y != p) <==> Div(pt[y], pt[curr]) || pt[curr] <= pt[y]
      ensures Lex(pt[y], pt[p]) || pt[p] <= pt[y] <==> Lex(pt[y], pt[curr]) || pt[curr] <= pt[y]
    {
      ToParent(ns, pt, curr, y);
    }
  }

  lemma SweepNext(ns: Nodes, pt: Paths, x: int, curr: int)
    requires WellLinked(ns, pt) && x in pt && curr in pt && pt[x] <= pt[curr] && curr != x
    requires 0 <= curr < |ns| && ns[curr].sibling != NIL
    ensures curr != ROOT && ns[curr].sibling in pt && pt[x] <= pt[ns[curr].sibling]
    ensures Visited(pt, x, ns[curr].sibling) == VisitedThrough(pt, x, curr)
    ensures Left(pt, x, ns[curr].sibling) == LeftThrough(pt, x, curr) + {curr}
  {
    StaysBelow(ns, pt, x, curr);
    var s := ns[curr].sibling;
    ToNextSibling(ns, pt, curr, curr);
    assert NodeOk(ns, pt, s);
    forall y | y in pt
      ensures Div(pt[y], pt[s]) <==> Div(pt[y], pt[curr]) || pt[curr] <= pt[y]
      ensures Lex(pt[y], pt[s]) <==> Lex(pt[y], pt[curr]) || pt[curr] <= pt[y]
    {
      ToNextSibling(ns, pt, curr, y);
    }
  }

  /** The parent of a node strictly below `x` is `x` or below it. */
  lemma StaysBelow(ns: Nodes, pt: Paths, x: int, curr: int)
    requires WellLinked(ns, pt) && x in pt && curr in pt && pt[x] <= pt[curr] && curr != x
    ensures curr != ROOT && 0 <= curr < |ns| && ns[curr].parent in pt && pt[x] <= pt[ns[curr].parent]
  {
    assert NodeOk(ns, pt, curr);
    PrefixAnc(ns, pt, x, curr);
    AncPath(ns, pt, x, ns[curr].parent);
  }

  lemma SweepEnd(pt: Paths, x: int)
    requires x in pt
    ensures VisitedThrough(pt, x, x) == Below(pt, x) && LeftThrough(pt, x, x) + {x} == Below(pt, x)
  {
    forall y | y in pt && pt[x] <= pt[y]
      ensures !Div(pt[y], pt[x])
    {
      DivSelf(pt[x], pt[y]);
    }
  }
}

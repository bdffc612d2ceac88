/**
 The trie operations of the arena engine (arena_radix.go) on a mutable node arena with a free list.
 */
module ArenaTrie {
  import opened Bytes
  import opened RadixTrie
  import opened TrieContents
  import opened TrieOrder
  import opened TrieSweep
  import opened TrieKeys
  import opened TrieLabels
  import RN = Renumbering

  /** Nodes that are not live have no parent and no label. */
  ghost predicate Blanked(ns: Nodes, pt: Paths) {
    forall id :: 0 <= id < |ns| && id !in pt ==> ns[id].parent == NIL && ns[id].prefix == []
  }

  /** The free ids below `n` are exactly those that are not live, each listed once. */
  ghost predicate FreeOk(n: nat, live: set<int>, free: seq<int>) {
    && (forall i, j :: 0 <= i < j < |free| ==> free[i] != free[j])
    && (forall id :: id in free <==> 0 <= id < n && id !in live)
    && (forall id :: id in live ==> 0 <= id < n)
  }

  lemma PopFree(n: nat, live: set<int>, free: seq<int>)
    requires FreeOk(n, live, free) && free != []
    ensures free[|free| - 1] !in live && 0 <= free[|free| - 1] < n
    ensures FreeOk(n, live + {free[|free| - 1]}, free[..|free| - 1])
  {
    var last, rest := free[|free| - 1], free[..|free| - 1];
    assert last in free;
    assert forall i :: 0 <= i < |rest| ==> rest[i] == free[i] && free[i] != last;
    forall id
      ensures id in rest <==> 0 <= id < n && id !in live + {last}
    {
      if id in free && id != last {
        var i :| 0 <= i < |free| && free[i] == id;
        assert rest[i] == id;
      }
    }
  }

  /** The live nodes of `ns'` have the links they have in `ns`. */
  ghost predicate SameLinks(ns: Nodes, ns': Nodes, pt: Paths) {
    && |ns| <= |ns'|
    && forall id :: id in pt && 0 <= id < |ns| ==>
         && ns'[id].prefix == ns[id].prefix && ns'[id].parent == ns[id].parent
         && ns'[id].child == ns[id].child && ns'[id].sibling == ns[id].sibling
  }

  lemma FrameNode(ns: Nodes, ns': Nodes, pt: Paths, id: int)
    requires WellLinked(ns, pt) && SameLinks(ns, ns', pt) && id in pt
    ensures NodeOk(ns', pt, id)
  {
    assert NodeOk(ns, pt, id);
  }

  lemma FramePair(ns: Nodes, ns': Nodes, pt: Paths, a: int, b: int)
    requires WellLinked(ns, pt) && SameLinks(ns, ns', pt)
    ensures PairOk(ns', pt, a, b)
  {
    assert PairOk(ns, pt, a, b);
    if a in pt && b in pt {
      assert NodeOk(ns, pt, a);
      assert NodeOk(ns, pt, b);
    }
  }

  /** Writes outside the live nodes, and writes to values and key lengths, keep the trie linked. */
  lemma FrameLinked(ns: Nodes, ns': Nodes, pt: Paths)
    requires WellLinked(ns, pt) && SameLinks(ns, ns', pt)
    ensures WellLinked(ns', pt)
  {
    forall id | id in pt ensures NodeOk(ns', pt, id) {
      FrameNode(ns, ns', pt, id);
    }
    forall a, b ensures PairOk(ns', pt, a, b) {
      FramePair(ns, ns', pt, a, b);
    }
  }

  /** Without a childless node that has no value, and with its slot blank. */
  lemma PrunedFields(ns: Nodes, pt: Paths, p: int, prev: int, x: int)
    requires WellLinked(ns, pt) && Before(ns, pt, p, prev, x) && ns[x].value == None
    requires KeyLensOk(ns, pt) && Blanked(ns, pt)
    requires WellLinked(Unlinked(ns, p, prev, x), pt - {x}) && CompactBut(Unlinked(ns, p, prev, x), pt - {x}, p)
    ensures var ns', pt' := Unlinked(ns, p, prev, x)[x := BLANK], pt - {x};
            && WellLinked(ns', pt') && CompactBut(ns', pt', p) && KeyLensOk(ns', pt') && Blanked(ns', pt')
            && |ns'| == |ns| && Shrinks(ns, pt, ns', pt', {})
    ensures |Unlinked(ns, p, prev, x)| == |ns|
  {
    hide WellLinked, CompactBut;
    var cut, pt' := Unlinked(ns, p, prev, x), pt - {x};
    FrameLinked(cut, cut[x := BLANK], pt');
    FrameBranches(cut, cut[x := BLANK], pt', p);
  }

  lemma FrameCanLink(ns: Nodes, ns': Nodes, pt: Paths, p: int, prev: int, next: int, n: int, edge: Bytes)
    requires WellLinked(ns, pt) && SameLinks(ns, ns', pt) && p in pt && edge != []
    requires Place(ns, pt, p, edge[0], prev, next)
    requires 0 <= n < |ns'| && n !in pt && forall c :: IsKid(ns, pt, c, p) ==> First(ns, c) != edge[0]
    ensures CanLink(ns', pt, p, prev, next, n, edge)
  {
    forall c | IsKid(ns', pt, c, p)
      ensures First(ns', c) != edge[0]
    {
      assert NodeOk(ns, pt, c);
      assert IsKid(ns, pt, c, p);
    }
  }

  lemma FrameBranches(ns: Nodes, ns': Nodes, pt: Paths, skip: int)
    requires WellLinked(ns, pt) && SameLinks(ns, ns', pt) && CompactBut(ns, pt, skip)
    requires forall id :: id in pt && 0 <= id < |ns| && id != skip && ns[id].value.Some? ==> ns'[id].value.Some?
    ensures CompactBut(ns', pt, skip)
  {
    forall id | id in pt && id != ROOT && id != skip
      ensures Branches(ns', id)
    {
      assert Branches(ns, id);
      assert NodeOk(ns, pt, id);
    }
  }

  /** The walk of removeChild and replaceChild: the node before `x` in the child list of its parent. */
  method FindPrev(ns: Nodes, ghost pt: Paths, p: int, x: int) returns (prev: int)
    requires WellLinked(ns, pt) && p in pt && 0 <= p < |ns| && IsKid(ns, pt, x, p)
    ensures Before(ns, pt, p, prev, x)
  {
    prev := NIL;
    var curr := ns[p].child;
    assert NodeOk(ns, pt, p);
    assert NodeOk(ns, pt, x);
    while curr != x
      invariant IsKid(ns, pt, curr, p) && First(ns, curr) <= First(ns, x)
      invariant Before(ns, pt, p, prev, curr)
      decreases 256 - First(ns, curr)
    {
      assert NodeOk(ns, pt, curr);
      assert PairOk(ns, pt, curr, x);
      prev, curr := curr, ns[curr].sibling;
    }
  }

  lemma NotRoot(ns: Nodes, pt: Paths, id: int)
    requires WellLinked(ns, pt) && id !in pt
    ensures id != ROOT
  {
  }

  lemma EmptyTrie()
    ensures WellFormed([BLANK], map[ROOT := []]) && Contents([BLANK], map[ROOT := []]) == map[]
  {
    var ns: Nodes, pt: Paths := [BLANK], map[ROOT := []];
    assert NodeOk(ns, pt, ROOT);
    forall a, c ensures PairOk(ns, pt, a, c) {
    }
    ContentsIs(ns, pt, map[]);
  }

  lemma ExtendsTwice(ns: Nodes, pt: Paths, ns1: Nodes, pt1: Paths, ns2: Nodes, pt2: Paths, id: int)
    requires Extends(ns, pt, ns1, pt1, NIL) && Extends(ns1, pt1, ns2, pt2, id) && |ns| <= |ns1|
    requires forall x :: x in pt1 ==> 0 <= x < |ns1|
    ensures Extends(ns, pt, ns2, pt2, id)
  {
  }

  lemma ShrinksNot(ns: Nodes, pt: Paths)
    requires KeyLensOk(ns, pt)
    ensures Shrinks(ns, pt, ns, pt, {})
  {
  }

  lemma ShrinksTwice(ns: Nodes, pt: Paths, ns1: Nodes, pt1: Paths, ns2: Nodes, pt2: Paths, gone: set<Bytes>)
    requires Shrinks(ns, pt, ns1, pt1, gone) && Shrinks(ns1, pt1, ns2, pt2, {})
    requires KeyLensOk(ns1, pt1) && KeyLensOk(ns2, pt2)
    ensures Shrinks(ns, pt, ns2, pt2, gone)
  {
  }

  ghost predicate OnlyChild(ns: Nodes, pt: Paths, m: int, c: int) {
    forall x :: IsKid(ns, pt, x, m) ==> x == c
  }

  /** After the split every old node is compressed, and `c` is the only child of the new node. */
  lemma SplitResult(ns: Nodes, pt: Paths, p: int, prev: int, c: int, m: int, k: nat, kl: int)
    requires WellFormed(ns, pt) && CanSplit(ns, pt, p, prev, c, m, k)
    ensures CompactBut(WithSplit(ns, p, prev, c, m, k, kl), pt[m := pt[p] + ns[c].prefix[..k]], m)
    ensures OnlyChild(WithSplit(ns, p, prev, c, m, k, kl), pt[m := pt[p] + ns[c].prefix[..k]], m, c)
  {
    var ns', pt' := WithSplit(ns, p, prev, c, m, k, kl), pt[m := pt[p] + ns[c].prefix[..k]];
    forall id | id in pt' && id != ROOT && id != m ensures Branches(ns', id) {
      assert Branches(ns, id);
      SplitBranches(ns, pt, p, prev, c, m, k, kl, id);
    }
    assert NodeOk(ns, pt, c);
    forall x | IsKid(ns', pt', x, m) ensures x == c {
      if x in pt {
        assert NodeOk(ns, pt, x);
      }
    }
  }

  lemma LeafResult(ns: Nodes, pt: Paths, p: int, prev: int, next: int, n: int, prefix: Bytes, v: Value, kl: int,
      skip: int)
    requires WellLinked(ns, pt) && CompactBut(ns, pt, skip) && CanLink(ns, pt, p, prev, next, n, prefix)
    requires skip == ROOT || (skip == p && ns[p].child != NIL)
    ensures CompactBut(WithLeaf(ns, p, prev, next, n, prefix, v, kl), pt[n := pt[p] + prefix], ROOT)
  {
    var ns', pt' := WithLeaf(ns, p, prev, next, n, prefix, v, kl), pt[n := pt[p] + prefix];
    forall id | id in pt' && id != ROOT ensures Branches(ns', id) {
      if id != n {
        assert id != skip ==> Branches(ns, id);
        LeafBranches(ns, pt, p, prev, next, n, prefix, v, kl, id);
      }
    }
  }

  lemma CutResult(ns: Nodes, pt: Paths, p: int, prev: int, x: int)
    requires WellLinked(ns, pt) && CompactBut(ns, pt, x) && Before(ns, pt, p, prev, x)
    ensures CompactBut(Unlinked(ns, p, prev, x), Without(pt, x), p)
  {
    forall id | id in Without(pt, x) && id != ROOT && id != p ensures Branches(Unlinked(ns, p, prev, x), id) {
      assert Branches(ns, id);
      CutBranches(ns, pt, p, prev, x, id);
    }
  }

  lemma MergeResult(ns: Nodes, pt: Paths, q: int, prev: int, m: int, c: int)
    requires WellLinked(ns, pt) && CompactBut(ns, pt, m) && CanMerge(ns, pt, q, prev, m, c)
    ensures CompactBut(Merged(ns, q, prev, m, c), pt - {m}, ROOT)
  {
    forall id | id in pt - {m} && id != ROOT ensures Branches(Merged(ns, q, prev, m, c), id) {
      assert Branches(ns, id);
      MergeBranches(ns, pt, q, prev, m, c, id);
    }
  }

  lemma MergeKeeps(ns: Nodes, q: int, prev: int, m: int, c: int, y: int)
    requires 0 <= q < |ns| && 0 <= m < |ns| && 0 <= c < |ns| && (prev != NIL ==> 0 <= prev < |ns|) && 0 <= y < |ns|
    ensures |Merged(ns, q, prev, m, c)| == |ns|
    ensures Merged(ns, q, prev, m, c)[y].value == ns[y].value && Merged(ns, q, prev, m, c)[y].keyLen == ns[y].keyLen
    ensures y != c ==>
              Merged(ns, q, prev, m, c)[y].parent == ns[y].parent && Merged(ns, q, prev, m, c)[y].prefix == ns[y].prefix
  {
  }

  lemma SplitKeeps(ns: Nodes, p: int, prev: int, c: int, m: int, k: nat, kl: int, y: int)
    requires 0 <= p < |ns| && 0 <= c < |ns| && 0 <= m < |ns| && (prev != NIL ==> 0 <= prev < |ns|)
    requires k <= |ns[c].prefix| && 0 <= y < |ns|
    ensures var ns' := WithSplit(ns, p, prev, c, m, k, kl);
            && |ns'| == |ns| && (y != m ==> ns'[y].value == ns[y].value && ns'[y].keyLen == ns[y].keyLen)
            && (y != m && y != c ==> ns'[y].parent == ns[y].parent && ns'[y].prefix == ns[y].prefix)
  {
  }

  /** The two ends of a split edge. */
  lemma SplitFacts(ns: Nodes, pt: Paths, p: int, prev: int, c: int, m: int, k: nat, kl: int)
    requires WellLinked(ns, pt) && CanSplit(ns, pt, p, prev, c, m, k)
    ensures var ns' := WithSplit(ns, p, prev, c, m, k, kl);
            && ns'[m].child == c && ns'[m].value == None && ns'[m].keyLen == kl && ns'[c].parent == m
            && ns'[c].sibling == NIL
            && ns'[c].prefix == ns[c].prefix[k..] && c != ROOT && c != m
  {
    assert NodeOk(ns, pt, c);
    if prev != NIL {
      BeforeOrder(ns, pt, p, prev, c);
    }
  }

  class Trie {
    var nodes: seq<Node>
    var free: seq<int>
    ghost var path: Paths

    /** Everything but path compression, which may be missing at `skip`. */
    ghost predicate ValidBut(skip: int)
      reads this
    {
      && WellLinked(nodes, path) && CompactBut(nodes, path, skip) && KeyLensOk(nodes, path)
      && FreeOk(|nodes|, path.Keys, free)
      && Blanked(nodes, path)
    }

    ghost predicate Valid()
      reads this
    {
      ValidBut(ROOT)
    }

    ghost function Entries(): map<Bytes, Value>
      requires WellLinked(nodes, path)
      reads this
    {
      Contents(nodes, path)
    }

    constructor ()
      ensures Valid() && Entries() == map[] && nodes == [BLANK] && free == []
    {
      nodes := [BLANK];
      free := [];
      path := map[ROOT := []];
      new;
      EmptyTrie();
      hide WellLinked;
    }

    /** allocateNode: reuse the last freed id or extend the arena. */
    method Alloc() returns (id: int, edits: seq<Edit>)
      requires WellLinked(nodes, path) && FreeOk(|nodes|, path.Keys, free) && Blanked(nodes, path)
      modifies `nodes, `free
      ensures 0 <= id < |nodes| && id !in path && nodes[id] == old(if id < |nodes| then nodes[id] else BLANK)
      ensures |old(nodes)| <= |nodes| && forall x :: 0 <= x < |old(nodes)| ==> nodes[x] == old(nodes[x])
      ensures SameLinks(old(nodes), nodes, path)
      ensures FreeOk(|nodes|, path.Keys + {id}, free) && Blanked(nodes, path)
      ensures Relabels(old(nodes), edits, nodes) && Cost(edits) == 0
    {
      hide Relabels;
      if free != [] {
        id := free[|free| - 1];
        PopFree(|nodes|, path.Keys, free);
        free := free[..|free| - 1];
        edits := [];
        RelabelsNone(nodes, nodes);
      } else {
        id := |nodes|;
        edits := [NewNode];
        GrownLabels(nodes);
        nodes := nodes + [BLANK];
      }
    }

    /** freeNode: clear the node and push its id. */
    method Release(id: int)
      requires 0 <= id < |nodes| && id in path && FreeOk(|nodes|, path.Keys, free)
      modifies this
      ensures path == old(path) - {id} && nodes == old(nodes)[id := BLANK] && free == old(free) + [id]
      ensures FreeOk(|nodes|, path.Keys, free)
    {
      nodes := nodes[id := BLANK];
      free := free + [id];
      path := path - {id};
    }

    /** Store an entry at an existing node. */
    method SetValue(id: int, v: Value, ghost skip: int)
      requires ValidBut(skip) && id in path && 0 <= id < |nodes| && (skip == ROOT || skip == id)
      modifies `nodes
      ensures Valid() && |nodes| == |old(nodes)| && nodes[id].value == Some(v)
      ensures Extends(old(nodes), path, nodes, path, id) && Labels(nodes) == old(Labels(nodes))
    {
      var ns := nodes;
      nodes := nodes[id := nodes[id].(value := Some(v))];
      FrameLinked(ns, nodes, path);
      FrameBranches(ns, nodes, path, skip);
      assert Branches(nodes, id);
    }

    /** The value of an existing entry changes. */
    method SetNodeValue(id: int, v: Value)
      requires Valid() && id in path && 0 <= id < |nodes|
      modifies `nodes
      ensures Valid() && |nodes| == |old(nodes)| && nodes[id].value == Some(v)
      ensures Extends(old(nodes), path, nodes, path, id)
    {
      SetValue(id, v, ROOT);
    }

    /** A new leaf below `p`, which is either compressed or the freshly split `skip` with one child. */
    method AddLeaf(p: int, prev: int, next: int, edge: Bytes, v: Value, keyLen: int, ghost skip: int)
      returns (n: int, edits: seq<Edit>)
      requires ValidBut(skip) && p in path && edge != [] && Place(nodes, path, p, edge[0], prev, next)
      requires forall c :: IsKid(nodes, path, c, p) ==> First(nodes, c) != edge[0]
      requires skip == ROOT || (skip == p && nodes[p].child != NIL)
      requires keyLen == Saturated(|path[p]| + |edge|)
      modifies this
      ensures Valid() && n !in old(path) && path == old(path)[n := old(path)[p] + edge]
      ensures 0 <= n < |nodes| && nodes[n].value == Some(v)
      ensures Extends(old(nodes), old(path), nodes, path, n)
      ensures Relabels(old(nodes), edits, nodes) && Cost(edits) == |edge| + 4
    {
      hide CompactBut, Relabels, Cost, CanLink;
      ghost var ns0 := nodes;
      n, edits := Alloc();
      ghost var ns := nodes;
      FrameLinked(ns0, ns, path);
      FrameBranches(ns0, ns, path, skip);
      FrameCanLink(ns0, ns, path, p, prev, next, n, edge);
      nodes := WithLeaf(nodes, p, prev, next, n, edge, v, keyLen);
      ghost var pt := path;
      path := path[n := path[p] + edge];
      LeafLabels(ns, p, prev, next, n, edge, v, keyLen);
      CostOne(SetLabel(n, edge));
      RelabelsTwice(ns0, edits, ns, [SetLabel(n, edge)], nodes);
      edits := edits + [SetLabel(n, edge)];
      LeafLinked(ns, pt, p, prev, next, n, edge, v, keyLen);
      LeafResult(ns, pt, p, prev, next, n, edge, v, keyLen, skip);
      assert path.Keys == pt.Keys + {n};
      hide WellLinked;
    }

    /** The edge to `c` is cut after `k` bytes; the new node `m` is not compressed yet. */
    method SplitEdge(p: int, prev: int, c: int, k: nat, end: nat) returns (m: int, edits: seq<Edit>)
      requires Valid() && Before(nodes, path, p, prev, c) && 0 < k < |nodes[c].prefix| && end == |path[p]| + k
      modifies this
      ensures ValidBut(m) && m !in old(path) && path == old(path)[m := old(path[p] + nodes[c].prefix[..k])]
      ensures |old(nodes)| <= |nodes| && 0 <= m < |nodes| && nodes[m].child == c
      ensures IsKid(nodes, path, c, m) && nodes[c].sibling == NIL && nodes[c].prefix == old(nodes[c].prefix[k..])
      ensures OnlyChild(nodes, path, m, c)
      ensures Extends(old(nodes), old(path), nodes, path, NIL)
      ensures Relabels(old(nodes), edits, nodes) && Cost(edits) == 8
    {
      hide WellLinked, CompactBut, WithSplit, LinkAt, Relabels, Cost;
      ghost var ns0 := nodes;
      LinkedNode(nodes, path, c);
      m, edits := Alloc();
      ghost var ns := nodes;
      ghost var pt := path;
      FrameLinked(ns0, ns, pt);
      FrameBranches(ns0, ns, pt, ROOT);
      NotRoot(ns, pt, m);
      var kl := Saturated(end);
      nodes := WithSplit(nodes, p, prev, c, m, k, kl);
      path := path[m := path[p] + ns[c].prefix[..k]];
      SplitLabels(ns, pt, p, prev, c, m, k, kl);
      CostOne(SplitLabel(c, m, k));
      RelabelsTwice(ns0, edits, ns, [SplitLabel(c, m, k)], nodes);
      edits := edits + [SplitLabel(c, m, k)];
      SplitLinked(ns, pt, p, prev, c, m, k, kl);
      SplitResult(ns, pt, p, prev, c, m, k, kl);
      SplitFacts(ns, pt, p, prev, c, m, k, kl);
      SplitKeeps(ns, p, prev, c, m, k, kl, m);
      forall y | 0 <= y < |ns| && y != m
        ensures nodes[y].value == ns[y].value && nodes[y].keyLen == ns[y].keyLen
        ensures y != c ==> nodes[y].parent == ns[y].parent && nodes[y].prefix == ns[y].prefix
      {
        SplitKeeps(ns, p, prev, c, m, k, kl, y);
      }
      assert path.Keys == pt.Keys + {m};
    }

    /** insertNode: store `v` under `key`.  Existing nodes keep their ids and their paths. */
    method Insert(key: Bytes, v: Value) returns (id: int, edits: seq<Edit>)
      requires Valid()
      modifies this
      ensures Valid() && id in path && path[id] == key && 0 <= id < |nodes| && nodes[id].value == Some(v)
      ensures Entries() == old(Entries())[key := v]
      ensures Extends(old(nodes), old(path), nodes, path, id)
      ensures Relabels(old(nodes), edits, nodes) && Cost(edits) <= |key| + 12
    {
      hide WellLinked, CompactBut, FreeOk, KeyLensOk, Blanked, Extends, Relabels, Cost;
      LinkedRoot(nodes, path);
      var curr, search, offset := ROOT, key, 0;
      ghost var ns, pt := nodes, path;
      while search != []
        invariant unchanged(this) && curr in path && 0 <= curr < |nodes| && path[curr] + search == key
        invariant offset == |path[curr]|
        decreases |search|
      {
        var child, prev, next := FindChild(nodes, path, curr, search[0]);
        if child == NIL {
          id, edits := AddLeaf(curr, prev, next, search, v, Saturated(|key|), ROOT);
          ContentsWith(ns, pt, nodes, path, id, v);
          return;
        }
        LinkedNode(nodes, path, child);
        var lcp := Lcp(search, nodes[child].prefix);
        assert search == search[..lcp] + search[lcp..];
        if lcp < |nodes[child].prefix| {
          id, edits := Divide(curr, prev, child, search, lcp, v, key, offset);
          ContentsWith(ns, pt, nodes, path, id, v);
          return;
        }
        search, offset := search[lcp..], offset + lcp;
        curr := child;
      }
      id, edits := curr, [];
      SetValue(curr, v, ROOT);
      RelabelsNone(ns, nodes);
      NoCost();
      ContentsWith(ns, pt, nodes, path, id, v);
    }

    /** The split branch of insertNode. */
    method Divide(p: int, prev: int, c: int, search: Bytes, lcp: nat, v: Value, key: Bytes, offset: nat)
      returns (id: int, edits: seq<Edit>)
      requires Valid() && Before(nodes, path, p, prev, c)
      requires 0 < lcp < |nodes[c].prefix| && lcp <= |search| && search[..lcp] == nodes[c].prefix[..lcp]
      requires lcp < |search| ==> search[lcp] != nodes[c].prefix[lcp]
      requires key == path[p] + search && offset == |path[p]|
      modifies this
      ensures Valid() && id in path && path[id] == key && 0 <= id < |nodes| && nodes[id].value == Some(v)
      ensures Extends(old(nodes), old(path), nodes, path, id)
      ensures Relabels(old(nodes), edits, nodes) && Cost(edits) <= |search| + 12
    {
      hide CompactBut, KeyLensOk, Relabels, Cost;
      ghost var ns0, pt0 := nodes, path;
      var m, cut := SplitEdge(p, prev, c, lcp, offset + lcp);
      ghost var ns, pt := nodes, path;
      assert search == search[..lcp] + search[lcp..];
      if lcp == |search| {
        id, edits := m, [];
        SetValue(m, v, m);
        RelabelsNone(ns, nodes);
        NoCost();
      } else {
        var rest := search[lcp..];
        if rest[0] < nodes[c].prefix[0] {
          id, edits := AddLeaf(m, NIL, c, rest, v, Saturated(|key|), m);
        } else {
          id, edits := AddLeaf(m, c, NIL, rest, v, Saturated(|key|), m);
        }
      }
      ExtendsTwice(ns0, pt0, ns, pt, nodes, path, id);
      RelabelsTwice(ns0, cut, ns, edits, nodes);
      edits := cut + edits;
    }

    /** Take the childless node `x` without a value out of the trie; only its parent may now lack compression. */
    method PruneLeaf(x: int) returns (p: int, edits: seq<Edit>)
      requires ValidBut(x) && x in path && x != ROOT && 0 <= x < |nodes| && nodes[x].value == None
      requires nodes[x].child == NIL
      modifies this
      ensures ValidBut(p) && p in path && path == old(path) - {x} && |nodes| == |old(nodes)|
      ensures Shrinks(old(nodes), old(path), nodes, path, {})
      ensures Relabels(old(nodes), edits, nodes) && Cost(edits) == 0
    {
      hide WellLinked, CompactBut, Relabels, Cost, KeyLensOk, Blanked, Shrinks, Unlinked;
      ghost var ns, pt := nodes, path;
      LinkedNode(ns, pt, x);
      p := nodes[x].parent;
      edits := [ClearLabel(x)];
      CostOne(ClearLabel(x));
      var prev := FindPrev(nodes, path, p, x);
      CutLinked(ns, pt, p, prev, x);
      CutResult(ns, pt, p, prev, x);
      LeafAlone(ns, pt, x);
      CutLabels(ns, p, prev, x);
      PrunedFields(ns, pt, p, prev, x);
      nodes := Unlinked(nodes, p, prev, x);
      Release(x);
    }

    /** Let the only child of the routing node `m` take its place. */
    method MergeDown(m: int) returns (edits: seq<Edit>)
      requires ValidBut(m) && m in path && m != ROOT && 0 <= m < |nodes| && nodes[m].value == None
      requires 0 <= nodes[m].child < |nodes| && nodes[nodes[m].child].sibling == NIL
      modifies this
      ensures Valid() && path == old(path) - {m} && |nodes| == |old(nodes)|
      ensures Shrinks(old(nodes), old(path), nodes, path, {})
      ensures Relabels(old(nodes), edits, nodes) && Cost(edits) == 4
    {
      hide WellLinked, CompactBut, Merged, LinkAt, Relabels, Cost;
      ghost var ns, pt := nodes, path;
      LinkedNode(ns, pt, m);
      var q, c := nodes[m].parent, nodes[m].child;
      var prev := FindPrev(nodes, path, q, m);
      edits := [MergeLabel(m, c)];
      CostOne(MergeLabel(m, c));
      MergeLabels(ns, pt, q, prev, m, c);
      MergeLinked(ns, pt, q, prev, m, c);
      MergeResult(ns, pt, q, prev, m, c);
      nodes := Merged(nodes, q, prev, m, c);
      ghost var joined := nodes;
      MergeKeeps(ns, q, prev, m, c, m);
      forall y | 0 <= y < |ns|
        ensures joined[y].value == ns[y].value && joined[y].keyLen == ns[y].keyLen
        ensures y != c ==> joined[y].parent == ns[y].parent && joined[y].prefix == ns[y].prefix
      {
        MergeKeeps(ns, q, prev, m, c, y);
      }
      Release(m);
      FrameLinked(joined, nodes, path);
      FrameBranches(joined, nodes, path, ROOT);
    }

    /** compressPathUpwards: prune empty leaves and merge single-child routing nodes from `start` up. */
    method CompressUp(start: int) returns (edits: seq<Edit>)
      requires ValidBut(start) && start in path
      modifies this
      ensures Valid() && Shrinks(old(nodes), old(path), nodes, path, {})
      ensures Entries() == old(Entries())
      ensures Relabels(old(nodes), edits, nodes) && Cost(edits) <= 4
    {
      hide Shrinks, FreeOk, KeyLensOk, Relabels, Cost;
      var curr := start;
      edits := [];
      ghost var ns, pt := nodes, path;
      ShrinksNot(ns, pt);
      RelabelsNone(ns, ns);
      NoCost();
      while curr != ROOT
        invariant ValidBut(curr) && curr in path && Shrinks(ns, pt, nodes, path, {})
        invariant Relabels(ns, edits, nodes) && Cost(edits) == 0
        decreases |path|
      {
        assert NodeOk(nodes, path, curr);
        ghost var ns1, pt1 := nodes, path;
        if nodes[curr].value.Some? {
          break;
        }
        if nodes[curr].child == NIL {
          var more;
          curr, more := PruneLeaf(curr);
          ShrinksTwice(ns, pt, ns1, pt1, nodes, path, {});
          RelabelsTwice(ns, edits, ns1, more, nodes);
          edits := edits + more;
          continue;
        }
        if nodes[nodes[curr].child].sibling == NIL {
          var more := MergeDown(curr);
          ShrinksTwice(ns, pt, ns1, pt1, nodes, path, {});
          RelabelsTwice(ns, edits, ns1, more, nodes);
          edits := edits + more;
          ContentsWithout(ns, pt, nodes, path, {});
          return;
        }
        break;
      }
      assert curr != ROOT ==> Branches(nodes, curr);
      ContentsWithout(ns, pt, nodes, path, {});
    }

    /** finishEraseNodeLocked on the trie: drop the entry at `id`.  Nodes of other entries keep ids and paths. */
    method Erase(id: int) returns (edits: seq<Edit>)
      requires Valid() && id in path && 0 <= id < |nodes| && nodes[id].value.Some?
      modifies this
      ensures Valid() && Entries() == old(Entries()) - {old(path[id])}
      ensures Shrinks(old(nodes), old(path), nodes, path, {old(path[id])})
      ensures Relabels(old(nodes), edits, nodes) && Cost(edits) <= 4
    {
      ghost var ns, pt, key := nodes, path, path[id];
      nodes := nodes[id := nodes[id].(value := None)];
      FrameLinked(ns, nodes, path);
      FrameBranches(ns, nodes, path, id);
      forall x | x in path && path[x] == key ensures x == id {
        PathsDiffer(ns, path, x, id);
      }
      ghost var ns1, pt1 := nodes, path;
      assert Shrinks(ns, pt, ns1, pt1, {key});
      edits := CompressUp(id);
      assert Labels(ns) == Labels(ns1);
      ShrinksTwice(ns, pt, ns1, pt1, nodes, path, {key});
      ContentsWithout(ns, pt, nodes, path, {key});
    }

    /** getNode and findNodeByTrieWalk on the arena. */
    method Find(key: Bytes) returns (r: Option<int>)
      requires Valid()
      ensures r.Some? <==> key in Entries()
      ensures r.Some? ==> Holds(nodes, path, key, r.value) && nodes[r.value].value == Some(Entries()[key])
    {
      r := Walk(nodes, path, key);
      ContentsAt(nodes, path, key);
    }

    /** The trie in the middle of a sweep of the subtree below `x`. */
    ghost predicate Sweeping(ns: Nodes, pt: Paths, x: int, cut: Nodes, order: seq<int>, kept: seq<int>, seen: set<int>,
        dead: set<int>)
      reads this
    {
      && CutOut(ns, pt, x, cut) && KeyLensOk(cut, pt) && Swept(pt, cut, nodes, path, seen, dead) && Blanked(nodes, path)
      && FreeOk(|nodes|, path.Keys, free) && free == kept + order && FreedOk(pt, dead, order)
    }

    /** initSubtreeKeyBuf. */
    method InitKeyBuf(x: int, buf: array<Byte>) returns (keyPos: int, valid: bool)
      requires Spelled(nodes, path) && KeyLensOk(nodes, path) && x in path && 0 <= x < |nodes| && buf.Length == KEY_BUF
      modifies buf
      ensures valid <==> 0 < |path[x]| <= KEY_BUF
      ensures if valid then keyPos == |path[x]| && buf[..keyPos] == path[x] else keyPos == 0
    {
      keyPos := nodes[x].keyLen;
      if keyPos <= 0 || keyPos > buf.Length {
        return 0, false;
      }
      valid := FillKeyBuf(nodes, path, x, keyPos, buf);
      if !valid {
        keyPos := 0;
      }
    }

    /** appendSubtreeKeyBuf: copy the edge if it fits, and advance in any case. */
    static method AppendKeyBuf(buf: array<Byte>, keyPos: int, prefix: Bytes, valid: bool) returns (pos: int)
      requires buf.Length == KEY_BUF && (valid ==> 0 <= keyPos)
      modifies buf
      ensures pos == keyPos + |prefix|
      ensures valid && pos <= KEY_BUF ==> buf[..keyPos] == old(buf[..keyPos]) && buf[keyPos..pos] == prefix
      ensures !(valid && pos <= KEY_BUF) ==> buf[..] == old(buf[..])
    {
      pos := keyPos + |prefix|;
      if valid && pos <= buf.Length {
        forall i | 0 <= i < |prefix| {
          buf[keyPos + i] := prefix[i];
        }
      }
    }

    /** The visit of a node: report its entry, with the key from the buffer when it fits there. */
    method Visit(curr: int, buf: array<Byte>, keyPos: int, valid: bool, events: seq<Event>,
                 ghost ns: Nodes, ghost pt: Paths, ghost x: int, ghost cut: Nodes, ghost order: seq<int>,
                 ghost kept: seq<int>)
      returns (more: seq<Event>)
      requires x in pt && curr in pt && pt[x] <= pt[curr] && buf.Length == KEY_BUF
      requires Sweeping(ns, pt, x, cut, order, kept, Visited(pt, x, curr), Left(pt, x, curr))
      requires Reported(ns, pt, Visited(pt, x, curr), events)
      requires valid ==> keyPos == |pt[curr]| && Buffered(pt, x, curr, buf[..])
      modifies `nodes
      ensures Sweeping(ns, pt, x, cut, order, kept, Visited(pt, x, curr) + {curr}, Left(pt, x, curr))
      ensures Reported(ns, pt, Visited(pt, x, curr) + {curr}, more)
    {
      StillSpelled(ns, pt, x, cut, nodes, path, Visited(pt, x, curr), curr);
      DivSelf(pt[curr], pt[curr]);
      assert UpOk(nodes, path, curr);
      assert UpOk(cut, pt, curr);
      more := events;
      if nodes[curr].value.Some? {
        var key;
        if valid && keyPos <= KEY_BUF {
          key := buf[..keyPos];
        } else {
          key := ReconstructKey(nodes, path, curr);
        }
        more := events + [Event(curr, key, nodes[curr].value.value)];
        ReportNext(ns, pt, x, curr, events, nodes[curr].value.value);
        nodes := nodes[curr := nodes[curr].(value := None)];
      } else {
        ReportNothing(ns, pt, Visited(pt, x, curr), curr, events);
      }
    }

    /** freeSubtreeNodeLocked on a node whose subtree is done. */
    method FreeOne(curr: int, ghost ns: Nodes, ghost pt: Paths, ghost x: int, ghost cut: Nodes, ghost order: seq<int>,
        ghost kept: seq<int>)
      requires x in pt && curr in pt && pt[x] <= pt[curr]
      requires Sweeping(ns, pt, x, cut, order, kept, VisitedThrough(pt, x, curr), LeftThrough(pt, x, curr))
      modifies this
      ensures Sweeping(ns, pt, x, cut, order + [curr], kept, VisitedThrough(pt, x, curr),
                       LeftThrough(pt, x, curr) + {curr})
    {
      hide FreedOk, FreeOk, CutOut, WellLinked, Lex;
      AtCurr(ns, pt, x, cut, curr);
      FreeNext(pt, x, curr, order);
      Release(curr);
      assert free == kept + (order + [curr]);
    }

    /** The backtracking loop of freeSubtree: free nodes without a next sibling on the way up. */
    method Retreat(start: int, startPos: int, valid: bool, ghost bytes: Bytes,
                   ghost ns: Nodes, ghost pt: Paths, ghost x: int, ghost cut: Nodes, ghost order: seq<int>,
                   ghost kept: seq<int>, top: int)
      returns (curr: int, keyPos: int, ghost more: seq<int>)
      requires top == x && x in pt && start in pt && pt[x] <= pt[start]
      requires Sweeping(ns, pt, x, cut, order, kept, VisitedThrough(pt, x, start), LeftThrough(pt, x, start))
      requires valid ==> startPos == |pt[start]| && Buffered(pt, x, start, bytes)
      modifies this
      ensures curr in pt && pt[x] <= pt[curr] && 0 <= curr < |nodes| && (curr == x || ns[curr].sibling != NIL)
      ensures VisitedThrough(pt, x, curr) == VisitedThrough(pt, x, start)
      ensures Sweeping(ns, pt, x, cut, more, kept, VisitedThrough(pt, x, curr), LeftThrough(pt, x, curr))
      ensures valid ==> keyPos == |pt[curr]| && Buffered(pt, x, curr, bytes)
    {
      hide FreedOk, FreeOk, KeyLensOk;
      curr, keyPos, more := start, startPos, order;
      Alive(ns, pt, x, cut, curr);
      while curr != top && nodes[curr].sibling == NIL
        invariant curr in pt && pt[x] <= pt[curr] && 0 <= curr < |nodes| && curr in path
        invariant nodes[curr] == cut[curr].(value := None)
        invariant VisitedThrough(pt, x, curr) == VisitedThrough(pt, x, start)
        invariant Sweeping(ns, pt, x, cut, more, kept, VisitedThrough(pt, x, curr), LeftThrough(pt, x, curr))
        invariant valid ==> keyPos == |pt[curr]| && Buffered(pt, x, curr, bytes)
        decreases |pt[curr]|
      {
        assert UpOk(cut, pt, curr);
        SweepUp(ns, pt, x, curr);
        ghost var p := ns[curr].parent;
        keyPos := keyPos - |nodes[curr].prefix|;
        var parent := nodes[curr].parent;
        if valid {
          BufferUp(pt, x, curr, p, bytes);
        }
        FreeOne(curr, ns, pt, x, cut, more, kept);
        more := more + [curr];
        curr := parent;
        Alive(ns, pt, x, cut, curr);
      }
    }

    /** The step of the buffer from `p` to its child `c`. */
    static method Extend(buf: array<Byte>, keyPos: int, prefix: Bytes, valid: bool, ghost ns: Nodes, ghost pt: Paths,
        ghost x: int, ghost p: int, ghost c: int)
      returns (pos: int)
      requires WellLinked(ns, pt) && IsKid(ns, pt, c, p) && prefix == ns[c].prefix && buf.Length == KEY_BUF
      requires valid ==> p in pt && x in pt && keyPos == |pt[p]| && pt[x] <= pt[p] && Buffered(pt, x, p, buf[..])
      modifies buf
      ensures valid ==> pos == |pt[c]| && Buffered(pt, x, c, buf[..])
    {
      assert NodeOk(ns, pt, c);
      pos := AppendKeyBuf(buf, keyPos, prefix, valid);
      if valid {
        BufferDown(ns, pt, x, p, c, old(buf[..]), buf[..]);
      }
    }

    /** The step of the buffer from `curr` to its next sibling, over their parent. */
    static method NextKey(buf: array<Byte>, keyPos: int, oldPrefix: Bytes, prefix: Bytes, valid: bool, ghost ns: Nodes,
        ghost pt: Paths, ghost x: int, ghost curr: int)
      returns (pos: int)
      requires WellLinked(ns, pt) && x in pt && curr in pt && pt[x] <= pt[curr] && curr != x && buf.Length == KEY_BUF
      requires 0 <= curr < |ns| && 0 <= ns[curr].sibling < |ns| && oldPrefix == ns[curr].prefix
      requires prefix == ns[ns[curr].sibling].prefix
      requires valid ==> keyPos == |pt[curr]| && Buffered(pt, x, curr, buf[..])
      modifies buf
      ensures valid ==>
                ns[curr].sibling in pt && pos == |pt[ns[curr].sibling]| && Buffered(pt, x, ns[curr].sibling, buf[..])
    {
      assert NodeOk(ns, pt, curr);
      StaysBelow(ns, pt, x, curr);
      if valid {
        BufferUp(pt, x, curr, ns[curr].parent, buf[..]);
      }
      pos := Extend(buf, keyPos - |oldPrefix|, prefix, valid, ns, pt, x, ns[curr].parent, ns[curr].sibling);
    }

    /** From a visited node to its first child. */
    method Down(curr: int, keyPos: int, valid: bool, buf: array<Byte>,
                ghost ns: Nodes, ghost pt: Paths, ghost x: int, ghost cut: Nodes, ghost order: seq<int>,
                ghost kept: seq<int>)
      returns (child: int, pos: int)
      requires x in pt && curr in pt && pt[x] <= pt[curr] && 0 <= curr < |nodes| && buf.Length == KEY_BUF
      requires Sweeping(ns, pt, x, cut, order, kept, Visited(pt, x, curr) + {curr}, Left(pt, x, curr))
      requires ns[curr].child != NIL
      requires valid ==> keyPos == |pt[curr]| && Buffered(pt, x, curr, buf[..])
      modifies buf
      ensures child in pt && pt[x] <= pt[child] && 0 <= child < |nodes|
      ensures Visited(pt, x, child) == Visited(pt, x, curr) + {curr}
      ensures Sweeping(ns, pt, x, cut, order, kept, Visited(pt, x, child), Left(pt, x, child))
      ensures valid ==> pos == |pt[child]| && Buffered(pt, x, child, buf[..])
    {
      hide FreedOk, FreeOk, KeyLensOk, Buffered;
      Alive(ns, pt, x, cut, curr);
      SweepDown(ns, pt, x, curr);
      child := nodes[curr].child;
      ToFirstChild(ns, pt, curr, curr);
      Alive(ns, pt, x, cut, child);
      assert child != x;
      hide Visited, Left;
      pos := Extend(buf, keyPos, nodes[child].prefix, valid, ns, pt, x, curr, child);
    }

    /** From a finished node to its next sibling. */
    method Across(curr: int, keyPos: int, valid: bool, buf: array<Byte>,
                  ghost ns: Nodes, ghost pt: Paths, ghost x: int, ghost cut: Nodes, ghost order: seq<int>,
                  ghost kept: seq<int>)
      returns (sibling: int, pos: int)
      requires x in pt && curr in pt && pt[x] <= pt[curr] && curr != x && buf.Length == KEY_BUF
      requires Sweeping(ns, pt, x, cut, order, kept, VisitedThrough(pt, x, curr), LeftThrough(pt, x, curr))
      requires 0 <= curr < |nodes| && ns[curr].sibling != NIL
      requires valid ==> keyPos == |pt[curr]| && Buffered(pt, x, curr, buf[..])
      modifies this, buf
      ensures sibling in pt && pt[x] <= pt[sibling] && 0 <= sibling < |nodes|
      ensures Visited(pt, x, sibling) == VisitedThrough(pt, x, curr)
      ensures Sweeping(ns, pt, x, cut, order + [curr], kept, Visited(pt, x, sibling), Left(pt, x, sibling))
      ensures valid ==> pos == |pt[sibling]| && Buffered(pt, x, sibling, buf[..])
    {
      hide FreedOk, FreeOk, KeyLensOk, Buffered;
      Alive(ns, pt, x, cut, curr);
      SweepNext(ns, pt, x, curr);
      sibling := nodes[curr].sibling;
      ToNextSibling(ns, pt, curr, curr);
      Alive(ns, pt, x, cut, sibling);
      NotYetLeft(ns, pt, x, curr);
      hide VisitedThrough, LeftThrough, Visited, Left;
      pos := NextKey(buf, keyPos, nodes[curr].prefix, nodes[sibling].prefix, valid, ns, pt, x, curr);
      FreeOne(curr, ns, pt, x, cut, order, kept);
    }

    /** freeSubtree: sweep the detached subtree below `x` in preorder without a stack, freeing every node
        after its descendants and reporting every entry once, in lexicographic order of its key. */
    method FreeSubtree(x: int, ghost ns: Nodes, ghost cut: Nodes) returns (events: seq<Event>)
      requires CutOut(ns, path, x, cut) && KeyLensOk(cut, path) && nodes == cut && FreeOk(|nodes|, path.Keys, free)
      requires Blanked(cut, path)
      modifies this
      ensures path == Without(old(path), x) && FreeOk(|nodes|, path.Keys, free) && Blanked(nodes, path)
      ensures |nodes| == |cut| && forall y :: y in path && 0 <= y < |nodes| ==> nodes[y] == cut[y]
      ensures Reported(ns, old(path), Below(old(path), x), events)
      ensures |old(free)| <= |free| && free[..|old(free)|] == old(free)
      ensures FreedOk(old(path), Below(old(path), x), free[|old(free)|..])
    {
      hide FreedOk, FreeOk, KeyLensOk, Reported, Buffered, WellLinked, Visited, Left, VisitedThrough, LeftThrough;
      ghost var pt, kept, order := path, free, [];
      SweepStart(pt, x);
      StartSweep(ns, pt, x, cut);
      var buf := new Byte[KEY_BUF];
      var keyPos, valid := InitKeyBuf(x, buf);
      if valid {
        BufferStart(pt, x, buf[..]);
      }
      var curr := x;
      events := [];
      while true
        invariant curr in pt && pt[x] <= pt[curr] && 0 <= curr < |nodes|
        invariant Sweeping(ns, pt, x, cut, order, kept, Visited(pt, x, curr), Left(pt, x, curr))
        invariant Reported(ns, pt, Visited(pt, x, curr), events)
        invariant valid ==> keyPos == |pt[curr]| && Buffered(pt, x, curr, buf[..])
        decreases Below(pt, x) - Visited(pt, x, curr)
      {
        Alive(ns, pt, x, cut, curr);
        Unvisited(pt, x, curr);
        events := Visit(curr, buf, keyPos, valid, events, ns, pt, x, cut, order, kept);
        if nodes[curr].child != NIL {
          curr, keyPos := Down(curr, keyPos, valid, buf, ns, pt, x, cut, order, kept);
          continue;
        }
        SweepLeaf(ns, pt, x, curr);
        ghost var more;
        curr, keyPos, more := Retreat(curr, keyPos, valid, buf[..], ns, pt, x, cut, order, kept, x);
        order := more;
        if curr == x {
          FreeOne(curr, ns, pt, x, cut, order, kept);
          FinishSweep(pt, x, cut, nodes, path);
          assert free[|kept|..] == order + [x];
          return;
        }
        ghost var done := curr;
        curr, keyPos := Across(curr, keyPos, valid, buf, ns, pt, x, cut, order, kept);
        order := order + [done];
      }
    }

    /** removeChild and the restored parent link: the subtree below `x` leaves the child list of its parent. */
    method Detach(p: int, x: int) returns (ghost open: Nodes)
      requires Valid() && p in path && 0 <= p < |nodes| && IsKid(nodes, path, x, p)
      modifies `nodes
      ensures CutOut(old(nodes), path, x, nodes) && KeyLensOk(nodes, path) && FreeOk(|nodes|, path.Keys, free)
      ensures Blanked(nodes, path)
      ensures p in Without(path, x) && |open| == |nodes| && Labels(nodes) == old(Labels(nodes))
      ensures WellLinked(open, Without(path, x)) && CompactBut(open, Without(path, x), p)
      ensures forall y :: y in Without(path, x) && 0 <= y < |nodes| ==>
                nodes[y] == open[y] && nodes[y].value == old(nodes)[y].value
    {
      ghost var ns, pt := nodes, path;
      assert NodeOk(ns, pt, x);
      var prev := FindPrev(nodes, path, p, x);
      CutLinked(ns, pt, p, prev, x);
      CutResult(ns, pt, p, prev, x);
      nodes := Unlinked(nodes, p, prev, x);
      open := nodes;
      nodes := nodes[x := nodes[x].(sibling := NIL)];
      IsCutOut(ns, pt, p, prev, x);
      hide WellLinked, CutOut, CompactBut;
    }

    /** Everything below `x` goes. */
    method Sever(p: int, x: int) returns (events: seq<Event>, edits: seq<Edit>)
      requires Valid() && p in path && 0 <= p < |nodes| && IsKid(nodes, path, x, p)
      modifies this
      ensures ValidBut(p) && p in path && path == Without(old(path), x) && |nodes| == |old(nodes)|
      ensures forall y :: y in path ==> nodes[y].value == old(nodes)[y].value
      ensures Reported(old(nodes), old(path), Below(old(path), x), events)
      ensures |old(free)| <= |free| && FreedOk(old(path), Below(old(path), x), free[|old(free)|..])
      ensures Relabels(old(nodes), edits, nodes) && Cost(edits) == 0
    {
      hide WellLinked, CompactBut, FreedOk, Reported, CutOut, Relabels, Cost, FreeOk, Below;
      ghost var ns, pt := nodes, path;
      var kept := |free|;
      ghost var open := Detach(p, x);
      ghost var cut := nodes;
      events := FreeSubtree(x, ns, cut);
      FrameLinked(open, nodes, path);
      FrameBranches(open, nodes, path, p);
      edits := Frees(free[kept..]);
      SweptLabels(ns, pt, x, cut, nodes, path, free[kept..]);
    }

    /** The descent of deleteNonEmptyPrefixLocked: the edge on which the prefix ends. */
    method FindPart(prefix: Bytes) returns (p: int, x: int)
      requires Valid() && prefix != []
      ensures x == NIL ==> forall k :: k in Entries() ==> !(prefix <= k)
      ensures x != NIL ==> p in path && IsKid(nodes, path, x, p) && 0 <= p < |nodes|
      ensures x != NIL ==> x in path && forall y :: y in path ==> (prefix <= path[y] <==> path[x] <= path[y])
    {
      var curr, search := ROOT, prefix;
      while search != []
        invariant search != [] && curr in path && 0 <= curr < |nodes| && path[curr] + search == prefix
        decreases |search|
      {
        var child, prev, next := FindChild(nodes, path, curr, search[0]);
        if child == NIL {
          NoEntryStarts(nodes, path, curr, search, child, prefix);
          break;
        }
        assert NodeOk(nodes, path, child);
        var lcp := Lcp(search, nodes[child].prefix);
        if lcp == |search| {
          assert search == nodes[child].prefix[..lcp];
          SamePart(nodes, path, curr, search, child, prefix);
          return curr, child;
        }
        if lcp < |nodes[child].prefix| {
          NoEntryStarts(nodes, path, curr, search, child, prefix);
          break;
        }
        assert search == search[..lcp] + search[lcp..];
        search := search[lcp..];
        curr := child;
      }
      return NIL, NIL;
    }

    /** deleteNonEmptyPrefixLocked: remove exactly the entries whose key starts with `prefix`. */
    method DeletePrefix(prefix: Bytes) returns (events: seq<Event>, edits: seq<Edit>)
      requires Valid() && prefix != []
      modifies this
      ensures Valid()
      ensures Entries() == map k | k in old(Entries()) && !(prefix <= k) :: old(Entries())[k]
      ensures forall e :: e in events <==> IsEntry(old(nodes), old(path), e.id, e) && prefix <= e.key
      ensures forall i, j :: 0 <= i < j < |events| ==> Lex(events[i].key, events[j].key)
      ensures Shrinks(old(nodes), old(path), nodes, path, set k | k in old(Entries()) && prefix <= k)
      ensures Relabels(old(nodes), edits, nodes) && Cost(edits) <= 4
    {
      hide WellLinked, CompactBut, FreeOk, KeyLensOk, Reported, FreedOk, Lex, Below, Shrinks, IsKid, IsEntry, Relabels,
        Cost, Contents;
      var p, x := FindPart(prefix);
      ghost var ns, pt, es := nodes, path, Entries();
      ghost var gone := set k | k in es && prefix <= k;
      if x == NIL {
        NoneGone(ns, pt, prefix);
        assert gone == {};
        ShrinksNot(ns, pt);
        RelabelsNone(ns, ns);
        NoCost();
        return [], [];
      }
      events, edits := Sever(p, x);
      ReportsEntries(ns, pt, x, prefix, events);
      PartGone(ns, pt, x, prefix, nodes, path);
      ghost var ns1, pt1 := nodes, path;
      var more := CompressUp(p);
      ShrinksTwice(ns, pt, ns1, pt1, nodes, path, gone);
      RelabelsTwice(ns, edits, ns1, more, nodes);
      edits := edits + more;
    }

    /** The first loop of compactDataStructuresLocked: number the live nodes, which are the root and those with a
        parent. */
    method NumberLive() returns (live: seq<int>, ren: map<int, int>)
      requires Valid()
      ensures RN.Numbers(path, live, ren) && RN.Fits(nodes, path, live, ren)
    {
      live, ren := [], map[];
      var id := 0;
      while id < |nodes|
        invariant 0 <= id <= |nodes| && |live| <= id
        invariant forall k :: 0 <= k < |live| ==>
                    0 <= live[k] < id && live[k] in path && live[k] in ren && ren[live[k]] == k
        invariant forall x :: x in ren ==> 0 <= x < id && x in path && 0 <= ren[x] < |live| && live[ren[x]] == x
        invariant forall x :: 0 <= x < id && x in path ==> x in ren
        invariant 0 < id ==> ROOT in ren && ren[ROOT] == ROOT
      {
        LiveTest(nodes, path, id);
        if id == ROOT || nodes[id].parent != NIL {
          ren := ren[id := |live|];
          live := live + [id];
        }
        id := id + 1;
      }
      assert forall x :: x in path ==> 0 <= x < |nodes|;
    }

    /** compactDataStructuresLocked on the trie: no free ids remain, and the same entries under new numbers. */
    method Compact() returns (live: seq<int>, ren: map<int, int>)
      requires Valid()
      modifies this
      ensures Valid() && free == [] && |nodes| == |live| && Entries() == old(Entries())
      ensures RN.Numbers(old(path), live, ren) && RN.Fits(old(nodes), old(path), live, ren)
      ensures nodes == RN.NewNodes(old(nodes), live, ren) && path == RN.NewPaths(old(path), live)
    {
      hide WellLinked, CompactBut, KeyLensOk, FreeOk, Blanked, RN.Fits, RN.Numbers, RN.NewNodes, RN.NewPaths, Contents,
        Branches;
      live, ren := NumberLive();
      Moved(nodes, path, live, ren);
      nodes := RN.NewNodes(nodes, live, ren);
      path := RN.NewPaths(path, live);
      free := [];
    }

    /** clearEmptyArenaStateLocked on the trie. */
    method Clear()
      modifies this
      ensures Valid() && Entries() == map[] && nodes == [BLANK] && path == map[ROOT := []]
    {
      nodes, free, path := [BLANK], [], map[ROOT := []];
      EmptyTrie();
      hide WellLinked;
    }
  }

  lemma NoCost()
    ensures Cost([]) == 0
  {
  }

  /** The sweep frees the labels of exactly the nodes below `x`. */
  lemma SweptLabels(ns: Nodes, pt: Paths, x: int, cut: Nodes, ns': Nodes, pt': Paths, order: seq<int>)
    requires CutOut(ns, pt, x, cut) && Labels(cut) == Labels(ns) && Blanked(cut, pt)
    requires pt' == Without(pt, x) && Blanked(ns', pt') && |ns'| == |cut|
    requires forall y :: y in pt' && 0 <= y < |ns'| ==> ns'[y] == cut[y]
    requires FreedOk(pt, Below(pt, x), order)
    ensures Relabels(ns, Frees(order), ns') && Cost(Frees(order)) == 0
  {
    var l, l' := Labels(ns), Labels(ns');
    assert NodeOk(ns, pt, x);
    forall i | 0 <= i < |order|
      ensures Filled(l, order[i])
    {
      assert order[i] in order;
      assert NodeOk(ns, pt, order[i]);
      assert pt[order[i]] != [];
    }
    forall y | 0 <= y < |l|
      ensures l'[y] == if y in order then [] else l[y]
    {
      assert y in order <==> y in Below(pt, x);
      if y !in pt {
        assert l[y] == cut[y].prefix == [];
      } else if y in pt' {
        assert l'[y] == Labels(cut)[y];
      }
    }
    FreedLabels(l, order, l');
  }

  /** A node is live exactly when it is the root or has a parent. */
  lemma LiveTest(ns: Nodes, pt: Paths, id: int)
    requires WellLinked(ns, pt) && Blanked(ns, pt) && 0 <= id < |ns| && forall x :: x in pt ==> 0 <= x < |ns|
    ensures id in pt <==> id == ROOT || ns[id].parent != NIL
  {
    if id in pt {
      assert NodeOk(ns, pt, id);
    }
  }

  /** Key lengths move along, and every number is in use. */
  /** The renumbered trie is valid, without free ids, and has the same entries. */
  lemma Moved(ns: Nodes, pt: Paths, live: seq<int>, ren: map<int, int>)
    requires WellLinked(ns, pt) && RN.Fits(ns, pt, live, ren) && KeyLensOk(ns, pt) && CompactBut(ns, pt, ROOT)
    ensures forall k :: 0 <= k < |live| ==> 0 <= live[k] < |ns| && live[k] in pt
    ensures var ns', pt' := RN.NewNodes(ns, live, ren), RN.NewPaths(pt, live);
            && WellLinked(ns', pt') && CompactBut(ns', pt', ROOT) && KeyLensOk(ns', pt') && Blanked(ns', pt')
            && |ns'| == |live| && FreeOk(|live|, pt'.Keys, []) && Contents(ns', pt') == Contents(ns, pt)
  {
    hide WellLinked, CompactBut, KeyLensOk, FreeOk, Blanked, RN.Fits, Contents;
    RN.MovedLinked(ns, pt, live, ren);
    RN.MovedCompact(ns, pt, live, ren);
    RN.MovedContents(ns, pt, live, ren);
    MovedRest(ns, pt, live, ren);
  }

  lemma MovedRest(ns: Nodes, pt: Paths, live: seq<int>, ren: map<int, int>)
    requires RN.Fits(ns, pt, live, ren) && KeyLensOk(ns, pt)
    ensures forall k :: 0 <= k < |live| ==> 0 <= live[k] < |ns| && live[k] in pt
    ensures KeyLensOk(RN.NewNodes(ns, live, ren), RN.NewPaths(pt, live))
    ensures FreeOk(|live|, RN.NewPaths(pt, live).Keys, []) && Blanked(RN.NewNodes(ns, live, ren), RN.NewPaths(pt, live))
  {
  }

  /** When everything below `x` is freed, the rest is what it was. */
  lemma FinishSweep(pt: Paths, x: int, cut: Nodes, ns: Nodes, path: Paths)
    requires x in pt && Swept(pt, cut, ns, path, VisitedThrough(pt, x, x), LeftThrough(pt, x, x) + {x})
    ensures path == Without(pt, x) && VisitedThrough(pt, x, x) == Below(pt, x)
    ensures LeftThrough(pt, x, x) + {x} == Below(pt, x)
    ensures forall y :: y in path && 0 <= y < |ns| ==> ns[y] == cut[y]
  {
    SweepEnd(pt, x);
    assert path == Without(pt, x);
  }

  lemma NotYetLeft(ns: Nodes, pt: Paths, x: int, curr: int)
    requires WellLinked(ns, pt) && x in pt && curr in pt && pt[x] <= pt[curr] && curr != x
    requires 0 <= curr < |ns| && ns[curr].sibling != NIL
    ensures ns[curr].sibling in pt && ns[curr].sibling !in LeftThrough(pt, x, curr) && ns[curr].sibling != x
  {
    SweepNext(ns, pt, x, curr);
    var s := ns[curr].sibling;
    DivSelf(pt[s], pt[s]);
    assert s !in Left(pt, x, s);
    assert NodeOk(ns, pt, curr);
    assert NodeOk(ns, pt, s);
    StaysBelow(ns, pt, x, curr);
  }

  lemma IsCutOut(ns: Nodes, pt: Paths, p: int, prev: int, x: int)
    requires WellLinked(ns, pt) && Before(ns, pt, p, prev, x)
    ensures p in Without(pt, x)
    ensures CutOut(ns, pt, x, Unlinked(ns, p, prev, x)[x := ns[x].(sibling := NIL)])
    ensures forall y :: y in pt && 0 <= y < |ns| ==>
              Unlinked(ns, p, prev, x)[y].value == ns[y].value && Unlinked(ns, p, prev, x)[y].keyLen == ns[y].keyLen
  {
    var cut := Unlinked(ns, p, prev, x)[x := ns[x].(sibling := NIL)];
    assert NodeOk(ns, pt, x);
    if prev != NIL {
      BeforeOrder(ns, pt, p, prev, x);
      assert NodeOk(ns, pt, prev);
      DownStays(ns, pt, x, prev, p);
    }
    forall id | id in pt ensures UpOk(cut, pt, id) && 0 <= id < |ns| {
      assert NodeOk(ns, pt, id);
    }
  }

  /** Keys that start with the prefix pass through the child its next byte selects. */
  lemma Through(ns: Nodes, pt: Paths, curr: int, search: Bytes, y: int) returns (d: int)
    requires WellLinked(ns, pt) && curr in pt && y in pt && search != [] && pt[curr] + search <= pt[y]
    ensures IsKid(ns, pt, d, curr) && First(ns, d) == search[0] && pt[d] <= pt[y]
  {
    assert pt[curr] <= pt[y];
    PrefixAnc(ns, pt, curr, y);
    d := ChildTowards(ns, pt, curr, y);
    assert pt[y][|pt[curr]|] == (pt[curr] + search)[|pt[curr]|];
  }

  /** The nodes whose key starts with `prefix` are those below `child`. */
  lemma SamePart(ns: Nodes, pt: Paths, curr: int, search: Bytes, child: int, prefix: Bytes)
    requires WellLinked(ns, pt) && curr in pt && search != [] && pt[curr] + search == prefix
    requires IsKid(ns, pt, child, curr) && First(ns, child) == search[0] && search <= ns[child].prefix
    ensures child in pt && forall y :: y in pt ==> (prefix <= pt[y] <==> pt[child] <= pt[y])
  {
    assert NodeOk(ns, pt, child);
    forall y | y in pt
      ensures prefix <= pt[y] <==> pt[child] <= pt[y]
    {
      if prefix <= pt[y] {
        var d := Through(ns, pt, curr, search, y);
        assert PairOk(ns, pt, child, d);
      }
    }
  }

  lemma PrefixesCompare(p: Bytes, a: Bytes, b: Bytes, full: Bytes)
    requires p + a <= full && p + b <= full
    ensures a <= b || b <= a
  {
    assert a == full[|p|..][..|a|] && b == full[|p|..][..|b|];
  }

  /** If no child continues the prefix, no key starts with it. */
  lemma NoneStarts(ns: Nodes, pt: Paths, curr: int, search: Bytes, child: int, y: int)
    requires WellLinked(ns, pt) && curr in pt && y in pt && search != []
    requires child == NIL ==> forall c :: IsKid(ns, pt, c, curr) ==> First(ns, c) != search[0]
    requires child != NIL ==> IsKid(ns, pt, child, curr) && First(ns, child) == search[0] &&
                              !(search <= ns[child].prefix) && !(ns[child].prefix <= search)
    ensures !(pt[curr] + search <= pt[y])
  {
    if child != NIL {
      assert NodeOk(ns, pt, child);
    }
    if pt[curr] + search <= pt[y] {
      var d := Through(ns, pt, curr, search, y);
      assert child != NIL;
      assert PairOk(ns, pt, child, d);
      PrefixesCompare(pt[curr], search, ns[d].prefix, pt[y]);
    }
  }

  lemma NoEntryStarts(ns: Nodes, pt: Paths, curr: int, search: Bytes, child: int, prefix: Bytes)
    requires WellLinked(ns, pt) && curr in pt && search != [] && pt[curr] + search == prefix
    requires child == NIL ==> forall c :: IsKid(ns, pt, c, curr) ==> First(ns, c) != search[0]
    requires child != NIL ==> IsKid(ns, pt, child, curr) && First(ns, child) == search[0] &&
                              Lcp(search, ns[child].prefix) < |search|
                                && Lcp(search, ns[child].prefix) < |ns[child].prefix|
    ensures forall k :: k in Contents(ns, pt) ==> !(prefix <= k)
  {
    forall k | k in Contents(ns, pt)
      ensures !(prefix <= k)
    {
      ContentsAt(ns, pt, k);
      var y :| Holds(ns, pt, k, y);
      NoneStarts(ns, pt, curr, search, child, y);
    }
  }

  lemma NoneGone(ns: Nodes, pt: Paths, prefix: Bytes)
    requires WellLinked(ns, pt) && forall k :: k in Contents(ns, pt) ==> !(prefix <= k)
    ensures forall e: Event :: IsEntry(ns, pt, e.id, e) ==> !(prefix <= e.key)
  {
    forall e: Event | IsEntry(ns, pt, e.id, e)
      ensures !(prefix <= e.key)
    {
      EntryAt(ns, pt, e.id);
    }
  }

  lemma ReportsEntries(ns: Nodes, pt: Paths, x: int, prefix: Bytes, events: seq<Event>)
    requires WellLinked(ns, pt) && x in pt && Reported(ns, pt, Below(pt, x), events)
    requires forall y :: y in pt ==> (prefix <= pt[y] <==> pt[x] <= pt[y])
    ensures forall e :: e in events <==> IsEntry(ns, pt, e.id, e) && prefix <= e.key
    ensures forall i, j :: 0 <= i < j < |events| ==> Lex(events[i].key, events[j].key)
  {
    forall e
      ensures e in events <==> IsEntry(ns, pt, e.id, e) && prefix <= e.key
    {
      if e in events {
        var i :| 0 <= i < |events| && events[i] == e;
        assert events[i].id in Below(pt, x);
      }
      if IsEntry(ns, pt, e.id, e) && prefix <= e.key {
        assert e.id in Below(pt, x);
      }
    }
  }

  lemma PartGone(ns: Nodes, pt: Paths, x: int, prefix: Bytes, ns': Nodes, pt': Paths)
    requires WellLinked(ns, pt) && x in pt && WellLinked(ns', pt') && pt' == Without(pt, x) && |ns'| == |ns|
    requires forall y :: y in pt' && 0 <= y < |ns| ==> ns'[y].value == ns[y].value
    requires forall y :: y in pt ==> (prefix <= pt[y] <==> pt[x] <= pt[y])
    ensures Shrinks(ns, pt, ns', pt', set k | k in Contents(ns, pt) && prefix <= k)
    ensures Contents(ns', pt') == Contents(ns, pt) - (set k | k in Contents(ns, pt) && prefix <= k)
  {
    var gone := set k | k in Contents(ns, pt) && prefix <= k;
    forall y | y in pt && 0 <= y < |ns| && ns[y].value.Some?
      ensures pt[y] in gone <==> y !in pt'
    {
      EntryAt(ns, pt, y);
    }
    ContentsWithout(ns, pt, ns', pt', gone);
  }

  lemma StartSweep(ns: Nodes, pt: Paths, x: int, cut: Nodes)
    requires CutOut(ns, pt, x, cut)
    ensures Swept(pt, cut, cut, pt, {}, {}) && FreedOk(pt, {}, []) && Reported(ns, pt, {}, []) && Spelled(cut, pt)
  {
    assert pt - {} == pt;
  }

  lemma BufferStart(pt: Paths, x: int, bytes: Bytes)
    requires x in pt && |bytes| == KEY_BUF && |pt[x]| <= KEY_BUF && bytes[..|pt[x]|] == pt[x]
    ensures Buffered(pt, x, x, bytes)
  {
    forall a | a in pt && pt[x] <= pt[a] && pt[a] <= pt[x]
      ensures bytes[..|pt[a]|] == pt[a]
    {
      assert pt[a] == pt[x];
    }
  }

  lemma Unvisited(pt: Paths, x: int, curr: int)
    requires x in pt && curr in pt && pt[x] <= pt[curr]
    ensures curr in Below(pt, x) && curr !in Visited(pt, x, curr)
  {
    DivSelf(pt[curr], pt[curr]);
  }

  /** A node that is being finished is neither freed nor still carrying its value. */
  /** The node to be freed next is live, and paths tell nodes apart. */
  lemma AtCurr(ns: Nodes, pt: Paths, x: int, cut: Nodes, curr: int)
    requires CutOut(ns, pt, x, cut) && x in pt && curr in pt && pt[x] <= pt[curr]
    ensures 0 <= curr < |cut| && curr !in LeftThrough(pt, x, curr)
    ensures forall a, b :: a in pt && b in pt && pt[a] == pt[b] ==> a == b
  {
    Alive(ns, pt, x, cut, curr);
    forall a, b | a in pt && b in pt && pt[a] == pt[b]
      ensures a == b
    {
      PathsDiffer(ns, pt, a, b);
    }
  }

  lemma Alive(ns: Nodes, pt: Paths, x: int, cut: Nodes, curr: int)
    requires CutOut(ns, pt, x, cut) && curr in pt && pt[x] <= pt[curr]
    ensures curr !in LeftThrough(pt, x, curr) && curr in VisitedThrough(pt, x, curr) && 0 <= curr < |ns|
    ensures curr != x ==> cut[curr] == ns[curr] && curr != ROOT
    ensures curr !in Left(pt, x, curr)
  {
    DivSelf(pt[curr], pt[curr]);
    assert NodeOk(ns, pt, curr);
    if curr != x {
      StaysBelow(ns, pt, x, curr);
    }
  }
}

/**
 What the trie does to the labels of its nodes, as a list of edits that a label store can replay.  An edit
 corresponds to one call into the label allocator of arena_radix.go.
 */
module TrieLabels {
  import opened Bytes
  import opened RadixTrie

  /** A freed or not yet used node. */
  const BLANK: Node := Node([], NIL, NIL, NIL, None, 0)

  /** The label of every node, by id. */
  function Labels(ns: Nodes): (r: seq<Bytes>)
    ensures |r| == |ns| && forall i :: 0 <= i < |ns| ==> r[i] == ns[i].prefix
  {
    seq(|ns|, i requires 0 <= i < |ns| => ns[i].prefix)
  }

  datatype Edit =
    | NewNode                            // the node arena grows by one node without a label
    | SetLabel(id: int, text: Bytes)     // setNodePrefix
    | SplitLabel(c: int, m: int, k: nat) // splitNodePrefixLocked: `m` takes the first `k` bytes from `c`
    | MergeLabel(m: int, c: int)         // mergeNodePrefixesLocked: `c` gets both, `m` none
    | ClearLabel(id: int)                // clearNodePrefix in freeNode
    | FreeLabel(id: int)                 // freeSubtreeNodeLocked

  predicate Filled(l: seq<Bytes>, id: int) {
    0 <= id < |l| && l[id] != []
  }

  predicate Bare(l: seq<Bytes>, id: int) {
    0 <= id < |l| && l[id] == []
  }

  /** The labels after one edit; none if it does not apply. */
  function Edited(l: seq<Bytes>, e: Edit): Option<seq<Bytes>> {
    match e
    case NewNode => Some(l + [[]])
    case SetLabel(id, text) => if Bare(l, id) && text != [] then Some(l[id := text]) else None
    case SplitLabel(c, m, k) =>
      if Filled(l, c) && Bare(l, m) && 0 < k < |l[c]| then Some(l[m := l[c][..k]][c := l[c][k..]]) else None
    case MergeLabel(m, c) => if Filled(l, m) && Filled(l, c) && m != c then Some(l[m := []][c := l[m] + l[c]]) else None
    case ClearLabel(id) => if Filled(l, id) then Some(l[id := []]) else None
    case FreeLabel(id) => if Filled(l, id) then Some(l[id := []]) else None
  }

  function Replay(l: seq<Bytes>, edits: seq<Edit>): Option<seq<Bytes>>
    decreases |edits|
  {
    if edits == [] then Some(l)
    else
      var next := Edited(l, edits[0]);
      if next.None? then None else Replay(next.value, edits[1..])
  }

  lemma {:induction false} ReplayConcat(l: seq<Bytes>, a: seq<Edit>, b: seq<Edit>)
    ensures Replay(l, a + b) == (if Replay(l, a).None? then None else Replay(Replay(l, a).value, b))
    decreases |a|
  {
    if a == [] {
      assert a + b == b;
    } else {
      assert (a + b)[0] == a[0] && (a + b)[1..] == a[1..] + b;
      hide Edited;
      if Edited(l, a[0]).Some? {
        ReplayConcat(Edited(l, a[0]).value, a[1..], b);
      }
    }
  }

  /** The edits lead from the labels of `ns` to those of `ns'`. */
  predicate Relabels(ns: Nodes, edits: seq<Edit>, ns': Nodes) {
    Replay(Labels(ns), edits) == Some(Labels(ns'))
  }

  lemma RelabelsNone(ns: Nodes, ns': Nodes)
    requires Labels(ns) == Labels(ns')
    ensures Relabels(ns, [], ns')
  {
  }

  lemma RelabelsOne(ns: Nodes, e: Edit, ns': Nodes)
    requires Edited(Labels(ns), e) == Some(Labels(ns'))
    ensures Relabels(ns, [e], ns')
  {
    hide Edited;
    var edits := [e];
    assert edits[0] == e && edits[1..] == [];
    assert Replay(Labels(ns'), []) == Some(Labels(ns'));
  }

  lemma RelabelsTwice(ns: Nodes, a: seq<Edit>, ns1: Nodes, b: seq<Edit>, ns2: Nodes)
    requires Relabels(ns, a, ns1) && Relabels(ns1, b, ns2)
    ensures Relabels(ns, a + b, ns2) && Cost(a + b) == Cost(a) + Cost(b)
  {
    ReplayConcat(Labels(ns), a, b);
    CostConcat(a, b);
  }

  // ---------------------------------------------------------------------------------------------
  // The bytes the edits can add to the label store
  // ---------------------------------------------------------------------------------------------

  /** New payload bytes, and four for each header that may appear. */
  function EditCost(e: Edit): nat {
    match e
    case SetLabel(_, text) => |text| + 4
    case SplitLabel(_, _, _) => 8
    case MergeLabel(_, _) => 4
    case _ => 0
  }

  function Cost(edits: seq<Edit>): nat {
    if edits == [] then 0 else EditCost(edits[0]) + Cost(edits[1..])
  }

  lemma {:induction false} CostConcat(a: seq<Edit>, b: seq<Edit>)
    ensures Cost(a + b) == Cost(a) + Cost(b)
  {
    if a == [] {
      assert a + b == b;
    } else {
      CostConcat(a[1..], b);
      assert (a + b)[1..] == a[1..] + b;
    }
  }

  lemma CostOne(e: Edit)
    ensures Cost([e]) == EditCost(e)
  {
  }

  // ---------------------------------------------------------------------------------------------
  // The edits of the trie's steps
  // ---------------------------------------------------------------------------------------------

  lemma GrownLabels(ns: Nodes)
    ensures Relabels(ns, [NewNode], ns + [BLANK])
  {
    assert Labels(ns + [BLANK]) == Labels(ns) + [[]];
    RelabelsOne(ns, NewNode, ns + [BLANK]);
  }

  /** A new leaf sets one label (setNodePrefix in insertNode). */
  lemma LeafLabels(ns: Nodes, p: int, prev: int, next: int, n: int, prefix: Bytes, v: Value, kl: int)
    requires 0 <= p < |ns| && 0 <= n < |ns| && (prev != NIL ==> 0 <= prev < |ns|) && ns[n].prefix == [] && prefix != []
    ensures Relabels(ns, [SetLabel(n, prefix)], WithLeaf(ns, p, prev, next, n, prefix, v, kl))
  {
    var ns' := WithLeaf(ns, p, prev, next, n, prefix, v, kl);
    assert Labels(ns') == Labels(ns)[n := prefix];
    RelabelsOne(ns, SetLabel(n, prefix), ns');
  }

  /** A split divides one label between two nodes (splitNodePrefixLocked). */
  lemma SplitLabels(ns: Nodes, pt: Paths, p: int, prev: int, c: int, m: int, k: nat, kl: int)
    requires WellLinked(ns, pt) && CanSplit(ns, pt, p, prev, c, m, k) && ns[m].prefix == []
    ensures Relabels(ns, [SplitLabel(c, m, k)], WithSplit(ns, p, prev, c, m, k, kl))
  {
    var l, ns' := Labels(ns), WithSplit(ns, p, prev, c, m, k, kl);
    assert NodeOk(ns, pt, c);
    hide WellLinked;
    assert Labels(ns') == l[m := l[c][..k]][c := l[c][k..]];
    RelabelsOne(ns, SplitLabel(c, m, k), ns');
  }

  /** A merge with the routing node freed joins two labels (mergeNodePrefixesLocked and freeNode). */
  lemma MergeLabels(ns: Nodes, pt: Paths, q: int, prev: int, m: int, c: int)
    requires WellLinked(ns, pt) && CanMerge(ns, pt, q, prev, m, c)
    ensures Relabels(ns, [MergeLabel(m, c)], Merged(ns, q, prev, m, c)[m := BLANK])
  {
    var l, ns' := Labels(ns), Merged(ns, q, prev, m, c)[m := BLANK];
    OnlyKid(ns, pt, q, prev, m, c, m);
    hide WellLinked;
    assert Labels(ns') == l[m := []][c := l[m] + l[c]];
    RelabelsOne(ns, MergeLabel(m, c), ns');
  }

  /** Taking out and freeing a node clears its label. */
  lemma CutLabels(ns: Nodes, p: int, prev: int, x: int)
    requires 0 <= p < |ns| && 0 <= x < |ns| && (prev != NIL ==> 0 <= prev < |ns|) && ns[x].prefix != []
    ensures Relabels(ns, [ClearLabel(x)], Unlinked(ns, p, prev, x)[x := BLANK])
  {
    var ns' := Unlinked(ns, p, prev, x)[x := BLANK];
    assert Labels(ns') == Labels(ns)[x := []];
    RelabelsOne(ns, ClearLabel(x), ns');
  }

  /** The edits of a sweep that frees the nodes in `order`. */
  function Frees(order: seq<int>): seq<Edit> {
    seq(|order|, i requires 0 <= i < |order| => FreeLabel(order[i]))
  }

  lemma {:induction false} FreedLabels(l: seq<Bytes>, order: seq<int>, l': seq<Bytes>)
    requires |l'| == |l| && forall y :: 0 <= y < |l| ==> l'[y] == if y in order then [] else l[y]
    requires forall i :: 0 <= i < |order| ==> Filled(l, order[i])
    requires forall i, j :: 0 <= i < j < |order| ==> order[i] != order[j]
    ensures Replay(l, Frees(order)) == Some(l') && Cost(Frees(order)) == 0
    decreases |order|
  {
    var edits := Frees(order);
    if order == [] {
      assert l == l';
    } else {
      var rest := order[1..];
      assert edits[1..] == Frees(rest);
      assert forall y :: y in order <==> y == order[0] || y in rest;
      assert forall i :: 0 <= i < |rest| ==> rest[i] == order[i + 1];
      FreedLabels(l[order[0] := []], rest, l');
    }
  }
}

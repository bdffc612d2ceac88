/**
 The compressed radix trie (radix_lru.go and arena_radix.go) as an arena of nodes linked by parent,
 first child and next sibling.  The ghost map `pt` gives, for every live node, the byte string
 spelled on the way from the root: all conditions on the links are local to one or two nodes.
 */
module RadixTrie {
  import opened Bytes

  const NIL: int := -1
  const ROOT: int := 0

  datatype Node = Node(prefix: Bytes, parent: int, child: int, sibling: int, value: Option<Value>, keyLen: int)

  type Nodes = seq<Node>
  type Paths = map<int, Bytes>

  /** Node `c` is a live child of node `p`. */
  predicate IsKid(ns: Nodes, pt: Paths, c: int, p: int) {
    c in pt && c != ROOT && 0 <= c < |ns| && ns[c].parent == p && ns[c].prefix != []
  }

  function First(ns: Nodes, c: int): Byte {
    if 0 <= c < |ns| && ns[c].prefix != [] then ns[c].prefix[0] else 0
  }

  /** What holds of a live node: its links lead to live nodes that agree, its edge is not empty and
      continues the parent's path, and the parent's first child is the smallest. */
  ghost predicate NodeOk(ns: Nodes, pt: Paths, id: int) {
    && 0 <= id < |ns| && id in pt
    && (ns[id].child != NIL ==> IsKid(ns, pt, ns[id].child, id))
    && (id != ROOT ==>
          var p := ns[id].parent;
          && p in pt && 0 <= p < |ns| && ns[id].prefix != [] && pt[id] == pt[p] + ns[id].prefix
          && (ns[id].sibling != NIL ==> IsKid(ns, pt, ns[id].sibling, p) && First(ns, id) < First(ns, ns[id].sibling))
          && ns[p].child != NIL && IsKid(ns, pt, ns[p].child, p) && First(ns, ns[p].child) <= First(ns, id))
  }

  /** Siblings start with different bytes, and no sibling lies between a node and its successor. */
  ghost predicate PairOk(ns: Nodes, pt: Paths, a: int, c: int) {
    && a in pt && c in pt && a != c && 0 <= a < |ns|
    && IsKid(ns, pt, a, ns[a].parent) && IsKid(ns, pt, c, ns[a].parent) ==>
      && First(ns, a) != First(ns, c)
      && (First(ns, a) < First(ns, c) ==> ns[a].sibling != NIL && First(ns, ns[a].sibling) <= First(ns, c))
  }

  ghost predicate WellLinked(ns: Nodes, pt: Paths) {
    && ROOT in pt && pt[ROOT] == [] && 0 < |ns|
    && ns[ROOT].parent == NIL && ns[ROOT].sibling == NIL && ns[ROOT].prefix == []
    && (forall id {:trigger NodeOk(ns, pt, id)} :: id in pt ==> NodeOk(ns, pt, id))
    && (forall a, c {:trigger PairOk(ns, pt, a, c)} :: PairOk(ns, pt, a, c))
  }

  /** Path compression: a node without a value, other than the root, has at least two children. */
  predicate Branches(ns: Nodes, id: int) {
    0 <= id < |ns| && (ns[id].value.Some? || (0 <= ns[id].child < |ns| && ns[ns[id].child].sibling != NIL))
  }

  /** All nodes except possibly `skip` are compressed. */
  ghost predicate CompactBut(ns: Nodes, pt: Paths, skip: int) {
    forall id {:trigger Branches(ns, id)} :: id in pt && id != ROOT && id != skip ==> Branches(ns, id)
  }

  ghost predicate WellFormed(ns: Nodes, pt: Paths) {
    WellLinked(ns, pt) && CompactBut(ns, pt, ROOT)
  }

  // ---------------------------------------------------------------------------------------------
  // Ancestors and paths
  // ---------------------------------------------------------------------------------------------

  /** Node `a` lies on the way from the root to `b`. */
  ghost predicate Anc(ns: Nodes, pt: Paths, a: int, b: int)
    requires WellLinked(ns, pt) && b in pt
    decreases |pt[b]|
  {
    assert NodeOk(ns, pt, b);
    a == b || (b != ROOT && Anc(ns, pt, a, ns[b].parent))
  }

  lemma {:induction false} AncPath(ns: Nodes, pt: Paths, a: int, b: int)
    requires WellLinked(ns, pt) && b in pt && Anc(ns, pt, a, b)
    ensures a in pt && pt[a] <= pt[b] && (a != b ==> |pt[a]| < |pt[b]|)
    decreases |pt[b]|
  {
    assert NodeOk(ns, pt, b);
    if a != b {
      AncPath(ns, pt, a, ns[b].parent);
    }
  }

  lemma {:induction false} RootAnc(ns: Nodes, pt: Paths, b: int)
    requires WellLinked(ns, pt) && b in pt
    ensures Anc(ns, pt, ROOT, b)
    decreases |pt[b]|
  {
    assert NodeOk(ns, pt, b);
    if b != ROOT {
      RootAnc(ns, pt, ns[b].parent);
    }
  }

  /** The child of `q` through which the way to `b` leads. */
  lemma {:induction false} ChildTowards(ns: Nodes, pt: Paths, q: int, b: int) returns (x: int)
    requires WellLinked(ns, pt) && b in pt && Anc(ns, pt, q, b) && q != b
    ensures IsKid(ns, pt, x, q) && Anc(ns, pt, x, b)
    ensures q in pt && pt[x] == pt[q] + ns[x].prefix && pt[x] <= pt[b]
    ensures |pt[q]| < |pt[b]| && pt[b][|pt[q]|] == First(ns, x)
    decreases |pt[b]|
  {
    assert NodeOk(ns, pt, b);
    if ns[b].parent == q {
      x := b;
    } else {
      x := ChildTowards(ns, pt, q, ns[b].parent);
      AncPath(ns, pt, x, ns[b].parent);
    }
    assert NodeOk(ns, pt, x);
  }

  /** A live node whose path is a prefix of another's path is its ancestor. */
  lemma {:induction false} PrefixAnc(ns: Nodes, pt: Paths, a: int, b: int)
    requires WellLinked(ns, pt) && a in pt && b in pt && pt[a] <= pt[b]
    ensures Anc(ns, pt, a, b)
    decreases |pt[a]|
  {
    if a == ROOT {
      RootAnc(ns, pt, b);
    } else {
      assert NodeOk(ns, pt, a);
      var q := ns[a].parent;
      PrefixAnc(ns, pt, q, b);
      var x := ChildTowards(ns, pt, q, b);
      assert First(ns, x) == pt[b][|pt[q]|] == pt[a][|pt[q]|] == First(ns, a);
      assert PairOk(ns, pt, a, x);
    }
  }

  /** Different live nodes spell different paths. */
  lemma PathsDiffer(ns: Nodes, pt: Paths, a: int, b: int)
    requires WellLinked(ns, pt) && a in pt && b in pt && pt[a] == pt[b]
    ensures a == b
  {
    PrefixAnc(ns, pt, a, b);
    AncPath(ns, pt, a, b);
  }

  /** Node `id` holds the entry for `key`. */
  predicate Holds(ns: Nodes, pt: Paths, key: Bytes, id: int) {
    id in pt && 0 <= id < |ns| && pt[id] == key && ns[id].value.Some?
  }

  /** The entries stored in the trie. */
  ghost function Contents(ns: Nodes, pt: Paths): map<Bytes, Value>
    requires WellLinked(ns, pt)
  {
    assert forall a, b :: a in pt && b in pt && pt[a] == pt[b] ==> a == b by {
      forall a, b | a in pt && b in pt && pt[a] == pt[b] ensures a == b {
        PathsDiffer(ns, pt, a, b);
      }
    }
    map id | id in pt && 0 <= id < |ns| && ns[id].value.Some? :: pt[id] := ns[id].value.value
  }

  lemma ContentsAt(ns: Nodes, pt: Paths, key: Bytes)
    requires WellLinked(ns, pt)
    ensures key in Contents(ns, pt) <==> exists id :: Holds(ns, pt, key, id)
    ensures forall id :: Holds(ns, pt, key, id) ==>
              key in Contents(ns, pt) && Contents(ns, pt)[key] == ns[id].value.value
  {
    forall id | Holds(ns, pt, key, id)
      ensures key in Contents(ns, pt) && Contents(ns, pt)[key] == ns[id].value.value
    {
      forall b | b in pt && pt[b] == pt[id] ensures b == id {
        PathsDiffer(ns, pt, b, id);
      }
    }
  }

  // ---------------------------------------------------------------------------------------------
  // Looking for a child
  // ---------------------------------------------------------------------------------------------

  /** The place of byte `b` among the children of `p`: `prev` is the last child before it, `next` the
      first child from it on. */
  ghost predicate Place(ns: Nodes, pt: Paths, p: int, b: Byte, prev: int, next: int) {
    && p in pt && 0 <= p < |ns|
    && (prev == NIL ==> ns[p].child == next)
    && (prev != NIL ==> IsKid(ns, pt, prev, p) && First(ns, prev) < b && ns[prev].sibling == next)
    && (next != NIL ==> IsKid(ns, pt, next, p) && b <= First(ns, next))
  }

  /** Children of `p` start before `prev`, at `prev`, at `next` or after `next`. */
  lemma PlaceSplits(ns: Nodes, pt: Paths, p: int, b: Byte, prev: int, next: int, c: int)
    requires WellLinked(ns, pt) && Place(ns, pt, p, b, prev, next) && IsKid(ns, pt, c, p)
    ensures if First(ns, c) < b then prev != NIL && First(ns, c) <= First(ns, prev)
            else next != NIL && First(ns, next) <= First(ns, c)
  {
    assert NodeOk(ns, pt, c);
    if prev != NIL && prev != c {
      assert PairOk(ns, pt, prev, c);
    }
  }

  /** findChildWithPrev: walk the sorted sibling chain of `p`. */
  method FindChild(ns: Nodes, ghost pt: Paths, p: int, b: Byte) returns (child: int, prev: int, next: int)
    requires WellLinked(ns, pt) && p in pt && 0 <= p < |ns|
    ensures Place(ns, pt, p, b, prev, if child != NIL then child else next)
    ensures child != NIL ==> IsKid(ns, pt, child, p) && First(ns, child) == b && next == ns[child].sibling
    ensures child == NIL ==> forall c :: IsKid(ns, pt, c, p) ==> First(ns, c) != b
  {
    prev := NIL;
    var curr := ns[p].child;
    assert NodeOk(ns, pt, p);
    while curr != NIL && First(ns, curr) < b
      invariant Place(ns, pt, p, (if curr != NIL && First(ns, curr) < b then First(ns, curr) else b), prev, curr)
      decreases if curr == NIL then 0 else 256 - First(ns, curr)
    {
      assert NodeOk(ns, pt, curr);
      prev := curr;
      curr := ns[curr].sibling;
    }
    if curr != NIL && First(ns, curr) == b {
      return curr, prev, ns[curr].sibling;
    }
    forall c | IsKid(ns, pt, c, p)
      ensures First(ns, c) != b
    {
      PlaceSplits(ns, pt, p, b, prev, curr, c);
    }
    return NIL, prev, curr;
  }

  // ---------------------------------------------------------------------------------------------
  // Lookup
  // ---------------------------------------------------------------------------------------------

  /** The way from `curr` to a node further along the key goes through the child with the next byte. */
  lemma StepTowards(ns: Nodes, pt: Paths, curr: int, search: Bytes, id: int) returns (x: int)
    requires WellLinked(ns, pt) && curr in pt && id in pt && pt[id] == pt[curr] + search && search != []
    ensures IsKid(ns, pt, x, curr) && First(ns, x) == search[0] && ns[x].prefix <= search
  {
    PrefixAnc(ns, pt, curr, id);
    x := ChildTowards(ns, pt, curr, id);
    var n := |pt[curr]|;
    assert search == pt[id][n..];
    assert ns[x].prefix == pt[x][n..] <= pt[id][n..];
  }

  /** If the key is present, the child looked up by its next byte exists and its edge matches. */
  lemma WalkGoesOn(ns: Nodes, pt: Paths, curr: int, search: Bytes, id: int, child: int)
    requires WellLinked(ns, pt) && curr in pt && id in pt && pt[id] == pt[curr] + search && search != []
    requires child != NIL ==> IsKid(ns, pt, child, curr) && First(ns, child) == search[0]
    requires child == NIL ==> forall c :: IsKid(ns, pt, c, curr) ==> First(ns, c) != search[0]
    ensures child != NIL && ns[child].prefix <= search
  {
    var x := StepTowards(ns, pt, curr, search, id);
    assert child != NIL;
    assert PairOk(ns, pt, child, x);
  }

  /** getNode and findNodeByTrieWalk. */
  method Walk(ns: Nodes, ghost pt: Paths, key: Bytes) returns (r: Option<int>)
    requires WellLinked(ns, pt)
    ensures match r
            case Some(id) => Holds(ns, pt, key, id)
            case None => forall id :: !Holds(ns, pt, key, id)
  {
    var curr, search := ROOT, key;
    while search != []
      invariant curr in pt && 0 <= curr < |ns| && pt[curr] + search == key
      decreases |search|
    {
      var child, prev, next := FindChild(ns, pt, curr, search[0]);
      if child == NIL || !(ns[child].prefix <= search) {
        forall id
          ensures !Holds(ns, pt, key, id)
        {
          if Holds(ns, pt, key, id) {
            WalkGoesOn(ns, pt, curr, search, id, child);
          }
        }
        return None;
      }
      assert NodeOk(ns, pt, child);
      assert search == ns[child].prefix + search[|ns[child].prefix|..];
      search := search[|ns[child].prefix|..];
      curr := child;
    }
    assert pt[curr] == key;
    if ns[curr].value.Some? {
      return Some(curr);
    }
    forall id
      ensures !Holds(ns, pt, key, id)
    {
      if id in pt && pt[id] == key {
        PathsDiffer(ns, pt, id, curr);
      }
    }
    return None;
  }

  // ---------------------------------------------------------------------------------------------
  // Insertion
  // ---------------------------------------------------------------------------------------------

  /** linkChildAt: make `n` the successor of `prev` (or the first child) of `p`. */
  function LinkAt(ns: Nodes, p: int, prev: int, n: int): Nodes
    requires 0 <= p < |ns| && (prev != NIL ==> 0 <= prev < |ns|)
  {
    if prev == NIL then ns[p := ns[p].(child := n)] else ns[prev := ns[prev].(sibling := n)]
  }

  /** A new leaf below `p`. */
  function WithLeaf(ns: Nodes, p: int, prev: int, next: int, n: int, prefix: Bytes, v: Value, kl: int): Nodes
    requires 0 <= p < |ns| && 0 <= n < |ns| && (prev != NIL ==> 0 <= prev < |ns|)
  {
    LinkAt(ns[n := Node(prefix, p, NIL, next, Some(v), kl)], p, prev, n)
  }

  /** The edge to `c` cut after `k` bytes by a new routing node `m`. */
  function WithSplit(ns: Nodes, p: int, prev: int, c: int, m: int, k: nat, kl: int): Nodes
    requires 0 <= p < |ns| && 0 <= c < |ns| && 0 <= m < |ns| && (prev != NIL ==> 0 <= prev < |ns|)
    requires k <= |ns[c].prefix|
  {
    var pre := ns[c].prefix;
    var ns1 := ns[m := Node(pre[..k], p, c, ns[c].sibling, None, kl)];
    LinkAt(ns1[c := ns[c].(prefix := pre[k..], parent := m, sibling := NIL)], p, prev, m)
  }

  /** The conditions under which a leaf with first byte `b` may be linked below `p`. */
  ghost predicate CanLink(ns: Nodes, pt: Paths, p: int, prev: int, next: int, n: int, prefix: Bytes) {
    && prefix != [] && 0 <= n < |ns| && n !in pt
    && Place(ns, pt, p, prefix[0], prev, next)
    && (forall c :: IsKid(ns, pt, c, p) ==> First(ns, c) != prefix[0])
  }

  lemma LinkedNode(ns: Nodes, pt: Paths, id: int)
    requires WellLinked(ns, pt) && id in pt
    ensures NodeOk(ns, pt, id) && 0 <= id < |ns| && ROOT in pt
  {
  }

  lemma LinkedRoot(ns: Nodes, pt: Paths)
    requires WellLinked(ns, pt)
    ensures ROOT in pt && pt[ROOT] == [] && 0 < |ns|
  {
  }

  lemma LinkedPair(ns: Nodes, pt: Paths, a: int, b: int)
    requires WellLinked(ns, pt)
    ensures PairOk(ns, pt, a, b)
  {
  }

  lemma LeafSibling(ns: Nodes, pt: Paths, p: int, prev: int, next: int, n: int, prefix: Bytes, v: Value, kl: int,
      id: int)
    requires WellLinked(ns, pt) && CanLink(ns, pt, p, prev, next, n, prefix) && IsKid(ns, pt, id, p)
    ensures NodeOk(WithLeaf(ns, p, prev, next, n, prefix, v, kl), pt[n := pt[p] + prefix], id)
  {
    hide WellLinked;
    LinkedNode(ns, pt, p);
    LinkedNode(ns, pt, id);
    PlaceSplits(ns, pt, p, prefix[0], prev, next, id);
  }

  lemma LeafNode(ns: Nodes, pt: Paths, p: int, prev: int, next: int, n: int, prefix: Bytes, v: Value, kl: int, id: int)
    requires WellLinked(ns, pt) && CanLink(ns, pt, p, prev, next, n, prefix) && id in pt
    ensures NodeOk(WithLeaf(ns, p, prev, next, n, prefix, v, kl), pt[n := pt[p] + prefix], id)
  {
    hide WellLinked;
    LinkedNode(ns, pt, p);
    LinkedNode(ns, pt, id);
    if IsKid(ns, pt, id, p) {
      LeafSibling(ns, pt, p, prev, next, n, prefix, v, kl, id);
    }
  }

  lemma LeafItself(ns: Nodes, pt: Paths, p: int, prev: int, next: int, n: int, prefix: Bytes, v: Value, kl: int)
    requires WellLinked(ns, pt) && CanLink(ns, pt, p, prev, next, n, prefix)
    ensures NodeOk(WithLeaf(ns, p, prev, next, n, prefix, v, kl), pt[n := pt[p] + prefix], n)
  {
    assert NodeOk(ns, pt, p);
    if prev != NIL {
      assert NodeOk(ns, pt, prev);
    }
    hide WellLinked;
  }

  lemma LeafPair(ns: Nodes, pt: Paths, p: int, prev: int, next: int, n: int, prefix: Bytes, v: Value, kl: int, a: int,
      c: int)
    requires WellLinked(ns, pt) && CanLink(ns, pt, p, prev, next, n, prefix)
    ensures PairOk(WithLeaf(ns, p, prev, next, n, prefix, v, kl), pt[n := pt[p] + prefix], a, c)
  {
    hide WellLinked;
    LinkedPair(ns, pt, a, c);
    if a in pt {
      LinkedNode(ns, pt, a);
    }
    if a != n && IsKid(ns, pt, a, p) {
      PlaceSplits(ns, pt, p, prefix[0], prev, next, a);
      if prev != NIL {
        LinkedPair(ns, pt, a, prev);
      }
    }
    if c != n && IsKid(ns, pt, c, p) {
      PlaceSplits(ns, pt, p, prefix[0], prev, next, c);
    }
  }

  lemma LeafLinked(ns: Nodes, pt: Paths, p: int, prev: int, next: int, n: int, prefix: Bytes, v: Value, kl: int)
    requires WellLinked(ns, pt) && CanLink(ns, pt, p, prev, next, n, prefix)
    ensures WellLinked(WithLeaf(ns, p, prev, next, n, prefix, v, kl), pt[n := pt[p] + prefix])
  {
    var ns', pt' := WithLeaf(ns, p, prev, next, n, prefix, v, kl), pt[n := pt[p] + prefix];
    forall id | id in pt' ensures NodeOk(ns', pt', id) {
      if id == n {
        LeafItself(ns, pt, p, prev, next, n, prefix, v, kl);
      } else {
        LeafNode(ns, pt, p, prev, next, n, prefix, v, kl, id);
      }
    }
    forall a, c ensures PairOk(ns', pt', a, c) {
      LeafPair(ns, pt, p, prev, next, n, prefix, v, kl, a, c);
    }
  }

  // ---------------------------------------------------------------------------------------------
  // Splitting an edge
  // ---------------------------------------------------------------------------------------------

  /** `prev` comes directly before `x` in the child list of `p`; NIL when `x` is the first child. */
  predicate Before(ns: Nodes, pt: Paths, p: int, prev: int, x: int) {
    && p in pt && 0 <= p < |ns| && IsKid(ns, pt, x, p)
    && if prev == NIL then ns[p].child == x else IsKid(ns, pt, prev, p) && ns[prev].sibling == x
  }

  lemma BeforeOrder(ns: Nodes, pt: Paths, p: int, prev: int, x: int)
    requires WellLinked(ns, pt) && Before(ns, pt, p, prev, x) && prev != NIL
    ensures prev != x && ns[p].child != x && First(ns, prev) < First(ns, x)
  {
    assert NodeOk(ns, pt, prev);
  }

  /** Other children of `p` come before or after `x`; those before come up to `prev`. */
  lemma BeforeSplits(ns: Nodes, pt: Paths, p: int, prev: int, x: int, c: int)
    requires WellLinked(ns, pt) && Before(ns, pt, p, prev, x) && IsKid(ns, pt, c, p) && c != x
    ensures First(ns, c) != First(ns, x)
    ensures First(ns, c) < First(ns, x) ==> prev != NIL && First(ns, c) <= First(ns, prev)
    ensures First(ns, x) < First(ns, c) ==> ns[x].sibling != NIL && First(ns, ns[x].sibling) <= First(ns, c)
    ensures c != prev ==> ns[c].sibling != x
  {
    assert NodeOk(ns, pt, c);
    assert PairOk(ns, pt, x, c);
    if prev != NIL {
      BeforeOrder(ns, pt, p, prev, x);
      if prev != c {
        assert PairOk(ns, pt, prev, c);
        assert PairOk(ns, pt, c, prev);
      }
    }
  }

  ghost predicate CanSplit(ns: Nodes, pt: Paths, p: int, prev: int, c: int, m: int, k: nat) {
    Before(ns, pt, p, prev, c) && 0 <= m < |ns| && m !in pt && 0 < k < |ns[c].prefix|
  }

  lemma SplitParent(ns: Nodes, pt: Paths, p: int, prev: int, c: int, m: int, k: nat, kl: int, id: int)
    requires WellLinked(ns, pt) && CanSplit(ns, pt, p, prev, c, m, k) && id in pt && id != c
    requires 0 <= id < |ns| && ns[id].parent != p
    ensures NodeOk(WithSplit(ns, p, prev, c, m, k, kl), pt[m := pt[p] + ns[c].prefix[..k]], id)
  {
    assert NodeOk(ns, pt, p);
    assert NodeOk(ns, pt, id);
    if prev != NIL {
      BeforeOrder(ns, pt, p, prev, c);
    }
    assert m != ROOT;
    hide WellLinked;
    var ns' := WithSplit(ns, p, prev, c, m, k, kl);
    assert id != p ==> ns'[id] == ns[id];
    assert ns'[p].child == if prev == NIL then m else ns[p].child;
  }

  lemma SplitSibling(ns: Nodes, pt: Paths, p: int, prev: int, c: int, m: int, k: nat, kl: int, id: int)
    requires WellLinked(ns, pt) && CanSplit(ns, pt, p, prev, c, m, k) && IsKid(ns, pt, id, p) && id != c
    ensures NodeOk(WithSplit(ns, p, prev, c, m, k, kl), pt[m := pt[p] + ns[c].prefix[..k]], id)
  {
    hide WellLinked, NodeOk, WithSplit;
    if prev == NIL {
      SplitFirst(ns, pt, p, c, m, k, kl, id);
    } else {
      SplitLater(ns, pt, p, prev, c, m, k, kl, id);
    }
  }

  lemma SplitFirst(ns: Nodes, pt: Paths, p: int, c: int, m: int, k: nat, kl: int, id: int)
    requires WellLinked(ns, pt) && CanSplit(ns, pt, p, NIL, c, m, k) && IsKid(ns, pt, id, p) && id != c
    ensures NodeOk(WithSplit(ns, p, NIL, c, m, k, kl), pt[m := pt[p] + ns[c].prefix[..k]], id)
  {
    hide WellLinked;
    LinkedNode(ns, pt, id);
    BeforeSplits(ns, pt, p, NIL, c, id);
  }

  lemma SplitLater(ns: Nodes, pt: Paths, p: int, prev: int, c: int, m: int, k: nat, kl: int, id: int)
    requires WellLinked(ns, pt) && CanSplit(ns, pt, p, prev, c, m, k) && IsKid(ns, pt, id, p) && id != c && prev != NIL
    ensures NodeOk(WithSplit(ns, p, prev, c, m, k, kl), pt[m := pt[p] + ns[c].prefix[..k]], id)
  {
    hide WellLinked;
    LinkedNode(ns, pt, id);
    BeforeSplits(ns, pt, p, prev, c, id);
    BeforeOrder(ns, pt, p, prev, c);
  }

  lemma SplitEnds(ns: Nodes, pt: Paths, p: int, prev: int, c: int, m: int, k: nat, kl: int)
    requires WellLinked(ns, pt) && CanSplit(ns, pt, p, prev, c, m, k)
    ensures NodeOk(WithSplit(ns, p, prev, c, m, k, kl), pt[m := pt[p] + ns[c].prefix[..k]], c)
    ensures NodeOk(WithSplit(ns, p, prev, c, m, k, kl), pt[m := pt[p] + ns[c].prefix[..k]], m)
  {
    assert NodeOk(ns, pt, p);
    assert NodeOk(ns, pt, c);
    if prev != NIL {
      assert NodeOk(ns, pt, prev);
    }
    hide WellLinked;
    var pre := ns[c].prefix;
    assert (pt[p] + pre[..k]) + pre[k..] == pt[p] + pre;
  }

  /** Pairs among the children of `p`, where the new node stands in for `c`. */
  lemma SplitPairHere(ns: Nodes, pt: Paths, p: int, prev: int, c: int, m: int, k: nat, kl: int, a: int, b: int)
    requires WellLinked(ns, pt) && CanSplit(ns, pt, p, prev, c, m, k) && a != c && b != c
    requires (a == m || IsKid(ns, pt, a, p)) && (b == m || IsKid(ns, pt, b, p))
    ensures PairOk(WithSplit(ns, p, prev, c, m, k, kl), pt[m := pt[p] + ns[c].prefix[..k]], a, b)
  {
    var ns' := WithSplit(ns, p, prev, c, m, k, kl);
    var a0, b0 := if a == m then c else a, if b == m then c else b;
    assert PairOk(ns, pt, a0, b0);
    assert NodeOk(ns, pt, a0);
    if a0 != c {
      BeforeSplits(ns, pt, p, prev, c, a0);
    }
    if prev != NIL {
      BeforeOrder(ns, pt, p, prev, c);
    }
    assert NodeOk(ns, pt, c);
    assert First(ns', m) == First(ns, c);
    hide WellLinked;
  }

  lemma SplitPair(ns: Nodes, pt: Paths, p: int, prev: int, c: int, m: int, k: nat, kl: int, a: int, b: int)
    requires WellLinked(ns, pt) && CanSplit(ns, pt, p, prev, c, m, k)
    ensures PairOk(WithSplit(ns, p, prev, c, m, k, kl), pt[m := pt[p] + ns[c].prefix[..k]], a, b)
  {
    if a != c && b != c && (a == m || IsKid(ns, pt, a, p)) && (b == m || IsKid(ns, pt, b, p)) {
      SplitPairHere(ns, pt, p, prev, c, m, k, kl, a, b);
    } else {
      assert PairOk(ns, pt, a, b);
      assert NodeOk(ns, pt, c);
      if a in pt {
        assert NodeOk(ns, pt, a);
      }
      if b in pt {
        assert NodeOk(ns, pt, b);
      }
      if prev != NIL {
        BeforeOrder(ns, pt, p, prev, c);
      }
    }
    hide WellLinked;
  }

  lemma SplitLinked(ns: Nodes, pt: Paths, p: int, prev: int, c: int, m: int, k: nat, kl: int)
    requires WellLinked(ns, pt) && CanSplit(ns, pt, p, prev, c, m, k)
    ensures WellLinked(WithSplit(ns, p, prev, c, m, k, kl), pt[m := pt[p] + ns[c].prefix[..k]])
  {
    var ns', pt' := WithSplit(ns, p, prev, c, m, k, kl), pt[m := pt[p] + ns[c].prefix[..k]];
    forall id | id in pt' ensures NodeOk(ns', pt', id) {
      if id == c || id == m {
        SplitEnds(ns, pt, p, prev, c, m, k, kl);
      } else {
        assert NodeOk(ns, pt, id);
        if ns[id].parent == p {
          SplitSibling(ns, pt, p, prev, c, m, k, kl, id);
        } else {
          SplitParent(ns, pt, p, prev, c, m, k, kl, id);
        }
      }
    }
    forall a, b ensures PairOk(ns', pt', a, b) {
      SplitPair(ns, pt, p, prev, c, m, k, kl, a, b);
    }
  }

  // ---------------------------------------------------------------------------------------------
  // Cutting off a subtree
  // ---------------------------------------------------------------------------------------------

  /** removeChild: take `x` out of the child list of `p`. */
  function Unlinked(ns: Nodes, p: int, prev: int, x: int): Nodes
    requires 0 <= p < |ns| && 0 <= x < |ns| && (prev != NIL ==> 0 <= prev < |ns|)
  {
    LinkAt(ns, p, prev, ns[x].sibling)
  }

  /** The nodes that remain when the subtree below `x` goes. */
  ghost function Without(pt: Paths, x: int): Paths
    requires x in pt
  {
    map id | id in pt && !(pt[x] <= pt[id]) :: pt[id]
  }

  /** Links inside the remaining part stay inside it: a node's parent, and its children other than `x`. */
  lemma UpStays(ns: Nodes, pt: Paths, x: int, id: int)
    requires WellLinked(ns, pt) && x in pt && id in Without(pt, x) && id != ROOT && 0 <= id < |ns|
    ensures ns[id].parent in Without(pt, x)
  {
    assert NodeOk(ns, pt, id);
  }

  lemma DownStays(ns: Nodes, pt: Paths, x: int, c: int, q: int)
    requires WellLinked(ns, pt) && x in pt && IsKid(ns, pt, c, q) && q in Without(pt, x) && c != x
    ensures c in Without(pt, x)
  {
    if pt[x] <= pt[c] {
      PrefixAnc(ns, pt, x, c);
      AncPath(ns, pt, x, q);
    }
  }

  /** Every link of a remaining node that does not point at `x` points at a remaining node. */
  lemma LinksStay(ns: Nodes, pt: Paths, x: int, id: int)
    requires WellLinked(ns, pt) && x in pt && id in Without(pt, x)
    ensures NodeOk(ns, pt, id)
    ensures ns[id].child == NIL || ns[id].child == x || IsKid(ns, Without(pt, x), ns[id].child, id)
    ensures id != ROOT ==>
              && ns[id].parent in Without(pt, x)
              && (ns[id].sibling == NIL || ns[id].sibling == x
                  || IsKid(ns, Without(pt, x), ns[id].sibling, ns[id].parent))
              && (ns[ns[id].parent].child == x || IsKid(ns, Without(pt, x), ns[ns[id].parent].child, ns[id].parent))
  {
    assert NodeOk(ns, pt, id);
    if ns[id].child != NIL && ns[id].child != x {
      DownStays(ns, pt, x, ns[id].child, id);
    }
    if id != ROOT {
      UpStays(ns, pt, x, id);
      var q := ns[id].parent;
      if ns[id].sibling != NIL && ns[id].sibling != x {
        DownStays(ns, pt, x, ns[id].sibling, q);
      }
      if ns[q].child != x {
        DownStays(ns, pt, x, ns[q].child, q);
      }
    }
  }

  /** The parent of a node does not lie below it. */
  lemma ParentStays(ns: Nodes, pt: Paths, x: int)
    requires WellLinked(ns, pt) && x in pt && x != ROOT
    ensures 0 <= x < |ns| && ns[x].parent in Without(pt, x)
  {
    LinkedNode(ns, pt, x);
  }

  lemma CutNode(ns: Nodes, pt: Paths, p: int, prev: int, x: int, id: int)
    requires WellLinked(ns, pt) && Before(ns, pt, p, prev, x) && id in Without(pt, x)
    ensures NodeOk(Unlinked(ns, p, prev, x), Without(pt, x), id)
  {
    hide WellLinked;
    LinkedNode(ns, pt, x);
    LinksStay(ns, pt, x, id);
    ParentStays(ns, pt, x);
    if ns[x].sibling != NIL {
      DownStays(ns, pt, x, ns[x].sibling, p);
    }
    if IsKid(ns, pt, id, p) {
      BeforeSplits(ns, pt, p, prev, x, id);
    }
    if prev != NIL {
      BeforeOrder(ns, pt, p, prev, x);
    }
  }

  lemma CutPair(ns: Nodes, pt: Paths, p: int, prev: int, x: int, a: int, b: int)
    requires WellLinked(ns, pt) && Before(ns, pt, p, prev, x)
    ensures PairOk(Unlinked(ns, p, prev, x), Without(pt, x), a, b)
  {
    assert PairOk(ns, pt, a, b);
    if a != x && IsKid(ns, pt, a, p) {
      BeforeSplits(ns, pt, p, prev, x, a);
      assert PairOk(ns, pt, a, x);
    }
    if b != x && IsKid(ns, pt, b, p) {
      BeforeSplits(ns, pt, p, prev, x, b);
    }
    hide WellLinked;
  }

  lemma CutLinked(ns: Nodes, pt: Paths, p: int, prev: int, x: int)
    requires WellLinked(ns, pt) && Before(ns, pt, p, prev, x)
    ensures WellLinked(Unlinked(ns, p, prev, x), Without(pt, x))
  {
    var ns', pt' := Unlinked(ns, p, prev, x), Without(pt, x);
    forall id | id in pt' ensures NodeOk(ns', pt', id) {
      CutNode(ns, pt, p, prev, x, id);
    }
    forall a, b ensures PairOk(ns', pt', a, b) {
      CutPair(ns, pt, p, prev, x, a, b);
    }
    assert NodeOk(ns, pt, x);
  }

  // ---------------------------------------------------------------------------------------------
  // Merging a routing node with its only child
  // ---------------------------------------------------------------------------------------------

  /** The only child `c` of `m` takes the place of `m` below `q`, keeping its own id. */
  function Merged(ns: Nodes, q: int, prev: int, m: int, c: int): Nodes
    requires 0 <= q < |ns| && 0 <= m < |ns| && 0 <= c < |ns| && (prev != NIL ==> 0 <= prev < |ns|)
  {
    var lower := ns[c].(prefix := ns[m].prefix + ns[c].prefix, parent := q, sibling := ns[m].sibling);
    LinkAt(ns[c := lower], q, prev, c)
  }

  ghost predicate CanMerge(ns: Nodes, pt: Paths, q: int, prev: int, m: int, c: int) {
    Before(ns, pt, q, prev, m) && IsKid(ns, pt, c, m) && ns[m].child == c && ns[c].sibling == NIL
  }

  lemma OnlyKid(ns: Nodes, pt: Paths, q: int, prev: int, m: int, c: int, id: int)
    requires WellLinked(ns, pt) && CanMerge(ns, pt, q, prev, m, c) && id in pt
    ensures NodeOk(ns, pt, id) && (id != ROOT && id != c ==> ns[id].parent != m)
    ensures c != q && c != m && c != prev && m != q && NodeOk(ns, pt, m) && NodeOk(ns, pt, c)
    ensures prev != NIL ==> prev != m && ns[q].child != m && First(ns, prev) < First(ns, m)
  {
    assert NodeOk(ns, pt, id);
    assert NodeOk(ns, pt, m);
    assert NodeOk(ns, pt, c);
    assert PairOk(ns, pt, c, id);
    if prev != NIL {
      BeforeOrder(ns, pt, q, prev, m);
    }
  }

  lemma MergeParent(ns: Nodes, pt: Paths, q: int, prev: int, m: int, c: int, id: int)
    requires WellLinked(ns, pt) && CanMerge(ns, pt, q, prev, m, c) && id in pt && id != c && id != m
    requires 0 <= id < |ns| && ns[id].parent != q
    ensures NodeOk(Merged(ns, q, prev, m, c), pt - {m}, id)
  {
    hide WellLinked;
    OnlyKid(ns, pt, q, prev, m, c, id);
    if id == q {
      MergeAbove(ns, pt, q, prev, m, c);
    }
  }

  lemma MergeAbove(ns: Nodes, pt: Paths, q: int, prev: int, m: int, c: int)
    requires WellLinked(ns, pt) && CanMerge(ns, pt, q, prev, m, c) && ns[q].parent != q
    ensures NodeOk(Merged(ns, q, prev, m, c), pt - {m}, q)
  {
    hide WellLinked;
    OnlyKid(ns, pt, q, prev, m, c, q);
  }

  lemma MergeSibling(ns: Nodes, pt: Paths, q: int, prev: int, m: int, c: int, id: int)
    requires WellLinked(ns, pt) && CanMerge(ns, pt, q, prev, m, c) && IsKid(ns, pt, id, q) && id != c && id != m
    ensures NodeOk(Merged(ns, q, prev, m, c), pt - {m}, id)
  {
    hide WellLinked;
    OnlyKid(ns, pt, q, prev, m, c, id);
    BeforeSplits(ns, pt, q, prev, m, id);
  }

  lemma MergeChild(ns: Nodes, pt: Paths, q: int, prev: int, m: int, c: int)
    requires WellLinked(ns, pt) && CanMerge(ns, pt, q, prev, m, c)
    ensures NodeOk(Merged(ns, q, prev, m, c), pt - {m}, c)
  {
    OnlyKid(ns, pt, q, prev, m, c, m);
    hide WellLinked;
    assert pt[c] == (pt[q] + ns[m].prefix) + ns[c].prefix == pt[q] + (ns[m].prefix + ns[c].prefix);
  }

  /** Pairs among the children of `q`, where `c` stands in for `m`. */
  lemma MergePairHere(ns: Nodes, pt: Paths, q: int, prev: int, m: int, c: int, a: int, b: int)
    requires WellLinked(ns, pt) && CanMerge(ns, pt, q, prev, m, c) && a != m && b != m && a != b
    requires (a == c || IsKid(ns, pt, a, q)) && (b == c || IsKid(ns, pt, b, q))
    ensures PairOk(Merged(ns, q, prev, m, c), pt - {m}, a, b)
  {
    hide WellLinked;
    var a0, b0 := if a == c then m else a, if b == c then m else b;
    OnlyKid(ns, pt, q, prev, m, c, m);
    LinkedPair(ns, pt, a0, b0);
    LinkedNode(ns, pt, a0);
    if a0 != m {
      BeforeSplits(ns, pt, q, prev, m, a0);
    }
  }

  /** Pairs elsewhere are as before. */
  lemma MergePairAway(ns: Nodes, pt: Paths, q: int, prev: int, m: int, c: int, a: int, b: int)
    requires WellLinked(ns, pt) && CanMerge(ns, pt, q, prev, m, c) && a in pt && b in pt && a != m && b != m && a != c
    requires !IsKid(ns, pt, a, q)
    ensures PairOk(Merged(ns, q, prev, m, c), pt - {m}, a, b)
  {
    hide WellLinked;
    LinkedPair(ns, pt, a, b);
    OnlyKid(ns, pt, q, prev, m, c, a);
    OnlyKid(ns, pt, q, prev, m, c, b);
  }

  lemma MergePair(ns: Nodes, pt: Paths, q: int, prev: int, m: int, c: int, a: int, b: int)
    requires WellLinked(ns, pt) && CanMerge(ns, pt, q, prev, m, c)
    ensures PairOk(Merged(ns, q, prev, m, c), pt - {m}, a, b)
  {
    if a in pt && b in pt && a != m && b != m && a != b {
      if a != c && !IsKid(ns, pt, a, q) {
        MergePairAway(ns, pt, q, prev, m, c, a, b);
      } else if b == c || IsKid(ns, pt, b, q) {
        MergePairHere(ns, pt, q, prev, m, c, a, b);
      }
    }
  }

  lemma MergeLinked(ns: Nodes, pt: Paths, q: int, prev: int, m: int, c: int)
    requires WellLinked(ns, pt) && CanMerge(ns, pt, q, prev, m, c)
    ensures WellLinked(Merged(ns, q, prev, m, c), pt - {m})
  {
    var ns', pt' := Merged(ns, q, prev, m, c), pt - {m};
    forall id | id in pt' ensures NodeOk(ns', pt', id) {
      assert NodeOk(ns, pt, id);
      if id == c {
        MergeChild(ns, pt, q, prev, m, c);
      } else if ns[id].parent == q {
        MergeSibling(ns, pt, q, prev, m, c, id);
      } else {
        MergeParent(ns, pt, q, prev, m, c, id);
      }
    }
    forall a, b ensures PairOk(ns', pt', a, b) {
      MergePair(ns, pt, q, prev, m, c, a, b);
    }
    OnlyKid(ns, pt, q, prev, m, c, m);
  }
}

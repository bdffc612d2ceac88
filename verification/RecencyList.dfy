/**
 The intrusive recency list of the engines (arena_radix.go, radix_lru.go, map_lru.go): nodes linked by
 previous and next ids from the most to the least recently used.
 */
module RecencyList {
  const NIL: int := -1

  type Links = map<int, int>

  /** The id at position `i`, or NIL beyond the ends. */
  function At(order: seq<int>, i: int): int {
    if 0 <= i < |order| then order[i] else NIL
  }

  predicate LinkOk(order: seq<int>, prev: Links, next: Links, i: int)
    requires 0 <= i < |order|
  {
    var id := order[i];
    id != NIL && id in prev && id in next && prev[id] == At(order, i - 1) && next[id] == At(order, i + 1)
  }

  predicate NoRepeats(order: seq<int>) {
    forall i, j :: 0 <= i < j < |order| ==> order[i] != order[j]
  }

  ghost predicate Linked(head: int, tail: int, prev: Links, next: Links, order: seq<int>) {
    && NoRepeats(order) && head == At(order, 0) && tail == At(order, |order| - 1)
    && (forall i {:trigger LinkOk(order, prev, next, i)} :: 0 <= i < |order| ==> LinkOk(order, prev, next, i))
  }

  /** Nodes that are not in the list have no predecessor. */
  ghost predicate Loose(prev: Links, order: seq<int>) {
    forall id :: id in prev && id !in order ==> prev[id] == NIL
  }

  function Without(order: seq<int>, i: nat): seq<int>
    requires i < |order|
  {
    order[..i] + order[i + 1..]
  }

  /** Position of an id in the list. */
  ghost function IndexOf(order: seq<int>, id: int): (i: nat)
    requires id in order
    ensures i < |order| && order[i] == id
  {
    var i :| 0 <= i < |order| && order[i] == id;
    i
  }

  /** The links when the node at `i` is taken out: its neighbours meet. */
  function PrevWithout(prev: Links, next: Links, id: int): Links
    requires id in prev && id in next
  {
    if next[id] != NIL then prev[next[id] := prev[id]] else prev
  }

  function NextWithout(prev: Links, next: Links, id: int): Links
    requires id in prev && id in next
  {
    if prev[id] != NIL then next[prev[id] := next[id]] else next
  }

  lemma RemovedAt(order: seq<int>, prev: Links, next: Links, i: nat, k: nat)
    requires NoRepeats(order) && i < |order| && k < |order| - 1
    requires forall j {:trigger LinkOk(order, prev, next, j)} :: 0 <= j < |order| ==> LinkOk(order, prev, next, j)
    ensures LinkOk(order, prev, next, i)
    ensures LinkOk(Without(order, i), PrevWithout(prev, next, order[i]), NextWithout(prev, next, order[i]), k)
  {
    assert LinkOk(order, prev, next, i);
    var j := if k < i then k else k + 1;
    assert LinkOk(order, prev, next, j);
    var r := Without(order, i);
    assert r[k] == order[j];
    assert k > 0 ==> r[k - 1] == order[if k - 1 < i then k - 1 else k];
    assert k + 1 < |r| ==> r[k + 1] == order[if k + 1 < i then k + 1 else k + 2];
    if 0 < i {
      assert LinkOk(order, prev, next, i - 1);
    }
    if i + 1 < |order| {
      assert LinkOk(order, prev, next, i + 1);
    }
  }

  lemma WithoutDistinct(order: seq<int>, i: nat)
    requires NoRepeats(order) && i < |order|
    ensures NoRepeats(Without(order, i)) && order[i] !in Without(order, i)
    ensures forall x :: x in Without(order, i) <==> x in order && x != order[i]
  {
    var r := Without(order, i);
    assert forall k :: 0 <= k < |r| ==> r[k] == order[if k < i then k else k + 1];
    forall x | x in order && x != order[i]
      ensures x in r
    {
      var j :| 0 <= j < |order| && order[j] == x;
      assert r[if j < i then j else j - 1] == x;
    }
  }

  class List {
    var prev: Links
    var next: Links
    var head: int
    var tail: int
    var len: nat
    ghost var order: seq<int>

    ghost predicate Valid()
      reads this
    {
      Linked(head, tail, prev, next, order) && len == |order| && Loose(prev, order)
    }

    constructor ()
      ensures Valid() && order == []
    {
      prev, next, head, tail, len, order := map[], map[], NIL, NIL, 0, [];
    }

    /** pushFront. */
    method PushFront(id: int)
      requires Valid() && id != NIL && id !in order
      modifies this
      ensures Valid() && order == [id] + old(order)
    {
      ghost var order0, prev0, next0 := order, prev, next;
      if order != [] {
        assert LinkOk(order, prev, next, 0);
        assert LinkOk(order, prev, next, |order| - 1);
      }
      prev := prev[id := NIL];
      next := next[id := head];
      if head != NIL {
        prev := prev[head := id];
      }
      head := id;
      if tail == NIL {
        tail := id;
      }
      len := len + 1;
      order := [id] + order;
      forall i | 0 <= i < |order| ensures LinkOk(order, prev, next, i) {
        if i > 0 {
          assert LinkOk(order0, prev0, next0, i - 1);
        }
      }
    }

    /** remove: unlink a node; a node that is not linked is left alone. */
    method Remove(id: int)
      requires Valid() && id != NIL
      modifies this
      ensures Valid() && order == old(if id in order then Without(order, IndexOf(order, id)) else order)
    {
      HeadPrev(head, tail, prev, next, order, id);
      if head != id && (if id in prev then prev[id] else NIL) == NIL {
        return;
      }
      assert id in order;
      TakeOut(id, IndexOf(order, id));
    }

    /** The neighbours of the node meet, and its own links are cleared. */
    method TakeOut(id: int, ghost i: nat)
      requires Valid() && i < |order| && order[i] == id
      modifies this
      ensures Valid() && order == old(Without(order, i))
    {
      ghost var order0, prev0, next0 := order, prev, next;
      assert LinkOk(order, prev, next, i);
      WithoutDistinct(order, i);
      if 0 < i {
        assert LinkOk(order, prev, next, i - 1);
      }
      if i + 1 < |order| {
        assert LinkOk(order, prev, next, i + 1);
      }
      var p, n := prev[id], next[id];
      if p != NIL {
        next := next[p := n];
      } else {
        head := n;
      }
      if n != NIL {
        prev := prev[n := p];
      } else {
        tail := p;
      }
      len := len - 1;
      order := Without(order, i);
      forall k | 0 <= k < |order| ensures LinkOk(order, prev, next, k) {
        RemovedAt(order0, prev0, next0, i, k);
      }
      ghost var prev1, next1 := prev, next;
      prev := prev[id := NIL];
      next := next[id := NIL];
      forall k | 0 <= k < |order| ensures LinkOk(order, prev, next, k) {
        assert LinkOk(order, prev1, next1, k);
        assert order[k] != id;
      }
    }

    /** moveToFront. */
    method MoveToFront(id: int)
      requires Valid() && id in order
      modifies this
      ensures Valid() && order == [id] + old(Without(order, IndexOf(order, id)))
    {
      ghost var i := IndexOf(order, id);
      if head == id {
        FrontAlready(order, i);
        return;
      }
      assert LinkOk(order, prev, next, i);
      WithoutDistinct(order, i);
      Unlink(id, i);
      assert order != [] ==> LinkOk(order, prev, next, 0);
      ghost var order1, prev1, next1 := order, prev, next;
      prev := prev[id := NIL];
      next := next[id := head];
      if head != NIL {
        prev := prev[head := id];
      }
      head := id;
      order := [id] + order;
      forall k | 0 <= k < |order| ensures LinkOk(order, prev, next, k) {
        if k > 0 {
          assert LinkOk(order1, prev1, next1, k - 1);
        }
      }
    }

    /** The first half of moveToFront: the neighbours of a node that is not the head meet. */
    method Unlink(id: int, ghost i: nat)
      requires Valid() && i < |order| && order[i] == id && head != id
      modifies this
      ensures Linked(head, tail, prev, next, order) && order == old(Without(order, i)) && len == old(len) && order != []
      ensures forall x :: x in prev && x !in order && x != id ==> prev[x] == NIL
    {
      ghost var order0, prev0, next0 := order, prev, next;
      assert LinkOk(order, prev, next, i);
      assert LinkOk(order, prev, next, i - 1);
      if i + 1 < |order| {
        assert LinkOk(order, prev, next, i + 1);
      }
      WithoutDistinct(order, i);
      var p, n := prev[id], next[id];
      if p != NIL {
        next := next[p := n];
      }
      if n != NIL {
        prev := prev[n := p];
      } else {
        tail := p;
      }
      order := Without(order, i);
      forall k | 0 <= k < |order| ensures LinkOk(order, prev, next, k) {
        RemovedAt(order0, prev0, next0, i, k);
      }
    }

    /** The links under new numbers: `live` lists the old ids by their new numbers, `ren` is its inverse. */
    method Renumber(live: seq<int>, ren: map<int, int>)
      requires Valid() && Inverse(live, ren)
      requires forall id :: id in order ==> id in ren && 0 <= ren[id] < |live| && live[ren[id]] == id
      modifies this
      ensures Valid() && order == old(Renamed(order, ren))
    {
      hide Linked, Loose, Inverse;
      ListRenamed(head, tail, prev, next, order, live, ren);
      prev := RenamedLinks(prev, live, ren);
      next := RenamedLinks(next, live, ren);
      head, tail := Link(ren, head), Link(ren, tail);
      order := Renamed(order, ren);
    }

    method Clear()
      modifies this
      ensures Valid() && order == []
    {
      prev, next, head, tail, len, order := map[], map[], NIL, NIL, 0, [];
    }
  }

  /** The head is the one listed node without a predecessor, so the test of remove tells linked nodes from others. */
  lemma HeadPrev(head: int, tail: int, prev: Links, next: Links, order: seq<int>, id: int)
    requires Linked(head, tail, prev, next, order) && Loose(prev, order) && id != NIL
    ensures id in order <==> head == id || (id in prev && prev[id] != NIL)
  {
    if id in order {
      var i := IndexOf(order, id);
      assert LinkOk(order, prev, next, i);
      if i > 0 {
        assert LinkOk(order, prev, next, i - 1);
      }
    }
  }

  lemma FrontAlready(order: seq<int>, i: nat)
    requires NoRepeats(order) && i < |order| && order[i] == order[0]
    ensures order == [order[0]] + Without(order, i)
  {
    assert i == 0;
  }

  function Link(ren: map<int, int>, x: int): int {
    if x in ren then ren[x] else NIL
  }

  function RenamedLinks(links: Links, live: seq<int>, ren: map<int, int>): Links {
    map k | 0 <= k < |live| && live[k] in links :: Link(ren, links[live[k]])
  }

  lemma EndsRenamed(order: seq<int>, ren: map<int, int>)
    requires NIL !in ren
    ensures Link(ren, At(order, 0)) == At(Renamed(order, ren), 0)
    ensures Link(ren, At(order, |order| - 1)) == At(Renamed(order, ren), |order| - 1)
  {
  }

  lemma LinkRenamed(order: seq<int>, prev: Links, next: Links, live: seq<int>, ren: map<int, int>, i: nat)
    requires i < |order| && LinkOk(order, prev, next, i) && NIL !in ren
    requires forall id :: id in order ==> id in ren && 0 <= ren[id] < |live| && live[ren[id]] == id
    ensures LinkOk(Renamed(order, ren), RenamedLinks(prev, live, ren), RenamedLinks(next, live, ren), i)
  {
    assert order[i] in order;
    assert 0 < i ==> order[i - 1] in order;
    assert i + 1 < |order| ==> order[i + 1] in order;
  }

  /** `ren` gives every listed id its position. */
  ghost predicate Inverse(live: seq<int>, ren: map<int, int>) {
    NIL !in ren && forall k :: 0 <= k < |live| ==> live[k] in ren && ren[live[k]] == k
  }

  lemma ListRenamed(head: int, tail: int, prev: Links, next: Links, order: seq<int>, live: seq<int>, ren: map<int, int>)
    requires Linked(head, tail, prev, next, order) && Loose(prev, order) && Inverse(live, ren)
    requires forall id :: id in order ==> id in ren && 0 <= ren[id] < |live| && live[ren[id]] == id
    ensures Linked(Link(ren, head), Link(ren, tail), RenamedLinks(prev, live, ren), RenamedLinks(next, live, ren),
                   Renamed(order, ren))
    ensures Loose(RenamedLinks(prev, live, ren), Renamed(order, ren))
  {
    var order', prev', next' := Renamed(order, ren), RenamedLinks(prev, live, ren), RenamedLinks(next, live, ren);
    EndsRenamed(order, ren);
    RenamedDistinct(order, live, ren);
    LooseRenamed(prev, order, live, ren);
    forall i | 0 <= i < |order'|
      ensures LinkOk(order', prev', next', i)
    {
      assert LinkOk(order, prev, next, i);
      LinkRenamed(order, prev, next, live, ren, i);
    }
    hide LinkOk, RenamedLinks, Renamed, Loose;
  }

  lemma LooseRenamed(prev: Links, order: seq<int>, live: seq<int>, ren: map<int, int>)
    requires Loose(prev, order) && Inverse(live, ren)
    ensures Loose(RenamedLinks(prev, live, ren), Renamed(order, ren))
  {
    var order' := Renamed(order, ren);
    forall k | k in RenamedLinks(prev, live, ren)
      ensures k in order' || RenamedLinks(prev, live, ren)[k] == NIL
    {
      assert live[k] in ren && ren[live[k]] == k;
      if live[k] in order {
        assert order'[IndexOf(order, live[k])] == k;
      } else {
        assert prev[live[k]] == NIL;
        assert RenamedLinks(prev, live, ren)[k] == Link(ren, NIL);
      }
    }
  }

  lemma RenamedDistinct(order: seq<int>, live: seq<int>, ren: map<int, int>)
    requires NoRepeats(order)
    requires forall id :: id in order ==> id in ren && 0 <= ren[id] < |live| && live[ren[id]] == id
    ensures NoRepeats(Renamed(order, ren))
  {
    forall i, j | 0 <= i < j < |order|
      ensures Link(ren, order[i]) != Link(ren, order[j])
    {
      assert order[i] in order && order[j] in order;
    }
  }

  function Renamed(order: seq<int>, ren: map<int, int>): (r: seq<int>)
    ensures |r| == |order| && forall i :: 0 <= i < |r| ==> r[i] == Link(ren, order[i])
  {
    seq(|order|, i requires 0 <= i < |order| => Link(ren, order[i]))
  }
}

/**
 The two trie engines as a whole: the trie, the recency list over the same node ids and, in the arena
 engine (arena_radix_lru.go), the hash index; the pointer engine (radix_lru.go) has no index and looks
 keys up by walking the trie.  Each operation does to the recency order and to the counters what the
 specification shared with the map engine says.
 */
module TrieCache {
  import opened Bytes
  import opened LruPolicy
  import Trie = RadixTrie
  import TC = TrieContents
  import AT = ArenaTrie
  import RL = RecencyList
  import RN = Renumbering
  import TO = TrieOrder
  import TS = TrieSweep
  import NI = NodeIndex
  import MC = MapCache
  import TK = TrieKeys

  type Nodes = Trie.Nodes
  type Paths = Trie.Paths
  type Weights = map<int, nat>

  /** The entry a node stands for. */
  function EntryOf(ns: Nodes, pt: Paths, ws: Weights, id: int): Entry {
    if id in pt && 0 <= id < |ns| && ns[id].value.Some? && id in ws then Entry(pt[id], ns[id].value.value, ws[id])
    else Entry([], 0, 0)
  }

  /** The recency order as entries. */
  function Shown(ns: Nodes, pt: Paths, ws: Weights, ids: seq<int>): (r: Order)
    ensures |r| == |ids| && forall i :: 0 <= i < |ids| ==> r[i] == EntryOf(ns, pt, ws, ids[i])
  {
    seq(|ids|, i requires 0 <= i < |ids| => EntryOf(ns, pt, ws, ids[i]))
  }

  /** The list holds exactly the nodes with a value, each with a weight. */
  ghost predicate Covers(ns: Nodes, pt: Paths, ws: Weights, ids: seq<int>) {
    && RL.NoRepeats(ids)
    && (forall id :: id in ids ==> id in pt && 0 <= id < |ns| && ns[id].value.Some? && id in ws)
    && (forall id :: id in pt && 0 <= id < |ns| && ns[id].value.Some? ==> id in ids)
  }

  /** The index knows the listed nodes under the keys they spell. */
  ghost predicate Indexed(keys: map<nat, Bytes>, pt: Paths, ids: seq<int>) {
    && (forall id :: id in keys ==> id in ids)
    && (forall id :: id in ids ==> id in pt && 0 <= id && id in keys && keys[id] == pt[id])
  }

  lemma ShownDistinct(ns: Nodes, pt: Paths, ws: Weights, ids: seq<int>)
    requires Trie.WellLinked(ns, pt) && Covers(ns, pt, ws, ids)
    ensures Distinct(Shown(ns, pt, ws, ids))
  {
    forall k | 0 <= k < |ids|
      ensures ids[k] in pt
    {
      assert ids[k] in ids;
    }
    forall i, j | 0 <= i < j < |ids|
      ensures pt[ids[i]] != pt[ids[j]]
    {
      if pt[ids[i]] == pt[ids[j]] {
        Trie.PathsDiffer(ns, pt, ids[i], ids[j]);
      }
    }
  }

  /** A node of the list is found at the position of its key. */
  lemma FindNode(ns: Nodes, pt: Paths, ws: Weights, ids: seq<int>, i: nat)
    requires Trie.WellLinked(ns, pt) && Covers(ns, pt, ws, ids) && i < |ids|
    ensures Find(Shown(ns, pt, ws, ids), pt[ids[i]]) == i
  {
    ShownDistinct(ns, pt, ws, ids);
  }

  lemma FindNone(ns: Nodes, pt: Paths, ws: Weights, ids: seq<int>, key: Bytes)
    requires Covers(ns, pt, ws, ids) && forall id :: id in ids ==> pt[id] != key
    ensures Find(Shown(ns, pt, ws, ids), key) == |ids|
  {
    var es := Shown(ns, pt, ws, ids);
    forall i | 0 <= i < |es|
      ensures es[i].key != key
    {
      assert ids[i] in ids;
    }
  }

  // ---------------------------------------------------------------------------------------------
  // What the steps do to the shown order
  // ---------------------------------------------------------------------------------------------

  lemma ShownErased(ns: Nodes, pt: Paths, ws: Weights, ids: seq<int>, i: nat, ns': Nodes, pt': Paths)
    requires Covers(ns, pt, ws, ids) && i < |ids| && ids[i] in pt && Trie.WellLinked(ns, pt)
    requires TC.Shrinks(ns, pt, ns', pt', {pt[ids[i]]})
    ensures Shown(ns', pt', ws - {ids[i]}, RL.Without(ids, i)) == Drop(Shown(ns, pt, ws, ids), i)
    ensures Covers(ns', pt', ws - {ids[i]}, RL.Without(ids, i))
    ensures forall id :: id in RL.Without(ids, i) ==> id in pt' && pt'[id] == pt[id]
  {
    var less, id0 := RL.Without(ids, i), ids[i];
    RL.WithoutDistinct(ids, i);
    forall id | id in less
      ensures id in pt' && pt'[id] == pt[id] && 0 <= id < |ns'| && ns'[id].value == ns[id].value
    {
      if pt[id] == pt[id0] {
        Trie.PathsDiffer(ns, pt, id, id0);
      }
    }
    var a, b := Shown(ns', pt', ws - {id0}, less), Drop(Shown(ns, pt, ws, ids), i);
    forall k | 0 <= k < |less|
      ensures a[k] == b[k]
    {
      assert less[k] in less && less[k] == ids[if k < i then k else k + 1];
    }
  }

  lemma ShownInserted(ns: Nodes, pt: Paths, ws: Weights, ids: seq<int>, id: int, w: nat, ns': Nodes, pt': Paths)
    requires Covers(ns, pt, ws, ids) && TC.Extends(ns, pt, ns', pt', id) && id !in ids
    requires id in pt' && 0 <= id < |ns'| && ns'[id].value.Some?
    requires id in pt && 0 <= id < |ns| ==> ns[id].value == None
    requires forall x :: x in pt ==> 0 <= x < |ns|
    ensures Shown(ns', pt', ws[id := w], [id] + ids)
            == [Entry(pt'[id], ns'[id].value.value, w)] + Shown(ns, pt, ws, ids)
    ensures Covers(ns', pt', ws[id := w], [id] + ids)
  {
    var a := Shown(ns', pt', ws[id := w], [id] + ids);
    var b := [Entry(pt'[id], ns'[id].value.value, w)] + Shown(ns, pt, ws, ids);
    forall k | 0 <= k < |a|
      ensures a[k] == b[k]
    {
      if k > 0 {
        assert ids[k - 1] in ids;
      }
    }
  }

  lemma ShownSet(ns: Nodes, pt: Paths, ws: Weights, ids: seq<int>, i: nat, w: nat, ns': Nodes)
    requires Covers(ns, pt, ws, ids) && i < |ids| && TC.Extends(ns, pt, ns', pt, ids[i]) && |ns'| == |ns|
    requires forall x :: x in pt ==> 0 <= x < |ns|
    requires ids[i] in pt && 0 <= ids[i] < |ns'| && ns'[ids[i]].value.Some?
    ensures Shown(ns', pt, ws[ids[i] := w], ids)
            == Shown(ns, pt, ws, ids)[i := Entry(pt[ids[i]], ns'[ids[i]].value.value, w)]
    ensures Covers(ns', pt, ws[ids[i] := w], ids)
  {
    var a := Shown(ns', pt, ws[ids[i] := w], ids);
    var b := Shown(ns, pt, ws, ids)[i := Entry(pt[ids[i]], ns'[ids[i]].value.value, w)];
    forall k | 0 <= k < |a|
      ensures a[k] == b[k]
    {
      assert ids[k] in ids;
    }
  }

  lemma ShownMoved(ns: Nodes, pt: Paths, ws: Weights, ids: seq<int>, i: nat)
    requires i < |ids|
    ensures var es := Shown(ns, pt, ws, ids);
            Shown(ns, pt, ws, [ids[i]] + RL.Without(ids, i)) == [es[i]] + Drop(es, i)
  {
    hide EntryOf;
    var moved, es := [ids[i]] + RL.Without(ids, i), Shown(ns, pt, ws, ids);
    var a, b := Shown(ns, pt, ws, moved), [es[i]] + Drop(es, i);
    forall k | 0 <= k < |a|
      ensures a[k] == b[k]
    {
      if k > 0 {
        assert moved[k] == ids[if k - 1 < i then k - 1 else k];
      }
    }
  }

  lemma CoversMoved(ns: Nodes, pt: Paths, ws: Weights, ids: seq<int>, i: nat)
    requires Covers(ns, pt, ws, ids) && i < |ids|
    ensures Covers(ns, pt, ws, [ids[i]] + RL.Without(ids, i))
    ensures forall id :: id in [ids[i]] + RL.Without(ids, i) <==> id in ids
  {
    RL.WithoutDistinct(ids, i);
  }

  /** A list without repetitions has as many elements as ids. */
  lemma {:induction false} SetSize(ids: seq<int>)
    requires RL.NoRepeats(ids)
    ensures |set id | id in ids| == |ids|
  {
    if ids != [] {
      var rest := ids[..|ids| - 1];
      SetSize(rest);
      assert (set id | id in ids) == (set id | id in rest) + {ids[|ids| - 1]};
    } else {
      assert (set id | id in ids) == {};
    }
  }

  lemma IndexSize(keys: map<nat, Bytes>, pt: Paths, ids: seq<int>)
    requires RL.NoRepeats(ids) && Indexed(keys, pt, ids)
    ensures |keys| == |ids|
  {
    SetSize(ids);
    var all: set<int> := set id | id in ids;
    var ks: set<int> := set id: nat | id in keys.Keys :: id as int;
    assert all == ks;
    SameSize(keys.Keys, ks);
  }

  lemma {:induction false} SameSize(a: set<nat>, b: set<int>)
    requires forall x: int :: x in b <==> 0 <= x && x in a
    ensures |a| == |b|
    decreases a
  {
    if a == {} {
      assert forall x :: x in b ==> x in {};
      assert b <= {};
    } else {
      var x :| x in a;
      SameSize(a - {x}, b - {x});
    }
  }


  /** A walk finds a listed node, or no listed node has the key. */
  lemma WalkAgrees(ns: Nodes, pt: Paths, ws: Weights, ids: seq<int>, keys: map<nat, Bytes>, key: Bytes)
    requires Trie.WellLinked(ns, pt) && Covers(ns, pt, ws, ids) && Indexed(keys, pt, ids)
    requires key !in Trie.Contents(ns, pt)
    ensures forall id :: id in ids ==> pt[id] != key
    ensures forall id :: id in keys ==> keys[id] != key
  {
    Trie.ContentsAt(ns, pt, key);
    forall id | id in ids
      ensures pt[id] != key
    {
      assert pt[id] == key ==> Trie.Holds(ns, pt, key, id);
    }
  }

  class Cache {
    const maxSize: U64
    const indexed: bool                  // the arena engine
    const named: bool                    // an entry callback is registered
    const trie: AT.Trie
    const list: RL.List
    const index: NI.Index
    var weights: Weights
    var size: U64
    var zeros: nat
    var n: MC.Counters
    ghost var accepted: nat
    ghost var known: map<nat, Bytes>     // the keys of the listed nodes, which the index holds if there is one

    ghost function Order(): LruPolicy.Order
      reads this, trie, list
    {
      Shown(trie.nodes, trie.path, weights, list.order)
    }

    ghost function Repr(): set<object>
    {
      {this, trie, list, index}
    }

    /** The structures agree, and the totals are those of the shown order, but for `held` bytes in transit. */
    ghost predicate ValidBut(held: nat)
      reads this, trie, list, index
    {
      && trie.Valid() && list.Valid() && 0 < maxSize && InStep()
      && Covers(trie.nodes, trie.path, weights, list.order) && Indexed(known, trie.path, list.order)
      && size + held == Weight(Order()) && zeros == Zeros(Order()) && MC.Books(n, accepted, |Order()|, size + held)
    }

    ghost predicate Valid()
      reads this, trie, list, index
    {
      ValidBut(0) && size <= maxSize && |Order()| <= 2 * maxSize
    }

    constructor (max: U64, arena: bool, entryCallback: bool, hash: Bytes -> NI.Hash)
      requires 0 < max
      ensures Valid() && Order() == [] && maxSize == max && indexed == arena && named == entryCallback && fresh(Repr())
      ensures index.hash == hash && MC.Blank(n)
    {
      hide Shown, EntryOf, AT.Trie.Valid, NI.Index.Valid, RL.List.Valid, Trie.WellLinked, Covers, Trie.Contents,
        ValidBut, Indexed, MC.Books;
      maxSize, indexed, named := max, arena, entryCallback;
      trie := new AT.Trie();
      list := new RL.List();
      index := new NI.Index(hash);
      weights, size, zeros, n, accepted, known := map[], 0, 0, MC.ZERO, 0, map[];
      new;
      FreshTrie(trie);
      NoBooks();
      Starts(this);
    }

    /** getNode of the pointer engine, and the lookups of the arena engine: the index answers by itself, or a walk of
        the trie does and, with `heal`, the node found is put into the slot of its hash. */
    method Lookup(key: Bytes, heal: bool) returns (id: int, walked: bool)
      requires ValidBut(0)
      modifies index
      ensures ValidBut(0)
      ensures id != RL.NIL ==> id in list.order && id in trie.path && trie.path[id] == key
      ensures id == RL.NIL ==> Find(Order(), key) == |Order()| && key !in trie.Entries()
      ensures id != RL.NIL ==> Find(Order(), key) < |Order()| && list.order[Find(Order(), key)] == id
    {
      hide AT.Trie.Valid, NI.Index.Valid, Trie.WellLinked, RL.List.Valid, Weight, Zeros, MC.Books, Covers, Indexed,
        Shown, Find, Trie.Contents, NI.HasHash, TS.Spelled, TK.KeyLensOk;
      ghost var ids := list.order;
      TrieLinked(trie);
      ListLen(list);
      if indexed {
        TrieReads(trie);
        IndexReads(known, trie.path, ids);
        SameListed(trie.nodes, trie.path, weights, ids, known);
        var hit, missed := index.Probe(key, list.len, trie.nodes, trie.path);
        if hit.Some? {
          id, walked := hit.value, false;
          KeyListed(trie.nodes, trie.path, weights, ids, known, id);
          return;
        }
        if missed {
          KeyUnlisted(trie.nodes, trie.path, weights, ids, known, key);
          return RL.NIL, false;
        }
      }
      var found := trie.Find(key);
      if found.None? {
        WalkAgrees(trie.nodes, trie.path, weights, ids, known, key);
        FindNone(trie.nodes, trie.path, weights, ids, key);
        return RL.NIL, true;
      }
      id, walked := found.value, true;
      NodeListed(trie.nodes, trie.path, weights, ids, known, key, id);
      KeyListed(trie.nodes, trie.path, weights, ids, known, id);
      if indexed && heal {
        assert known[id := key] == known;
        index.Promote(index.hash(key), id, key);
      }
    }

    /** The index holds what is known, if there is an index. */
    ghost predicate InStep()
      reads this`known, index
    {
      indexed ==> index.Valid() && index.keys == known
    }

    /** recordNodeMapInsertLocked and insertNewHashSlotLocked. */
    method Enter(key: Bytes, id: int)
      requires InStep() && 0 <= id && id !in known && forall x :: x in known ==> known[x] != key
      modifies this`known, index
      ensures InStep() && known == old(known)[id := key]
    {
      hide NI.Index.Valid;
      known := known[id := key];
      if indexed {
        index.Promote(index.hash(key), id, key);
      }
    }

    /** removeOrPromoteNodeMapLocked; where no key is asked for, first deleteNodeFromHashSlotsFastLocked under its
        guard. */
    method Leave(id: int, byTag: bool)
      requires InStep() && 0 <= id && id in known
      modifies this`known, index
      ensures InStep() && known == old(known) - {id}
    {
      hide NI.Index.Valid;
      known := known - {id};
      if indexed {
        var done := false;
        if byTag && !named && index.peerCount == 0 && |index.slots| <= NI.TWO21 {
          done := index.RemoveFast(id);
        }
        if !done {
          index.Remove(id);
        }
      }
    }

    /** An evicted or deleted node leaves the index, the totals and the list; `cur` is the order shown by the list. */
    method Unlist(id: int, reason: MC.Reason, byTag: bool, ghost i: nat, ghost cur: LruPolicy.Order, ghost held: nat)
      requires list.Valid() && InStep() && i < |list.order| == |cur| && list.order[i] == id && 0 <= id && id in known
      requires id in weights
      requires cur[i].weight == weights[id] <= size && RL.IndexOf(list.order, id) == i && id in list.order
      requires reason != MC.Replaced
      requires size + held == Weight(cur) && zeros == Zeros(cur) && MC.Books(n, accepted, |cur|, size + held)
      modifies this`known, this`size, this`zeros, this`n, list, index
      ensures list.Valid() && InStep() && list.order == old(RL.Without(list.order, i)) && known == old(known) - {id}
      ensures |Drop(cur, i)| == |cur| - 1 && size == old(size) - weights[id]
      ensures size + held == Weight(Drop(cur, i)) && zeros == Zeros(Drop(cur, i))
      ensures MC.Books(n, accepted, |cur| - 1, size + held)
      ensures n == old(MC.Evicted(n, reason, weights[id]))
    {
      hide RL.List.Valid, NI.Index.Valid, Weight, Zeros, RL.Without, Drop, RL.IndexOf;
      SumDrop(cur, i);
      CountBound(cur);
      DropLen(cur, i);
      Leave(id, byTag);
      size := size - weights[id];
      if weights[id] == 0 {
        zeros := zeros - 1;
      }
      n := MC.Evicted(n, reason, weights[id]);
      list.Remove(id);
    }

    /** reconstructKey, where an entry callback asks for the key. */
    method KeyFor(id: int) returns (key: Option<Bytes>)
      requires trie.Valid() && id in trie.path
      ensures key == if named then Some(trie.path[id]) else None
    {
      hide AT.Trie.Valid;
      if !named {
        return None;
      }
      TrieReads(trie);
      var k := TK.ReconstructKey(trie.nodes, trie.path, id);
      key := Some(k);
    }

    /** eraseInternal, and eraseInternalWithHash where the caller has the key: the node leaves the index, the list and
        the trie. */
    method EraseNode(id: int, reason: MC.Reason, given: Option<Bytes>, ghost i: nat, ghost held: nat)
      returns (x: MC.Notice)
      requires ValidBut(held) && i < |list.order| && list.order[i] == id && size >= weights[id] && reason != MC.Replaced
      requires given.Some? ==> given.value == Order()[i].key
      modifies this, trie, list, index
      ensures ValidBut(held) && Order() == old(Drop(Order(), i)) && x == old(MC.NoticeOf(Order()[i], reason, named))
      ensures list.order == old(RL.Without(list.order, i)) && size == old(size - weights[id])
      ensures n == old(MC.Evicted(n, reason, Order()[i].weight)) && accepted == old(accepted)
    {
      hide AT.Trie.Valid, RL.List.Valid, NI.Index.Valid, Trie.WellLinked, Weight, Zeros, TC.Shrinks, Covers, Indexed,
        RL.Without, Drop, Shown, Trie.Contents, AT.Trie.Entries, EntryOf, MC.Books, InStep, MC.Evicted;
      ghost var ns, pt, ws, ids := trie.nodes, trie.path, weights, list.order;
      ghost var es := Order();
      TrieLinked(trie);
      NodeFacts(ns, pt, ws, ids, known, i);
      var key := if named then given else None;
      if given.None? {
        key := KeyFor(id);
      }
      x := MC.Notice(key, trie.nodes[id].value.value, reason);
      Unlist(id, reason, given.None?, i, es, held);
      var edits := trie.Erase(id);
      weights := weights - {id};
      ShownErased(ns, pt, ws, ids, i, trie.nodes, trie.path);
      IndexedErased(old(known), ns, pt, ws, ids, i, trie.path);
    }

    /** evictOne: the node at the tail. */
    method EvictLast(ghost held: nat) returns (x: MC.Notice)
      requires ValidBut(held) && list.order != [] && size >= Order()[|Order()| - 1].weight
      modifies this, trie, list, index
      ensures ValidBut(held) && Order() == old(Order()[..|Order()| - 1])
      ensures x == old(MC.NoticeOf(Order()[|Order()| - 1], MC.Capacity, named))
      ensures list.order == old(list.order[..|list.order| - 1]) && size == old(size - Order()[|Order()| - 1].weight)
      ensures n == old(MC.Evicted(n, MC.Capacity, Order()[|Order()| - 1].weight)) && accepted == old(accepted)
    {
      hide Weight, Zeros, MC.Books, MC.NoticeOf, MC.Evicted;
      ghost var k := |list.order| - 1;
      assert Drop(Order(), k) == Order()[..k] && RL.Without(list.order, k) == list.order[..k];
      x := EraseNode(list.tail, MC.Capacity, None, k, held);
    }

    /** A new node joins the trie, the list and the index; the totals are still without it. */
    method Join(key: Bytes, value: Value, w: nat) returns (id: int)
      requires ValidBut(0) && Find(Order(), key) == |Order()|
      modifies this`weights, this`known, trie, list, index
      ensures trie.Valid() && list.Valid() && InStep()
      ensures Covers(trie.nodes, trie.path, weights, list.order) && Indexed(known, trie.path, list.order)
      ensures Order() == [Entry(key, value, w)] + old(Order()) && list.order != [] && list.order[0] == id
    {
      hide AT.Trie.Valid, RL.List.Valid, NI.Index.Valid, Trie.WellLinked, Weight, Zeros, TC.Extends, Covers, Indexed,
        Find, Shown, EntryOf, Trie.Contents, InStep, MC.Books, AT.Trie.Entries;
      ghost var ns, pt, ws, ids := trie.nodes, trie.path, weights, list.order;
      TrieLinked(trie);
      AbsentNode(ns, pt, ws, ids, key);
      var edits;
      id, edits := trie.Insert(key, value);
      InsertedNode(ns, pt, ws, ids, trie.nodes, trie.path, id);
      IndexedInserted(known, ns, pt, ws, ids, trie.path, id, key);
      weights := weights[id := w];
      list.PushFront(id);
      ShownInserted(ns, pt, ws, ids, id, w, trie.nodes, trie.path);
      Enter(key, id);
    }

    /** The insertion half of Put, once there is room. */
    method InsertNew(key: Bytes, value: Value, w: nat) returns (id: int)
      requires ValidBut(0) && Find(Order(), key) == |Order()| && size + w <= maxSize
      modifies this, trie, list, index
      ensures ValidBut(0) && Order() == [Entry(key, value, w)] + old(Order()) && size == old(size) + w
      ensures n == old(n.(inserted := n.inserted + 1)) && accepted == old(accepted) + w
      ensures list.order != [] && list.order[0] == id
    {
      hide AT.Trie.Valid, RL.List.Valid, NI.Index.Valid, Weight, Zeros, Covers, Indexed, Find, EntryOf, InStep,
        MC.Books;
      SumCons(Entry(key, value, w), Order());
      MC.BooksIn(n, accepted, |Order()|, size, w);
      id := Join(key, value, w);
      size := size + w;
      if w == 0 {
        zeros := zeros + 1;
      }
      n := n.(inserted := n.inserted + 1);
      accepted := accepted + w;
    }

    /** The node at position `i` takes a new value and weight. */
    method SetNode(id: int, value: Value, w: nat, newSize: U64, update: bool, ghost i: nat, ghost held: nat)
      requires ValidBut(held) && i < |list.order| && list.order[i] == id
      requires newSize + Order()[i].weight == size + held + w
      modifies this, trie
      ensures ValidBut(0) && Order() == old(Order()[i := Entry(Order()[i].key, value, w)]) && size == newSize
      ensures list.order == old(list.order) && accepted == old(accepted) + w
      ensures n == old(MC.Changed(n, update, Order()[i].weight))
    {
      hide InStep, AT.Trie.Valid, RL.List.Valid, NI.Index.Valid, Trie.WellLinked, Weight, Zeros, TC.Extends, Covers,
        Indexed, MC.Books, MC.Changed;
      ghost var ns, pt, ws, ids := trie.nodes, trie.path, weights, list.order;
      ghost var es := Order();
      SumDrop(es, i);
      MC.BooksChange(n, accepted, |es|, size + held - es[i].weight, update, es[i].weight, w);
      NodeFacts(ns, pt, ws, ids, known, i);
      MC.SumSet(es, i, Entry(es[i].key, value, w));
      CountBound(es);
      LiveIds(trie);
      var oldWeight := weights[id];
      trie.SetNodeValue(id, value);
      weights := weights[id := w];
      if oldWeight == 0 && w > 0 {
        zeros := zeros - 1;
      } else if oldWeight > 0 && w == 0 {
        zeros := zeros + 1;
      }
      size := newSize;
      n := MC.Changed(n, update, oldWeight);
      accepted := accepted + w;
      ShownSet(ns, pt, ws, ids, i, w, trie.nodes);
    }

    /** moveToFront on the shown order. */
    method Touch(id: int, ghost i: nat, ghost held: nat)
      requires ValidBut(held) && i < |list.order| && list.order[i] == id
      modifies list
      ensures ValidBut(held) && list.order == old([id] + RL.Without(list.order, i))
      ensures Order() == old([Order()[i]] + Drop(Order(), i))
    {
      hide AT.Trie.Valid, RL.List.Valid, NI.Index.Valid, Weight, Zeros, Covers, Indexed, RL.Without, Drop, MC.Books,
        Shown, EntryOf, InStep;
      ghost var ids, es := list.order, Order();
      NodeFacts(trie.nodes, trie.path, weights, ids, known, i);
      ShownMoved(trie.nodes, trie.path, weights, ids, i);
      CoversMoved(trie.nodes, trie.path, weights, ids, i);
      SumDrop(es, i);
      SumCons(es[i], Drop(es, i));
      DropLen(es, i);
      list.MoveToFront(id);
      IndexedSame(known, trie.path, ids, list.order);
    }

    /** The eviction loop of an update, with the updated node at the front and its weight not counted. */
    method MakeRoom(id: int, w: nat, once: bool, ghost held: nat) returns (log: seq<MC.Notice>)
      requires list.order != [] && list.order[0] == id && FrontWeighs(Order(), held)
      requires ValidBut(held)
      modifies this, trie, list, index
      ensures list.order != [] && list.order[0] == id && ValidBut(held) && size <= old(size)
      ensures Order() == old(WithRoom(Order(), w, maxSize, once))
      ensures log == old(RoomLog(Order(), w, maxSize, once, named))
      ensures MC.Charged(old(n), n, |log|, 0) && accepted == old(accepted)
    {
      hide EntryOf, InStep, AT.Trie.Valid, NI.Index.Valid, RL.List.Valid, Weight, Zeros, Covers, Indexed, UpdateRoom,
        MC.TailLog, Shown, MC.Books, MC.Charged, MC.Evicted, MC.NoticeOf, Made;
      ghost var es := Order();
      var force := once;
      log := [];
      MC.NoneCharged(n);
      MadeStart(es, w, maxSize, once, named);
      while (w > maxSize - size || force) && list.tail != id
        invariant ValidBut(held) && list.order != [] && list.order[0] == id && size <= old(size)
        invariant Made(es, Order(), w, maxSize, once, force, named, log)
        invariant MC.Charged(old(n), n, |log|, 0) && accepted == old(accepted)
        decreases |list.order|
      {
        ghost var now := Order();
        MadeFront(es, now, w, maxSize, once, force, named, log);
        FrontAndRest(now);
        TailIsLast(list, id);
        MadeStep(es, now, w, maxSize, once, force, named, log);
        MC.CapMore(old(n), n, |log|, now[|now| - 1].weight);
        var x := EvictLast(held);
        log := log + [x];
        force := false;
      }
      MadeFront(es, Order(), w, maxSize, once, force, named, log);
      FrontAndRest(Order());
      TailIsLast(list, id);
      MadeEnd(es, Order(), w, maxSize, once, force, named, log);
    }

    /** The updated node moves to the front, and its weight no longer counts. */
    method Uncount(id: int, ghost i: nat)
      requires Valid() && i < |list.order| && list.order[i] == id && id in weights && weights[id] == Order()[i].weight
      modifies this`size, list
      ensures ValidBut(weights[id]) && size + weights[id] == old(size) && list.order != [] && list.order[0] == id
      ensures Order() == [old(Order()[i])] + Drop(old(Order()), i)
    {
      hide EntryOf, InStep, AT.Trie.Valid, NI.Index.Valid, RL.List.Valid, Weight, Zeros, Covers, Indexed, Shown, Drop,
        MC.Books, RL.Without;
      SumDrop(Order(), i);
      Touch(id, i, 0);
      size := size - weights[id];
    }

    /** The eviction half of an update: the node is at the front, without its weight, and the others leave room for
        `w`. */
    method FitBeside(id: int, w: nat, once: bool, ghost i: nat) returns (log: seq<MC.Notice>)
      requires Valid() && i < |list.order| && list.order[i] == id && id in weights && weights[id] == Order()[i].weight
      requires w <= maxSize
      modifies this, trie, list, index
      ensures list.order != [] && list.order[0] == id && ValidBut(old(weights[id])) && size + w <= maxSize
      ensures Order() == old([Order()[i]] + UpdateRoom(Drop(Order(), i), w, maxSize, once)) && |Order()| <= 2 * maxSize
      ensures log == old(TailLogOf(Drop(Order(), i), UpdateRoom(Drop(Order(), i), w, maxSize, once), named))
      ensures MC.Charged(old(n), n, |log|, 0) && accepted == old(accepted)
    {
      hide MC.Charged, EntryOf, InStep, AT.Trie.Valid, NI.Index.Valid, RL.List.Valid, Weight, Zeros, Covers, Indexed,
        UpdateRoom, TailLogOf, Shown, Drop, MC.Books;
      ghost var es := Order();
      var held := weights[id];
      DropLen(es, i);
      Uncount(id, i);
      FrontRest(es[i], Drop(es, i));
      log := MakeRoom(id, w, once, held);
      RoomFits(Drop(es, i), w, maxSize, once);
      FrontRest(es[i], UpdateRoom(Drop(es, i), w, maxSize, once));
    }

    /** updateExistingOnPutLocked. */
    method Update(key: Bytes, id: int, value: Value, w: nat, ghost i: nat) returns (log: seq<MC.Notice>)
      requires Valid() && i < |list.order| && list.order[i] == id && Order()[i].key == key && w <= maxSize
      modifies this, trie, list, index
      ensures Valid() && Order() == old(MC.UpdateOrder(Order(), i, value, w, maxSize))
      ensures log == old(MC.UpdateLog(Order(), i, w, maxSize, named) + [MC.NoticeOf(Order()[i], MC.Replaced, named)])
      ensures MC.Charged(old(MC.Changed(n, true, Order()[i].weight)), n, |log| - 1, 0) && accepted == old(accepted) + w
      ensures list.order != [] && list.order[0] == id
    {
      hide MC.Changed, MC.Charged, EntryOf, InStep, AT.Trie.Valid, NI.Index.Valid, RL.List.Valid, Weight, Zeros, Covers,
        Indexed, UpdateRoom, MC.TailLog, Shown, Drop, MC.Books;
      ghost var es := Order();
      NodeFacts(trie.nodes, trie.path, weights, list.order, known, i);
      var held := weights[id];
      var over := MC.Notice(if named then Some(key) else None, trie.nodes[id].value.value, MC.Replaced);
      var once := held > 0 && w == 0 && zeros >= maxSize;
      RoomFits(Drop(es, i), w, maxSize, once);
      FrontRest(es[i], UpdateRoom(Drop(es, i), w, maxSize, once));
      log := FitBeside(id, w, once, i);
      MC.ChargedChange(old(n), n, |log|, true, held);
      SetNode(id, value, w, size + w, true, 0, held);
      if indexed && log != [] {
        Reindex(key, id, 0);
      }
      log := log + [over];
    }

    /** The changed node is put into the slot of its hash again, as evictions may have moved it
        (promoteCollisionPeerLocked). */
    method Reindex(key: Bytes, id: int, ghost i: nat)
      requires ValidBut(0) && i < |list.order| && list.order[i] == id && Order()[i].key == key && indexed
      modifies index
      ensures ValidBut(0)
    {
      hide NI.Index.Valid, AT.Trie.Valid, RL.List.Valid, Covers, Indexed, Weight, Zeros, MC.Books, EntryOf;
      NodeFacts(trie.nodes, trie.path, weights, list.order, known, i);
      assert known[id := key] == known;
      index.Promote(index.hash(key), id, key);
    }

    /** The loop of evictAndReclaimPrePutLocked. */
    method MakeSpace(w: nat) returns (log: seq<MC.Notice>)
      requires Valid() && w <= maxSize
      modifies this, trie, list, index
      ensures ValidBut(0) && size <= maxSize && Order() == old(Room(Order(), w, maxSize, false))
      ensures log == old(MC.TailLog(Order(), |Room(Order(), w, maxSize, false)|, named))
      ensures MC.Charged(old(n), n, |log|, 0) && accepted == old(accepted)
    {
      hide InStep, AT.Trie.Valid, NI.Index.Valid, RL.List.Valid, Weight, Zeros, Covers, Indexed, Shown, MustEvict, Room,
        MC.TailLog, MC.Books, MC.Charged, MC.Evicted, MC.NoticeOf;
      ghost var es := Order();
      var pre := false;
      log := [];
      MC.NoneCharged(n);
      ListLen(list);
      MC.NoTail(es, named);
      while MustEvict(w, maxSize, size, list.len, zeros, pre) && list.tail != RL.NIL
        invariant ValidBut(0) && size <= maxSize && Order() <= es && list.len == |Order()|
        invariant (list.tail == RL.NIL <==> Order() == [])
        invariant Room(Order(), w, maxSize, pre) == Room(es, w, maxSize, false)
        invariant log == MC.TailLog(es, |Order()|, named)
        invariant MC.Charged(old(n), n, |log|, 0) && accepted == old(accepted)
        decreases |list.order|
      {
        LastFits(Order());
        RoomStep(Order(), w, maxSize, pre);
        MC.TailNext(es, |Order()| - 1, named);
        MC.CapMore(old(n), n, |log|, Order()[|Order()| - 1].weight);
        var x := EvictLast(0);
        log := log + [x];
        pre := true;
        ListLen(list);
      }
      RoomStep(Order(), w, maxSize, pre);
    }

    /** evictAndReclaimPrePutLocked and insertNode. */
    method Insert(key: Bytes, value: Value, w: nat) returns (id: int, log: seq<MC.Notice>)
      requires Valid() && w <= maxSize && Find(Order(), key) == |Order()|
      modifies this, trie, list, index
      ensures Valid() && Order() == [Entry(key, value, w)] + old(Room(Order(), w, maxSize, false))
      ensures log == old(MC.TailLog(Order(), |Room(Order(), w, maxSize, false)|, named))
      ensures MC.Charged(old(n.(inserted := n.inserted + 1)), n, |log|, 0) && accepted == old(accepted) + w
      ensures list.order != [] && list.order[0] == id
    {
      hide InStep, AT.Trie.Valid, NI.Index.Valid, RL.List.Valid, Weight, Zeros, Covers, Indexed, Shown, Find, MC.Books,
        MC.Charged, Room, MC.TailLog;
      ghost var es := Order();
      log := MakeSpace(w);
      RoomBound(es, w, maxSize);
      FindLess(es, Order(), key);
      MC.ChargedIn(old(n), n, |log|);
      id := InsertNew(key, value, w);
    }

    /** The pass evicts the node at position `i`; the nodes before it stay where they are. */
    method EraseVictim(id: int, protId: int, ghost i: nat, ghost prot: Option<Entry>) returns (x: MC.Notice)
      requires Valid() && i < |list.order| && list.order[i] == id != protId
      requires Protects(Order(), list.order, prot, protId)
      modifies this, trie, list, index
      ensures Valid() && Protects(Order(), list.order, prot, protId) && Order() == old(Drop(Order(), i))
      ensures x == old(MC.NoticeOf(Order()[i], MC.Pressure, named))
      ensures |list.order| == |old(list.order)| - 1 && RL.At(list.order, i - 1) == old(RL.At(list.order, i - 1))
      ensures MC.Charged(old(n), n, 0, 1) && accepted == old(accepted)
    {
      hide AT.Trie.Valid, NI.Index.Valid, RL.List.Valid, Weight, Zeros, Covers, Indexed, Shown, MC.Books, Drop,
        Protects, InStep;
      NodeFacts(trie.nodes, trie.path, weights, list.order, known, i);
      SumDrop(Order(), i);
      DropLen(Order(), i);
      ProtectsStill(Order(), list.order, prot, protId, i);
      x := EraseNode(id, MC.Pressure, None, i, 0);
      MC.PresOne(old(n), old(Order()[i].weight));
    }

    /** One step of the pass: the node at position `i - 1` is evicted or passed over, unless both goals are met. */
    method ShedOne(victim: int, g: Goals, protId: int, ghost i: nat, ghost prot: Option<Entry>)
      returns (next: int, stop: bool, out: seq<MC.Notice>)
      requires Valid() && Protects(Order(), list.order, prot, protId) && 0 < i <= |list.order|
      requires victim == list.order[i - 1]
      modifies this, trie, list, index
      ensures Valid() && Protects(Order(), list.order, prot, protId) && MC.Charged(old(n), n, 0, |out|)
      ensures accepted == old(accepted)
      ensures stop ==>
                && out == [] && old(ShedFrom(Order(), i, g, prot)) == Order()
                && old(LogFrom(Order(), i, g, prot, named)) == []
      ensures !stop ==> i - 1 <= |list.order| && next == RL.At(list.order, i - 2)
      ensures !stop ==> ShedFrom(Order(), i - 1, g, prot) == old(ShedFrom(Order(), i, g, prot))
      ensures !stop ==> out + LogFrom(Order(), i - 1, g, prot, named) == old(LogFrom(Order(), i, g, prot, named))
    {
      hide AT.Trie.Valid, NI.Index.Valid, RL.List.Valid, Weight, Zeros, Covers, Indexed, Shown, MC.Books, Shed,
        MC.ShedLog, Drop, EntryOf, Protects, InStep;
      ListLen(list);
      MC.ShedNext(Order(), i, g, prot, named);
      out := [];
      MC.NoneCharged(n);
      var needBytes, needZeros := g.flush || size > g.bytes, !g.flush && zeros > g.zeros && list.len > g.len;
      if !needBytes && !needZeros {
        return RL.NIL, true, [];
      }
      stop := false;
      NodeFacts(trie.nodes, trie.path, weights, list.order, known, i - 1);
      Before(list, i - 1);
      VictimIsProtected(this, prot, protId, i - 1);
      next := list.prev[victim];
      var w := weights[victim];
      if victim != protId && (g.flush || (needBytes && zeros > g.zeros) || (if needBytes then w > 0 else w == 0)) {
        var x := EraseVictim(victim, protId, i - 1, prot);
        out := [x];
      }
    }

    /** shedAndCompactLocked: one pass along the links from the tail, passing over the protected node. */
    method ShedPass(p: MC.Sample, protId: int, ghost prot: Option<Entry>) returns (log: seq<MC.Notice>)
      requires Valid() && Protects(Order(), list.order, prot, protId)
      modifies this, trie, list, index
      ensures Valid() && Order() == old(MC.After(Order(), Some(p), prot))
      ensures log == old(MC.AfterLog(Order(), Some(p), prot, named))
      ensures MC.Charged(old(n), n, 0, |log|) && accepted == old(accepted)
    {
      hide AT.Trie.Valid, NI.Index.Valid, RL.List.Valid, Weight, Zeros, Covers, Indexed, Shown, MC.Books, Shed,
        MC.ShedLog, EntryOf, Protects, InStep, Targets, ShedFrom, LogFrom, MC.Charged;
      ghost var es := Order();
      log := [];
      MC.NoneCharged(n);
      ProtectedNode(this, prot, protId);
      ListLen(list);
      var weight := if protId != RL.NIL then weights[protId] else 0;
      var g := Targets(p.target, p.retentionZero, list.len, zeros, protId != RL.NIL, weight,
                       p.keepLen, p.keepZeros, p.lastLen, p.lastZeros);
      if indexed && size <= p.target && zeros == 0 && !p.retentionZero {
        NothingToShed(es, p, prot, named);
        return;
      }
      Ends(list);
      var victim, stop := list.tail, false;
      ghost var i := |list.order|;
      FromStart(es, g, prot, named);
      while victim != RL.NIL
        invariant Valid() && 0 <= i <= |list.order| && victim == RL.At(list.order, i - 1)
        invariant Protects(Order(), list.order, prot, protId)
        invariant ShedFrom(Order(), i, g, prot) == Shed(es, [], g, prot)
        invariant log + LogFrom(Order(), i, g, prot, named) == MC.ShedLog(es, [], g, prot, named)
        invariant MC.Charged(old(n), n, 0, |log|) && accepted == old(accepted)
        decreases i
      {
        var out;
        ghost var before := n;
        victim, stop, out := ShedOne(victim, g, protId, i, prot);
        MC.PresMore(old(n), before, |log|, |out|, n);
        if stop {
          return;
        }
        log := log + out;
        i := i - 1;
      }
      ListNotNil(list);
      FromEnd(Order(), g, prot, named);
    }

    /** The part of Put before any reclamation. */
    method Store(key: Bytes, value: Value, w: nat) returns (id: int, log: seq<MC.Notice>)
      requires Valid() && w <= maxSize
      modifies this, trie, list, index
      ensures Valid() && Order() == MC.PutOrder(old(Order()), key, value, w, maxSize) && accepted == old(accepted) + w
      ensures log == MC.PutLog(old(Order()), key, w, maxSize, named) + MC.PutOver(old(Order()), key, named)
      ensures MC.Charged(old(MC.CountPut(n, Order(), key)), n, |MC.PutLog(old(Order()), key, w, maxSize, named)|, 0)
      ensures Protects(Order(), list.order, Some(Entry(key, value, w)), id)
    {
      hide AT.Trie.Valid, NI.Index.Valid, RL.List.Valid, Weight, Zeros, Covers, Indexed, Shown, MC.Books, InStep,
        MC.Charged, MC.TailLog, Room;
      var walked;
      id, walked := Lookup(key, true);
      if id != RL.NIL {
        log := Update(key, id, value, w, Find(Order(), key));
      } else {
        id, log := Insert(key, value, w);
      }
      NotNil(list, 0);
      assert Order()[0] == Entry(key, value, w);
    }

    /** Put: the recency order, the notices and the counters are those of the specification. */
    method Put(key: Bytes, value: Value, w: nat, shed: Option<MC.Sample>) returns (ok: bool, log: seq<MC.Notice>)
      requires Valid()
      modifies this, trie, list, index
      ensures Valid() && (ok <==> w <= maxSize)
      ensures !ok ==> Order() == old(Order()) && n == old(n) && accepted == old(accepted) && log == []
      ensures ok ==>
                var put, prot := MC.PutOrder(old(Order()), key, value, w, maxSize), Some(Entry(key, value, w));
                var caps, sheds := MC.PutLog(old(Order()), key, w, maxSize, named), MC.AfterLog(put, shed, prot, named);
                && Order() == MC.After(put, shed, prot) && accepted == old(accepted) + w
                && log == caps + MC.PutOver(old(Order()), key, named) + sheds
                && MC.Charged(MC.CountPut(old(n), old(Order()), key), n, |caps|, |sheds|)
    {
      hide ValidBut, Shown, Shed, MC.ShedLog, MC.PutOrder, MC.PutLog, MC.PutOver, MC.CountPut, Protects, MC.Charged;
      if w > maxSize {
        return false, [];
      }
      var id;
      id, log := Store(key, value, w);
      if shed.Some? {
        ghost var before := n;
        var more := ShedPass(shed.value, id, Some(Entry(key, value, w)));
        MC.PresAfter(MC.CountPut(old(n), old(Order()), key), before, |MC.PutLog(old(Order()), key, w, maxSize, named)|,
                     |more|, n);
        log := log + more;
      }
      ok := true;
    }

    /** Get. */
    method Get(key: Bytes) returns (r: Option<Value>)
      requires Valid()
      modifies list, index
      ensures Valid()
      ensures var i := old(Find(Order(), key));
              if i < |old(Order())| then
                && r == Some(old(Order())[i].value)
                && Order() == old([Order()[i]] + Drop(Order(), i))
              else r == None && Order() == old(Order())
    {
      hide InStep, AT.Trie.Valid, NI.Index.Valid, RL.List.Valid, Weight, Zeros, Covers, Indexed, Drop, Find;
      var id, walked := Lookup(key, true);
      if id == RL.NIL {
        return None;
      }
      ghost var i := Find(Order(), key);
      NodeFacts(trie.nodes, trie.path, weights, list.order, known, i);
      r := Some(trie.nodes[id].value.value);
      DropLen(Order(), i);
      Touch(id, i, 0);
    }

    /** The entry found is deleted. */
    method EraseDeleted(key: Bytes, id: int, ghost i: nat) returns (x: MC.Notice)
      requires Valid() && i < |list.order| && list.order[i] == id && Order()[i].key == key
      modifies this, trie, list, index
      ensures Valid() && Order() == old(Drop(Order(), i)) && x == old(MC.NoticeOf(Order()[i], MC.Deleted, named))
      ensures accepted == old(accepted)
      ensures n == old(MC.Evicted(n.(deleted := n.deleted + 1), MC.Deleted, Order()[i].weight))
    {
      hide InStep, AT.Trie.Valid, NI.Index.Valid, RL.List.Valid, Weight, Zeros, Covers, Indexed, Drop, Shown;
      NodeFacts(trie.nodes, trie.path, weights, list.order, known, i);
      SumDrop(Order(), i);
      DropLen(Order(), i);
      x := EraseNode(id, MC.Deleted, Some(key), i, 0);
      n := n.(deleted := n.deleted + 1);
    }

    /** Delete. */
    method Delete(key: Bytes, shed: Option<MC.Sample>) returns (r: Option<Value>, log: seq<MC.Notice>)
      requires Valid()
      modifies this, trie, list, index
      ensures Valid() && accepted == old(accepted)
      ensures var i, es := old(Find(Order(), key)), old(Order());
              if i < |es| then
                var sheds := MC.AfterLog(Drop(es, i), shed, None, named);
                && r == Some(es[i].value) && Order() == MC.After(Drop(es, i), shed, None)
                && log == [MC.NoticeOf(es[i], MC.Deleted, named)] + sheds
                && MC.Charged(old(MC.Evicted(n.(deleted := n.deleted + 1), MC.Deleted, Order()[i].weight)), n, 0,
                              |sheds|)
              else r == None && Order() == es && n == old(n) && log == []
    {
      hide InStep, AT.Trie.Valid, NI.Index.Valid, RL.List.Valid, Weight, Zeros, Covers, Indexed, Drop, Find, Shown,
        Shed, MC.ShedLog, EntryOf, MC.Charged, MC.Evicted;
      var id, walked := Lookup(key, false);
      if id == RL.NIL {
        return None, [];
      }
      ghost var i := Find(Order(), key);
      var x := EraseDeleted(key, id, i);
      r, log := Some(x.value), [x];
      MC.NoneCharged(n);
      ListLen(list);
      MC.ShedEmpty(shed, None, named);
      if list.len != 0 && shed.Some? {
        var more := ShedPass(shed.value, RL.NIL, None);
        log := log + more;
      }
    }

    /** canFitGrowthLocked over the links of the list. */
    method CanFit(id: int, w: nat, ghost i: nat) returns (fits: bool)
      requires Valid() && i < |list.order| && list.order[i] == id && Order()[i].weight < w <= maxSize
      ensures fits <==> FitsInPlace(Order(), i, w, maxSize)
    {
      hide MC.Books, EntryOf, InStep, AT.Trie.Valid, NI.Index.Valid, RL.List.Valid, Weight, Zeros, Covers, Indexed,
        Shown;
      ghost var es, ids := Order(), list.order;
      NodeFacts(trie.nodes, trie.path, weights, ids, known, i);
      SumAround(es, i);
      SumNone();
      Ends(list);
      var maxNewer: U64, delta: U64, avail: U64 := maxSize - w, w - weights[id], maxSize - size;
      if delta <= avail {
        return true;
      }
      var newer: U64, head, tail := 0, list.head, list.tail;
      ghost var h, t := 0, |ids| - 1;
      assert es[..0] == [] && es[|es|..] == [];
      while true
        invariant 0 <= h <= i <= t < |ids| && ids[h] == head && ids[t] == tail
        invariant newer == Weight(es[..h]) <= maxNewer && avail == maxSize - size + Weight(es[t + 1..]) <= maxSize
        invariant delta > avail
        decreases i - h
      {
        SamePlace(ids, h, i);
        SamePlace(ids, t, i);
        if head == id {
          return true;
        }
        NodeFacts(trie.nodes, trie.path, weights, ids, known, h);
        PrefixMore(es, h);
        PrefixLess(es, h + 1, i);
        newer := newer + weights[head];
        assert newer <= size;
        if newer > maxNewer {
          return false;
        }
        Neighbours(list, h);
        head := list.next[head];
        h := h + 1;
        if tail == id {
          return false;
        }
        NodeFacts(trie.nodes, trie.path, weights, ids, known, t);
        SuffixMore(es, t);
        SuffixLess(es, i, t);
        avail := avail + weights[tail];
        assert avail <= maxSize;
        if delta <= avail {
          return true;
        }
        Neighbours(list, t);
        tail := list.prev[tail];
        t := t - 1;
      }
    }

    /** The loop of the growth branch: older nodes go until the new weight fits. */
    method EvictOlder(id: int, delta: nat, ghost i: nat, ghost base: nat) returns (log: seq<MC.Notice>)
      requires Valid() && i < |list.order| && list.order[i] == id && base <= maxSize
      requires base == delta + Order()[i].weight + Weight(Order()[..i])
      modifies this, trie, list, index
      ensures ValidBut(0) && size <= maxSize && i < |list.order| && list.order[i] == id
      ensures MC.Growing(old(Order()), Order(), i, base, maxSize, named, log)
      ensures base + Weight(Order()[i + 1..]) <= maxSize
      ensures MC.Charged(old(n), n, |log|, 0) && accepted == old(accepted)
    {
      hide EntryOf, InStep, AT.Trie.Valid, NI.Index.Valid, RL.List.Valid, Weight, Zeros, Covers, Indexed, Shown,
        UpdateRoom, MC.Growing, MC.Books, MC.Charged, MC.Evicted, MC.NoticeOf;
      ghost var es := Order();
      log := [];
      MC.NoneCharged(n);
      MC.GrowStart(es, i, base, maxSize, named);
      Ends(list);
      while delta > maxSize - size && list.tail != id
        invariant ValidBut(0) && i < |list.order| && list.order[i] == id && size <= maxSize
        invariant list.tail == list.order[|list.order| - 1] && RL.NoRepeats(list.order)
        invariant MC.Growing(es, Order(), i, base, maxSize, named, log)
        invariant MC.Charged(old(n), n, |log|, 0) && accepted == old(accepted)
        decreases |list.order|
      {
        ghost var now := Order();
        LastFits(now);
        MC.GrowBalance(es, now, i, base, maxSize, named, log);
        SamePlace(list.order, i, |list.order| - 1);
        MC.GrowStep(es, now, i, base, maxSize, named, log);
        MC.CapMore(old(n), n, |log|, now[|now| - 1].weight);
        var x := EvictLast(0);
        log := log + [x];
        Ends(list);
      }
      SamePlace(list.order, i, |list.order| - 1);
      MC.GrowBalance(es, Order(), i, base, maxSize, named, log);
    }

    /** The growth branch of replaceResizeOrEvictLocked. */
    method Grow(id: int, value: Value, w: nat, ghost i: nat) returns (log: seq<MC.Notice>)
      requires Valid() && i < |list.order| && list.order[i] == id && Order()[i].weight < w
      requires FitsInPlace(Order(), i, w, maxSize)
      modifies this, trie, list, index
      ensures Valid() && Order() == old(Replaced(Order(), i, value, w, maxSize))
      ensures log == old(MC.ReplaceLog(Order(), i, w, maxSize, named))
      ensures MC.Charged(old(MC.Changed(n, false, Order()[i].weight)), n, |log|, 0) && accepted == old(accepted) + w
      ensures i < |list.order| && list.order[i] == id
    {
      hide EntryOf, InStep, AT.Trie.Valid, NI.Index.Valid, RL.List.Valid, Weight, Zeros, Covers, Indexed, Shown,
        UpdateRoom, MC.Growing, NoMoreFits, MC.Books, MC.TailLog, MC.Charged, MC.Changed;
      ghost var es, base := Order(), w + Weight(Order()[..i]);
      NodeFacts(trie.nodes, trie.path, weights, list.order, known, i);
      var oldWeight := weights[id];
      log := EvictOlder(id, w - oldWeight, i, base);
      ghost var now := Order();
      MC.GrowBalance(es, now, i, base, maxSize, named, log);
      MC.GrowEnd(es, now, i, base, maxSize, named, log, Entry(es[i].key, value, w));
      GrownMeans(es, i, value, w, maxSize);
      MC.ChargedChange(old(n), n, |log|, false, oldWeight);
      SetNode(id, value, w, size - oldWeight + w, false, i, 0);
    }

    /** The shrinking branch, and a new value of the same weight. */
    method Shrink(id: int, value: Value, w: nat, ghost i: nat) returns (log: seq<MC.Notice>)
      requires Valid() && i < |list.order| && list.order[i] == id && w <= Order()[i].weight
      modifies this, trie, list, index
      ensures Valid() && Order() == old(Replaced(Order(), i, value, w, maxSize))
      ensures log == old(MC.ReplaceLog(Order(), i, w, maxSize, named))
      ensures MC.Charged(old(MC.Changed(n, false, Order()[i].weight)), n, |log|, 0) && accepted == old(accepted) + w
      ensures i < |list.order| && list.order[i] == id
    {
      hide EntryOf, InStep, AT.Trie.Valid, NI.Index.Valid, RL.List.Valid, Weight, Zeros, Covers, Indexed, Shown,
        MC.Books, MC.Charged, MC.Changed, MC.Evicted, MC.NoticeOf, Replaced, MC.ReplaceLog;
      ghost var es := Order();
      log := [];
      MC.NoneCharged(n);
      NodeFacts(trie.nodes, trie.path, weights, list.order, known, i);
      Ends(list);
      SamePlace(list.order, i, |list.order| - 1);
      LastFits(es);
      ShrunkIs(es, i, value, w, maxSize, named);
      var oldWeight := weights[id];
      if oldWeight > 0 && w == 0 && zeros >= maxSize && list.tail != id {
        MC.CapMore(n, n, 0, es[|es| - 1].weight);
        var x := EvictLast(0);
        log := [x];
      }
      SumAround(Order(), i);
      MC.ChargedChange(old(n), n, |log|, false, oldWeight);
      SetNode(id, value, w, size - oldWeight + w, false, i, 0);
    }

    /** The part of Replace before any reclamation. */
    method Overwrite(key: Bytes, id: int, walked: bool, value: Value, w: nat, ghost i: nat)
      returns (log: seq<MC.Notice>, stays: bool)
      requires Valid() && i < |list.order| && list.order[i] == id && Order()[i].key == key
      modifies this, trie, list, index
      ensures Valid() && Order() == old(Replaced(Order(), i, value, w, maxSize))
      ensures (stays <==> !old(MC.Outgrown(Order(), i, w, maxSize)))
      ensures log == old(MC.ReplaceLog(Order(), i, w, maxSize, named) + MC.ReplaceOver(Order(), i, w, maxSize, named))
      ensures accepted == old(accepted) + (if stays then w else 0)
      ensures MC.Charged(old(MC.CountReplace(n, Order(), i, w, maxSize)), n,
                         |old(MC.ReplaceLog(Order(), i, w, maxSize, named))|, 0)
      ensures Protects(Order(), list.order, if stays then Some(Entry(key, value, w)) else None,
                       if stays then id else RL.NIL)
    {
      hide EntryOf, InStep, AT.Trie.Valid, NI.Index.Valid, RL.List.Valid, Weight, Zeros, Covers, Indexed, Shown,
        UpdateRoom, MC.Books, MC.TailLog, NoMoreFits, MC.Changed, Drop;
      ghost var es := Order();
      NodeFacts(trie.nodes, trie.path, weights, list.order, known, i);
      NotNil(list, i);
      var over := MC.Notice(if named then Some(key) else None, trie.nodes[id].value.value, MC.Replaced);
      stays := w <= weights[id];
      if stays {
        ShrunkMeans(es, i, value, w, maxSize);
        log := Shrink(id, value, w, i);
      } else {
        if w <= maxSize {
          stays := CanFit(id, w, i);
        }
        if !stays {
          var x := EraseGrown(key, id, i);
          return [x], false;
        }
        GrownMeans(es, i, value, w, maxSize);
        log := Grow(id, value, w, i);
      }
      if indexed && (walked || log != []) {
        Reindex(key, id, i);
      }
      log := log + [over];
    }

    /** Replace: the entry keeps its place, unless its new weight does not fit beside the newer ones. */
    method Replace(key: Bytes, value: Value, w: nat, shed: Option<MC.Sample>) returns (found: bool, log: seq<MC.Notice>)
      requires Valid()
      modifies this, trie, list, index
      ensures Valid() && (found <==> old(Find(Order(), key)) < |old(Order())|)
      ensures !found ==> Order() == old(Order()) && n == old(n) && accepted == old(accepted) && log == []
      ensures found ==>
                var i, es := old(Find(Order(), key)), old(Order());
                var r, gone := Replaced(es, i, value, w, maxSize), MC.Outgrown(es, i, w, maxSize);
                var prot := if gone then None else Some(Entry(key, value, w));
                var caps, sheds := MC.ReplaceLog(es, i, w, maxSize, named), MC.AfterLog(r, shed, prot, named);
                && Order() == MC.After(r, shed, prot) && log == caps + MC.ReplaceOver(es, i, w, maxSize, named) + sheds
                && accepted == old(accepted) + (if gone then 0 else w)
                && MC.Charged(MC.CountReplace(old(n), es, i, w, maxSize), n, |caps|, |sheds|)
    {
      hide EntryOf, InStep, AT.Trie.Valid, NI.Index.Valid, RL.List.Valid, Weight, Zeros, Covers, Indexed, Shown, Find,
        MC.Books, Shed, MC.ShedLog, MC.Charged, MC.Outgrown, MC.CountReplace, MC.ReplaceLog, MC.ReplaceOver, Replaced,
        Protects;
      var id, walked := Lookup(key, false);
      if id == RL.NIL {
        return false, [];
      }
      found := true;
      ghost var i, es := Find(Order(), key), Order();
      var stays;
      log, stays := Overwrite(key, id, walked, value, w, i);
      ListLen(list);
      MC.ShedEmpty(shed, None, named);
      if (stays || list.len != 0) && shed.Some? {
        ghost var before := n;
        var more := ShedPass(shed.value, if stays then id else RL.NIL,
                             if stays then Some(Entry(key, value, w)) else None);
        MC.PresAfter(MC.CountReplace(old(n), es, i, w, maxSize), before, |MC.ReplaceLog(es, i, w, maxSize, named)|,
                     |more|, n);
        log := log + more;
      }
    }

    /** An entry that has grown too large for its place is evicted for capacity. */
    method EraseGrown(key: Bytes, id: int, ghost i: nat) returns (x: MC.Notice)
      requires Valid() && i < |list.order| && list.order[i] == id && Order()[i].key == key
      modifies this, trie, list, index
      ensures Valid() && Order() == old(Drop(Order(), i)) && x == old(MC.NoticeOf(Order()[i], MC.Capacity, named))
      ensures accepted == old(accepted)
      ensures n == old(MC.Evicted(n.(selfEvicted := n.selfEvicted + 1), MC.Capacity, Order()[i].weight))
    {
      hide InStep, AT.Trie.Valid, NI.Index.Valid, RL.List.Valid, Weight, Zeros, Covers, Indexed, Drop, Shown;
      NodeFacts(trie.nodes, trie.path, weights, list.order, known, i);
      SumDrop(Order(), i);
      DropLen(Order(), i);
      x := EraseNode(id, MC.Capacity, Some(key), i, 0);
      n := n.(selfEvicted := n.selfEvicted + 1);
    }

    /** deleteNonEmptyPrefixLocked: what the map engine's full scan would leave, in the same order. */
    method DeletePrefix(prefix: Bytes, shed: Option<MC.Sample>) returns (deleted: seq<MC.Notice>, more: seq<MC.Notice>)
      requires Valid() && prefix != []
      modifies this, trie, list, index
      ensures Valid() && accepted == old(accepted) && multiset(deleted) == old(MC.MatchedLog(Order(), prefix, named))
      ensures if deleted == [] then Order() == old(Order()) == old(MC.Unmatched(Order(), prefix)) && more == []
              else && Order() == old(MC.After(MC.Unmatched(Order(), prefix), shed, None))
                   && more == old(MC.AfterLog(MC.Unmatched(Order(), prefix), shed, None, named))
      ensures MC.Charged(old(n).(delCount := old(n).delCount + |deleted|, delWeight := n.delWeight), n, 0, |more|)
    {
      hide InStep, AT.Trie.Valid, NI.Index.Valid, RL.List.Valid, Trie.WellLinked, Weight, Zeros, Covers, Indexed, Shown,
        MC.Unmatched, TC.Shrinks, MC.MatchedLog, Shed, MC.ShedLog, MC.Books;
      more := [];
      deleted := DeleteBelow(prefix);
      ListLen(list);
      MC.ShedEmpty(shed, None, named);
      if deleted != [] && list.len != 0 && shed.Some? {
        more := ShedPass(shed.value, RL.NIL, None);
      }
    }

    /** A reported node leaves the index, the totals and the list (evictSubtreeValueNodeLocked). */
    method DropReported(events: seq<TS.Event>, k: nat, ghost ns: Nodes, ghost pt: Paths, ghost ids: seq<int>,
        ghost prefix: Bytes)
      returns (x: MC.Notice, ghost w: nat)
      requires list.Valid() && InStep() && Sweep(ns, pt, weights, ids, list.order, known, prefix, events, k)
      requires k < |events|
      requires size == Weight(Shown(ns, pt, weights, list.order)) && zeros == Zeros(Shown(ns, pt, weights, list.order))
      requires MC.Books(n, accepted, |list.order|, size)
      modifies this`known, this`size, this`zeros, this`n, list, index
      ensures list.Valid() && InStep() && Sweep(ns, pt, weights, ids, list.order, known, prefix, events, k + 1)
      ensures size == Weight(Shown(ns, pt, weights, list.order)) <= old(size)
      ensures zeros == Zeros(Shown(ns, pt, weights, list.order))
      ensures MC.Books(n, accepted, |list.order|, size) && |list.order| == old(|list.order|) - 1
      ensures n == old(MC.Evicted(n, MC.Deleted, w))
      ensures old(MC.MatchedLog(Shown(ns, pt, weights, list.order), prefix, named))
           == multiset{x} + MC.MatchedLog(Shown(ns, pt, weights, list.order), prefix, named)
    {
      hide EntryOf, NI.Index.Valid, RL.List.Valid, Trie.WellLinked, Weight, Zeros, Covers, Indexed, Shown, Sweep,
        MC.Unmatched, MC.MatchedLog, InStep, Drop, RL.Without, RL.IndexOf, MC.Books, MC.Evicted, MC.NoticeOf;
      var id := events[k].id;
      ghost var now, cur, keys := list.order, Shown(ns, pt, weights, list.order), known;
      ghost var i := SweepNext(ns, pt, weights, ids, now, keys, prefix, events, k);
      w := cur[i].weight;
      MC.MatchedDrop(cur, prefix, named, i);
      DropLen(cur, i);
      x := NoticeFor(events[k], named);
      EventNotice(events[k], cur[i], named);
      SweepStep(ns, pt, weights, ids, now, keys, prefix, events, k, i);
      Unlist(id, MC.Deleted, true, i, cur, 0);
    }

    /** The trie loses the matching entries and reports each of them. */
    method SeverBelow(prefix: Bytes) returns (events: seq<TS.Event>)
      requires Valid() && prefix != []
      modifies trie
      ensures trie.Valid() && InStep()
      ensures Sweep(old(trie.nodes), old(trie.path), weights, list.order, list.order, known, prefix, events, 0)
      ensures TC.Shrinks(old(trie.nodes), old(trie.path), trie.nodes, trie.path,
                         set x | x in Trie.Contents(old(trie.nodes), old(trie.path)) && prefix <= x)
    {
      hide Trie.Contents, TO.Lex, AT.Trie.Valid, NI.Index.Valid, RL.List.Valid, Trie.WellLinked, Weight, Zeros, Covers,
        Indexed, Shown, Sweep, TC.Shrinks, InStep, MC.Books, TS.IsEntry;
      ghost var ns, pt := trie.nodes, trie.path;
      TrieLinked(trie);
      var edits;
      events, edits := trie.DeletePrefix(prefix);
      SweepStart(ns, pt, weights, list.order, known, prefix, events);
    }

    /** The matching subtree is severed and swept, and every reported node leaves the index and the list. */
    method DeleteBelow(prefix: Bytes) returns (deleted: seq<MC.Notice>)
      requires Valid() && prefix != []
      modifies this, trie, list, index
      ensures Valid() && accepted == old(accepted) && Order() == old(MC.Unmatched(Order(), prefix))
      ensures |deleted| == |old(Order())| - |Order()|
      ensures multiset(deleted) == old(MC.MatchedLog(Order(), prefix, named))
      ensures (deleted == [] ==> Order() == old(Order()))
      ensures MC.DelCharged(old(n), n, |deleted|)
    {
      hide Trie.Contents, EntryOf, TO.Lex, AT.Trie.Valid, NI.Index.Valid, RL.List.Valid, Trie.WellLinked, Weight, Zeros,
        Covers, Indexed, Shown, Sweep, MC.Unmatched, TC.Shrinks, MC.MatchedLog, InStep, Drop, RL.Without, RL.IndexOf,
        MC.Books, TS.IsEntry, MC.DelCharged, MC.Evicted, MC.NoticeOf;
      ghost var ns, pt, ws, ids, es := trie.nodes, trie.path, weights, list.order, Order();
      TrieLinked(trie);
      deleted := [];
      MC.NoneDeleted(n);
      var events := SeverBelow(prefix);
      var k := 0;
      while k < |events|
        invariant 0 <= k <= |events| && list.Valid() && trie.Valid() && weights == ws && InStep()
        invariant Sweep(ns, pt, ws, ids, list.order, known, prefix, events, k)
        invariant size == Weight(Shown(ns, pt, ws, list.order)) <= maxSize
        invariant zeros == Zeros(Shown(ns, pt, ws, list.order))
        invariant TC.Shrinks(ns, pt, trie.nodes, trie.path, set x | x in Trie.Contents(ns, pt) && prefix <= x)
        invariant multiset(deleted) + MC.MatchedLog(Shown(ns, pt, ws, list.order), prefix, named)
                  == MC.MatchedLog(es, prefix, named)
        invariant |deleted| == k && |list.order| == |ids| - k && (k == 0 ==> list.order == ids)
        invariant MC.DelCharged(old(n), n, k) && accepted == old(accepted)
        invariant MC.Books(n, accepted, |list.order|, size)
      {
        ghost var before := n;
        var x;
        ghost var w;
        x, w := DropReported(events, k, ns, pt, ids, prefix);
        MC.DelMore(old(n), before, k, w);
        deleted := deleted + [x];
        k := k + 1;
      }
      SweepEnd(ns, pt, ws, ids, list.order, known, prefix, events, trie.nodes, trie.path, named);
    }

    /** compactHashSlotsLocked after the nodes have moved. */
    method MoveIndex(live: seq<int>, ren: map<int, int>, ghost ns: Nodes, ghost pt: Paths, ghost ws: Weights,
        ghost ids: seq<int>)
      requires index.Valid() && RN.Fits(ns, pt, live, ren) && Covers(ns, pt, ws, ids) && Indexed(index.keys, pt, ids)
      requires trie.nodes == RN.NewNodes(ns, live, ren) && forall x :: x in ren ==> 0 <= x && 0 <= ren[x]
      modifies index
      ensures index.Valid() && Indexed(index.keys, RN.NewPaths(pt, live), RL.Renamed(ids, ren))
    {
      hide NI.Index.Valid, Trie.WellLinked, Covers, Indexed, RN.Fits, NI.Relabel, RL.Renamed, NI.SetOf;
      ghost var keys := index.keys;
      var order := ValueIds(trie.nodes);
      var renNat := Positive(ren);
      RenumberIndex(ns, pt, ws, ids, keys, live, ren, renNat, order);
      MovedIndex(ns, pt, ws, ids, keys, live, ren, renNat);
      index.Renumber(renNat, order);
    }

    /** compactDataStructuresLocked: every structure is renumbered; the shown order is the same, and no ids are free. */
    method Compact()
      requires Valid() && indexed
      modifies this, trie, list, index
      ensures Valid() && Order() == old(Order()) && n == old(n) && accepted == old(accepted)
      ensures trie.free == [] && |trie.nodes| == |trie.path| && trie.Entries() == old(trie.Entries())
    {
      hide AT.Trie.Valid, NI.Index.Valid, RL.List.Valid, Trie.WellLinked, Weight, Zeros, Covers, Indexed, Shown,
        RN.Fits, RN.Numbers, NewWeights, RL.Renamed, RN.NewPaths, RN.NewNodes, Trie.Contents, MC.Books;
      ghost var ns, pt, ws, ids := trie.nodes, trie.path, weights, list.order;
      var live, ren := trie.Compact();
      NumberFacts(ns, pt, ws, ids, live, ren);
      MovedShown(ns, pt, ws, ids, live, ren);
      PathCount(trie.path, live, pt);
      list.Renumber(live, ren);
      MoveIndex(live, ren, ns, pt, ws, ids);
      known := index.keys;
      weights := NewWeights(weights, live);
    }

    /** The notices along the links from the head, as evictAllForClearLocked makes them. */
    method ListNotices() returns (log: seq<MC.Notice>)
      requires Valid()
      ensures log == MC.ClearLog(Order(), named)
    {
      hide InStep, AT.Trie.Valid, NI.Index.Valid, RL.List.Valid, Weight, Zeros, Covers, Indexed, MC.Books;
      log := [];
      Ends(list);
      ListLen(list);
      ListNotNil(list);
      var id := if list.len == 0 then RL.NIL else list.head;
      ghost var i := 0;
      while id != RL.NIL
        invariant 0 <= i <= |list.order| && id == RL.At(list.order, i)
        invariant |log| == i && forall k :: 0 <= k < i ==> log[k] == MC.NoticeOf(Order()[k], MC.Deleted, named)
        decreases |list.order| - i
      {
        NodeFacts(trie.nodes, trie.path, weights, list.order, known, i);
        var key := KeyFor(id);
        log := log + [MC.Notice(key, trie.nodes[id].value.value, MC.Deleted)];
        After(list, i);
        id := list.next[id];
        i := i + 1;
      }
    }

    method ResetIndex()
      modifies this`known, index
      ensures InStep() && known == map[]
    {
      hide NI.Index.Valid, NI.Pow2, NI.HasHash;
      Sixteen();
      known := map[];
      if indexed {
        index.Reset(NI.MIN_CAP);
      }
    }

    /** deleteAllPrefixLocked: the empty prefix clears every structure. */
    method Clear() returns (log: seq<MC.Notice>)
      requires Valid()
      modifies this, trie, list, index
      ensures Valid() && Order() == [] && accepted == old(accepted) && log == old(MC.ClearLog(Order(), named))
      ensures n == old(n.(delCount := n.delCount + |Order()|, delWeight := n.delWeight + size))
    {
      hide EntryOf, AT.Trie.Valid, NI.Index.Valid, RL.List.Valid, Trie.WellLinked, Covers, Trie.Contents, Shown, InStep,
        Weight, Zeros;
      ListLen(list);
      log := ListNotices();
      n := n.(delCount := n.delCount + list.len, delWeight := n.delWeight + size);
      trie.Clear();
      list.Clear();
      ResetIndex();
      weights, size, zeros := map[], 0, 0;
      FreshTrie(trie);
      Starts(this);
    }
  }

  /** What the rest of a pass leaves and evicts when the first `i` entries are still to come. */
  function ShedFrom(es: Order, i: int, g: Goals, prot: Option<Entry>): Order {
    if 0 <= i <= |es| then Shed(es[..i], es[i..], g, prot) else es
  }

  function LogFrom(es: Order, i: int, g: Goals, prot: Option<Entry>, named: bool): seq<MC.Notice> {
    if 0 <= i <= |es| then MC.ShedLog(es[..i], es[i..], g, prot, named) else []
  }

  /** The protected entry sits at a node of the list, or nothing is protected. */
  ghost predicate Protects(es: Order, ids: seq<int>, prot: Option<Entry>, protId: int) {
    if prot.None? then protId == RL.NIL
    else protId != RL.NIL && exists p :: 0 <= p < |ids| && p < |es| && ids[p] == protId && es[p] == prot.value
  }

  lemma NoProtection(c: Cache)
    ensures Protects(c.Order(), c.list.order, None, RL.NIL)
  {
  }

  lemma ProtectedNode(c: Cache, prot: Option<Entry>, protId: int)
    requires c.Valid() && Protects(c.Order(), c.list.order, prot, protId)
    ensures protId == RL.NIL <==> prot.None?
    ensures prot.Some? ==> protId in c.weights && c.weights[protId] == prot.value.weight
  {
  }

  /** Comparing node ids is comparing keys. */
  lemma VictimIsProtected(c: Cache, prot: Option<Entry>, protId: int, i: nat)
    requires c.Valid() && Protects(c.Order(), c.list.order, prot, protId) && i < |c.list.order|
    ensures c.list.order[i] == protId <==> IsProt(c.Order()[i], prot)
  {
    hide Weight, Zeros, MC.Books, NI.Index.Valid, AT.Trie.Valid, Trie.WellLinked, Indexed;
    TrieLinked(c.trie);
    ShownDistinct(c.trie.nodes, c.trie.path, c.weights, c.list.order);
    NotNil(c.list, i);
  }

  lemma ProtectsStill(es: Order, ids: seq<int>, prot: Option<Entry>, protId: int, i: nat)
    requires Protects(es, ids, prot, protId) && i < |ids| == |es| && ids[i] != protId
    ensures Protects(Drop(es, i), RL.Without(ids, i), prot, protId)
  {
    if prot.Some? {
      var p :| 0 <= p < |ids| && p < |es| && ids[p] == protId && es[p] == prot.value;
      var q := if p < i then p else p - 1;
      assert RL.Without(ids, i)[q] == protId && Drop(es, i)[q] == prot.value;
    }
  }

  lemma FromStart(es: Order, g: Goals, prot: Option<Entry>, named: bool)
    ensures ShedFrom(es, |es|, g, prot) == Shed(es, [], g, prot)
    ensures LogFrom(es, |es|, g, prot, named) == MC.ShedLog(es, [], g, prot, named)
  {
    assert es[..|es|] == es && es[|es|..] == [];
  }

  lemma FromEnd(es: Order, g: Goals, prot: Option<Entry>, named: bool)
    ensures ShedFrom(es, 0, g, prot) == es && LogFrom(es, 0, g, prot, named) == []
  {
    MC.ShedDone(es, g, prot, named);
  }

  /** With the byte goal met and no weightless entries the pass does nothing. */
  lemma NothingToShed(es: Order, p: MC.Sample, prot: Option<Entry>, named: bool)
    requires Weight(es) <= p.target && Zeros(es) == 0 && !p.retentionZero
    ensures MC.After(es, Some(p), prot) == es && MC.AfterLog(es, Some(p), prot, named) == []
  {
    assert es + [] == es;
  }

  lemma NotNil(l: RL.List, i: nat)
    requires l.Valid() && i < |l.order|
    ensures l.order[i] != RL.NIL
  {
    assert RL.LinkOk(l.order, l.prev, l.next, i);
  }

  lemma ListNotNil(l: RL.List)
    requires l.Valid()
    ensures forall i :: 0 <= i < |l.order| ==> l.order[i] != RL.NIL
  {
    forall i | 0 <= i < |l.order|
      ensures l.order[i] != RL.NIL
    {
      NotNil(l, i);
    }
  }

  lemma Before(l: RL.List, i: nat)
    requires l.Valid() && i < |l.order|
    ensures l.order[i] in l.prev && l.prev[l.order[i]] == RL.At(l.order, i - 1)
  {
    assert RL.LinkOk(l.order, l.prev, l.next, i);
  }

  lemma After(l: RL.List, i: nat)
    requires l.Valid() && i < |l.order|
    ensures l.order[i] in l.next && l.next[l.order[i]] == RL.At(l.order, i + 1)
  {
    assert RL.LinkOk(l.order, l.prev, l.next, i);
  }

  lemma Sixteen()
    ensures NI.Pow2(4) == NI.MIN_CAP
  {
  }

  lemma NoValues(ns: Nodes, pt: Paths)
    requires Trie.WellLinked(ns, pt) && Trie.Contents(ns, pt) == map[]
    ensures Covers(ns, pt, map[], [])
  {
    forall id | id in pt && 0 <= id < |ns|
      ensures !ns[id].value.Some?
    {
      TC.EntryAt(ns, pt, id);
    }
  }

  /** An empty cache is valid. */
  lemma Starts(c: Cache)
    requires c.trie.Valid() && c.list.Valid() && c.InStep()
    requires Covers(c.trie.nodes, c.trie.path, c.weights, c.list.order)
    requires |c.known| == |c.list.order| == 0 && 0 < c.maxSize && c.size == c.zeros == 0
    requires MC.Books(c.n, c.accepted, 0, 0)
    ensures c.Valid() && |c.Order()| == 0
  {
    hide AT.Trie.Valid, NI.Index.Valid, RL.List.Valid, Covers, Weight, Zeros, MC.Books, EntryOf, Cache.InStep;
    SumEmpty(c.Order());
  }

  lemma NoBooks()
    ensures MC.Books(MC.ZERO, 0, 0, 0)
  {
  }

  lemma SumEmpty(es: Order)
    requires |es| == 0
    ensures Weight(es) == 0 && Zeros(es) == 0
  {
  }

  lemma FreshTrie(t: AT.Trie)
    requires t.Valid() && t.Entries() == map[]
    ensures Covers(t.nodes, t.path, map[], [])
  {
    NoValues(t.nodes, t.path);
  }

  /** The edges on the way up spell the keys of a valid trie. */
  lemma TrieReads(t: AT.Trie)
    requires t.Valid()
    ensures TS.Spelled(t.nodes, t.path) && TK.KeyLensOk(t.nodes, t.path)
  {
    TS.LinkedSpelled(t.nodes, t.path);
    hide Trie.WellLinked, TS.Spelled;
  }

  lemma IndexReads(keys: map<nat, Bytes>, pt: Paths, ids: seq<int>)
    requires Indexed(keys, pt, ids)
    ensures forall id :: id in keys ==> id in pt && pt[id] == keys[id]
  {
  }

  lemma SameListed(ns: Nodes, pt: Paths, ws: Weights, ids: seq<int>, keys: map<nat, Bytes>)
    requires Covers(ns, pt, ws, ids) && Indexed(keys, pt, ids)
    ensures |keys| == |ids|
  {
    IndexSize(keys, pt, ids);
  }

  /** A known node is found at the position of its key. */
  lemma KeyListed(ns: Nodes, pt: Paths, ws: Weights, ids: seq<int>, keys: map<nat, Bytes>, id: nat)
    requires Trie.WellLinked(ns, pt) && Covers(ns, pt, ws, ids) && Indexed(keys, pt, ids) && id in keys
    ensures id in ids && id in pt && pt[id] == keys[id] && id != RL.NIL
    ensures Find(Shown(ns, pt, ws, ids), keys[id]) < |ids| && ids[Find(Shown(ns, pt, ws, ids), keys[id])] == id
  {
    FindNode(ns, pt, ws, ids, RL.IndexOf(ids, id));
  }

  lemma KeyUnlisted(ns: Nodes, pt: Paths, ws: Weights, ids: seq<int>, keys: map<nat, Bytes>, key: Bytes)
    requires Trie.WellLinked(ns, pt) && Covers(ns, pt, ws, ids) && Indexed(keys, pt, ids)
    requires forall id :: id in keys ==> keys[id] != key
    ensures Find(Shown(ns, pt, ws, ids), key) == |ids| && key !in Trie.Contents(ns, pt)
  {
    FindNone(ns, pt, ws, ids, key);
    AbsentNode(ns, pt, ws, ids, key);
  }

  /** The node a walk finds is a known one. */
  lemma NodeListed(ns: Nodes, pt: Paths, ws: Weights, ids: seq<int>, keys: map<nat, Bytes>, key: Bytes, id: int)
    requires Covers(ns, pt, ws, ids) && Indexed(keys, pt, ids) && Trie.Holds(ns, pt, key, id)
    ensures 0 <= id && id in keys && keys[id] == key
  {
  }

  lemma TrieLinked(t: AT.Trie)
    requires t.Valid()
    ensures Trie.WellLinked(t.nodes, t.path)
  {
  }

  /** What is known of the node at position `i` of the list. */
  lemma NodeFacts(ns: Nodes, pt: Paths, ws: Weights, ids: seq<int>, keys: map<nat, Bytes>, i: nat)
    requires Covers(ns, pt, ws, ids) && Indexed(keys, pt, ids) && i < |ids|
    ensures var id := ids[i];
            && id in ids && id in pt && 0 <= id < |ns| && ns[id].value.Some? && id in ws && id in keys
            && keys[id] == pt[id]
            && RL.IndexOf(ids, id) == i && EntryOf(ns, pt, ws, id) == Entry(pt[id], ns[id].value.value, ws[id])
  {
    OnlyPosition(ids, i, ids[i]);
  }

  lemma IndexedErased(keys: map<nat, Bytes>, ns: Nodes, pt: Paths, ws: Weights, ids: seq<int>, i: nat, pt': Paths)
    requires Covers(ns, pt, ws, ids) && Indexed(keys, pt, ids) && i < |ids| && 0 <= ids[i]
    requires forall id :: id in RL.Without(ids, i) ==> id in pt' && pt'[id] == pt[id]
    ensures Indexed(keys - {ids[i]}, pt', RL.Without(ids, i))
  {
    RL.WithoutDistinct(ids, i);
  }

  lemma IndexedInserted(keys: map<nat, Bytes>, ns: Nodes, pt: Paths, ws: Weights, ids: seq<int>, pt': Paths, id: int,
      key: Bytes)
    requires Covers(ns, pt, ws, ids) && Indexed(keys, pt, ids) && id !in ids && 0 <= id && id in pt' && pt'[id] == key
    requires forall x :: x in ids ==> x in pt' && pt'[x] == pt[x]
    requires forall x :: x in ids ==> pt[x] != key
    ensures Indexed(keys[id := key], pt', [id] + ids) && id !in keys && forall x :: x in keys ==> keys[x] != key
  {
  }

  lemma OnlyPosition(ids: seq<int>, i: nat, id: int)
    requires RL.NoRepeats(ids) && i < |ids| && ids[i] == id
    ensures RL.IndexOf(ids, id) == i
  {
  }

  lemma AbsentNode(ns: Nodes, pt: Paths, ws: Weights, ids: seq<int>, key: Bytes)
    requires Trie.WellLinked(ns, pt) && Covers(ns, pt, ws, ids) && Find(Shown(ns, pt, ws, ids), key) == |ids|
    ensures key !in Trie.Contents(ns, pt)
    ensures forall id :: id in ids ==> pt[id] != key
  {
    var es := Shown(ns, pt, ws, ids);
    forall id | id in ids
      ensures pt[id] != key
    {
      var i := RL.IndexOf(ids, id);
      assert es[i].key != key;
    }
    Trie.ContentsAt(ns, pt, key);
    forall id | Trie.Holds(ns, pt, key, id)
      ensures id in ids
    {
    }
  }

  /** The node of a new key was not in the list, and had no value if it existed. */
  lemma InsertedNode(ns: Nodes, pt: Paths, ws: Weights, ids: seq<int>, ns': Nodes, pt': Paths, id: int)
    requires Trie.WellLinked(ns, pt) && Covers(ns, pt, ws, ids) && TC.Extends(ns, pt, ns', pt', id) && id in pt'
    requires pt'[id] !in Trie.Contents(ns, pt)
    ensures id !in ids && (id in pt && 0 <= id < |ns| ==> ns[id].value == None)
    ensures forall x :: x in pt ==> 0 <= x < |ns|
    ensures forall x :: x in ids ==> x in pt' && pt'[x] == pt[x]
  {
    forall x | x in pt
      ensures 0 <= x < |ns|
    {
      TC.EntryAt(ns, pt, x);
    }
    if id in pt {
      TC.EntryAt(ns, pt, id);
    }
  }

  predicate FrontWeighs(es: Order, w: nat) {
    es != [] && es[0].weight == w
  }

  /** The first entry and what remains of the others when it changes to weight `w`. */
  function WithRoom(es: Order, w: nat, max: nat, once: bool): Order {
    if es == [] then [] else [es[0]] + UpdateRoom(es[1..], w, max, once)
  }

  function RoomLog(es: Order, w: nat, max: nat, once: bool, named: bool): seq<MC.Notice> {
    if es == [] then [] else TailLogOf(es[1..], UpdateRoom(es[1..], w, max, once), named)
  }

  function TailLogOf(es: Order, room: Order, named: bool): seq<MC.Notice> {
    if |room| <= |es| then MC.TailLog(es, |room|, named) else []
  }

  lemma LiveIds(t: AT.Trie)
    requires t.Valid()
    ensures forall x :: x in t.path ==> 0 <= x < |t.nodes|
  {
  }

  lemma IndexedSame(keys: map<nat, Bytes>, pt: Paths, ids: seq<int>, ids': seq<int>)
    requires Indexed(keys, pt, ids) && forall id :: id in ids' <==> id in ids
    ensures Indexed(keys, pt, ids')
  {
  }

  lemma FrontAndRest(es: Order)
    requires es != []
    ensures Weight(es) == es[0].weight + Weight(es[1..])
    ensures |es| > 1 ==> es[|es| - 1].weight <= Weight(es[1..])
  {
    assert es == [es[0]] + es[1..];
    SumCons(es[0], es[1..]);
  }

  lemma TailIsLast(l: RL.List, id: int)
    requires l.Valid() && l.order != [] && l.order[0] == id
    ensures l.tail == id <==> |l.order| == 1
  {
  }

  /** The eviction loop of an update has come from `es` to `now`: the front is the same, and the rest leads to the same
      room. */
  ghost predicate Made(es: Order, now: Order, w: nat, max: nat, once: bool, force: bool, named: bool,
      log: seq<MC.Notice>) {
    && es != [] && now != [] && now <= es
    && UpdateRoom(now[1..], w, max, force) == UpdateRoom(es[1..], w, max, once)
    && log == MC.TailLog(es[1..], |now| - 1, named)
  }

  lemma MadeStart(es: Order, w: nat, max: nat, once: bool, named: bool)
    requires es != []
    ensures Made(es, es, w, max, once, once, named, [])
  {
    hide UpdateRoom, Weight;
  }

  lemma MadeFront(es: Order, now: Order, w: nat, max: nat, once: bool, force: bool, named: bool, log: seq<MC.Notice>)
    requires Made(es, now, w, max, once, force, named, log)
    ensures now != [] && now[0] == es[0]
  {
  }

  lemma MadeStep(es: Order, now: Order, w: nat, max: nat, once: bool, force: bool, named: bool, log: seq<MC.Notice>)
    requires Made(es, now, w, max, once, force, named, log) && |now| > 1
    requires w > max - Weight(now[1..]) || force
    ensures Made(es, now[..|now| - 1], w, max, once, false, named,
                 log + [MC.NoticeOf(now[|now| - 1], MC.Capacity, named)])
  {
    hide Weight;
    var less := now[..|now| - 1];
    assert now[1..][..|now| - 2] == less[1..];
    assert es[1..][|now| - 2] == now[|now| - 1];
  }

  lemma MadeEnd(es: Order, now: Order, w: nat, max: nat, once: bool, force: bool, named: bool, log: seq<MC.Notice>)
    requires Made(es, now, w, max, once, force, named, log)
    requires |now| == 1 || (w <= max - Weight(now[1..]) && !force)
    ensures now == [es[0]] + UpdateRoom(es[1..], w, max, once)
    ensures log == TailLogOf(es[1..], UpdateRoom(es[1..], w, max, once), named)
  {
    hide Weight, MC.TailLog;
    assert now == [now[0]] + now[1..];
  }

  /** Both cases of the shrinking branch. */
  lemma ShrunkIs(es: Order, i: nat, value: Value, w: nat, max: nat, named: bool)
    requires i < |es| && Weight(es) <= max && w <= es[i].weight
    ensures var r, e, last := Replaced(es, i, value, w, max), Entry(es[i].key, value, w), |es| - 1;
            var log := MC.ReplaceLog(es, i, w, max, named);
            && Weight(r) <= max && |r| <= |es|
            && if es[i].weight > 0 && w == 0 && Zeros(es) >= max && i < last then
                 r == es[..last][i := e] && log == [MC.NoticeOf(es[last], MC.Capacity, named)]
               else r == es[i := e] && log == []
  {
    hide Weight, Zeros;
    ShrunkMeans(es, i, value, w, max);
    MC.SetShrunk(es, i, Entry(es[i].key, value, w));
  }

  lemma RoomFits(es: Order, w: nat, max: nat, once: bool)
    requires w <= max
    ensures Weight(UpdateRoom(es, w, max, once)) + w <= max && |UpdateRoom(es, w, max, once)| <= |es|
  {
    UpdateRoomLongest(es, w, max, once);
  }

  lemma FrontRest(e: Entry, es: Order)
    ensures ([e] + es)[1..] == es && forall x :: ([e] + es)[0 := x] == [x] + es
    ensures Weight([e] + es) == e.weight + Weight(es)
  {
    SumCons(e, es);
  }

  lemma ListLen(l: RL.List)
    requires l.Valid()
    ensures l.len == |l.order| && (l.tail == RL.NIL <==> l.order == [])
  {
    if l.order != [] {
      assert RL.LinkOk(l.order, l.prev, l.next, |l.order| - 1);
    }
  }

  lemma LastFits(es: Order)
    requires es != []
    ensures es[|es| - 1].weight <= Weight(es)
  {
  }

  lemma FindLess(es: Order, less: Order, key: Bytes)
    requires Find(es, key) == |es| && less <= es
    ensures Find(less, key) == |less|
  {
    var i := Find(less, key);
    assert forall k :: 0 <= k < |less| ==> less[k] == es[k];
  }

  lemma DropLen(es: Order, i: nat)
    requires i < |es|
    ensures |Drop(es, i)| == |es| - 1
  {
  }

  lemma Ends(l: RL.List)
    requires l.Valid()
    ensures RL.NoRepeats(l.order)
    ensures l.order != [] ==> l.head == l.order[0] && l.tail == l.order[|l.order| - 1]
  {
  }

  lemma Neighbours(l: RL.List, i: nat)
    requires l.Valid() && i < |l.order|
    ensures l.order[i] in l.next && l.order[i] in l.prev
    ensures i + 1 < |l.order| ==> l.next[l.order[i]] == l.order[i + 1]
    ensures 0 < i ==> l.prev[l.order[i]] == l.order[i - 1]
  {
    assert RL.LinkOk(l.order, l.prev, l.next, i);
  }

  lemma SamePlace(ids: seq<int>, i: nat, j: nat)
    requires RL.NoRepeats(ids) && i < |ids| && j < |ids|
    ensures ids[i] == ids[j] <==> i == j
  {
  }

  // ---------------------------------------------------------------------------------------------
  // DeletePrefix
  // ---------------------------------------------------------------------------------------------

  /** The reports are the matching entries of the list, each once. */
  ghost predicate Matches(ns: Nodes, pt: Paths, ws: Weights, ids: seq<int>, prefix: Bytes, events: seq<TS.Event>) {
    && (forall e :: e in events <==> TS.IsEntry(ns, pt, e.id, e) && prefix <= e.key)
    && (forall i, j :: 0 <= i < j < |events| ==> events[i].id != events[j].id)
  }

  /** After the first `k` reports: their nodes are gone from the list and the index, the others are as before. */
  ghost predicate Sweep(ns: Nodes, pt: Paths, ws: Weights, ids: seq<int>, now: seq<int>, keys: map<nat, Bytes>,
      prefix: Bytes, events: seq<TS.Event>, k: nat) {
    && Trie.WellLinked(ns, pt) && Covers(ns, pt, ws, ids) && Matches(ns, pt, ws, ids, prefix, events) && k <= |events|
    && RL.NoRepeats(now) && Indexed(keys, pt, now)
    && (forall id :: id in now ==> id in ids)
    && (forall j :: 0 <= j < k ==> events[j].id !in now)
    && (forall j :: k <= j < |events| ==> events[j].id in now)
    && (forall id :: id in ids && id !in now ==> id in pt && prefix <= pt[id])
    && MC.Unmatched(Shown(ns, pt, ws, now), prefix) == MC.Unmatched(Shown(ns, pt, ws, ids), prefix)
  }

  lemma SweepStart(ns: Nodes, pt: Paths, ws: Weights, ids: seq<int>, keys: map<nat, Bytes>, prefix: Bytes,
      events: seq<TS.Event>)
    requires Trie.WellLinked(ns, pt) && Covers(ns, pt, ws, ids) && Indexed(keys, pt, ids)
    requires forall e :: e in events <==> TS.IsEntry(ns, pt, e.id, e) && prefix <= e.key
    requires forall i, j :: 0 <= i < j < |events| ==> TO.Lex(events[i].key, events[j].key)
    ensures Sweep(ns, pt, ws, ids, ids, keys, prefix, events, 0)
  {
    forall i, j | 0 <= i < j < |events|
      ensures events[i].id != events[j].id
    {
      assert events[i] in events && events[j] in events;
      TO.DivSelf(events[i].key, events[i].key);
    }
    forall j | 0 <= j < |events|
      ensures events[j].id in ids
    {
      assert events[j] in events;
    }
  }

  /** The node of the next report is still listed. */
  lemma SweepNext(ns: Nodes, pt: Paths, ws: Weights, ids: seq<int>, now: seq<int>, keys: map<nat, Bytes>, prefix: Bytes,
      events: seq<TS.Event>, k: nat) returns (i: nat)
    requires Sweep(ns, pt, ws, ids, now, keys, prefix, events, k) && k < |events|
    ensures i < |now| && now[i] == events[k].id && RL.IndexOf(now, events[k].id) == i && 0 <= events[k].id
    ensures events[k].id in keys && events[k].id in ws && events[k].id in now
    ensures ws[events[k].id] <= Weight(Shown(ns, pt, ws, now))
    ensures Shown(ns, pt, ws, now)[i] == Entry(events[k].key, events[k].value, ws[events[k].id])
    ensures prefix <= events[k].key
  {
    var id := events[k].id;
    assert events[k] in events;
    i := RL.IndexOf(now, id);
    OnlyPosition(now, i, id);
    SumDrop(Shown(ns, pt, ws, now), i);
  }

  lemma SweepStep(ns: Nodes, pt: Paths, ws: Weights, ids: seq<int>, now: seq<int>, keys: map<nat, Bytes>, prefix: Bytes,
      events: seq<TS.Event>, k: nat, i: nat)
    requires Sweep(ns, pt, ws, ids, now, keys, prefix, events, k) && k < |events| && i < |now| && now[i] == events[k].id
    requires 0 <= now[i]
    ensures Sweep(ns, pt, ws, ids, RL.Without(now, i), keys - {now[i]}, prefix, events, k + 1)
    ensures Shown(ns, pt, ws, RL.Without(now, i)) == Drop(Shown(ns, pt, ws, now), i)
  {
    hide Trie.WellLinked, Shown, MC.Unmatched, Covers, Indexed, Matches, RL.Without, Drop;
    var less, id := RL.Without(now, i), now[i];
    RL.WithoutDistinct(now, i);
    EventIs(ns, pt, ws, ids, now, keys, prefix, events, k);
    ShownWithout(ns, pt, ws, now, i);
    MC.UnmatchedDrop(Shown(ns, pt, ws, now), prefix, i);
    IndexedWithout(keys, pt, now, i);
  }

  /** The next report is about a matching node that differs from the later ones. */
  lemma EventIs(ns: Nodes, pt: Paths, ws: Weights, ids: seq<int>, now: seq<int>, keys: map<nat, Bytes>, prefix: Bytes,
      events: seq<TS.Event>, k: nat)
    requires Sweep(ns, pt, ws, ids, now, keys, prefix, events, k) && k < |events|
    ensures var id := events[k].id;
            && id in pt && prefix <= pt[id] && id in now && EntryOf(ns, pt, ws, id).key == pt[id]
            && forall j :: k < j < |events| ==> events[j].id != id
  {
    assert events[k] in events;
  }

  lemma IndexedWithout(keys: map<nat, Bytes>, pt: Paths, ids: seq<int>, i: nat)
    requires RL.NoRepeats(ids) && Indexed(keys, pt, ids) && i < |ids| && 0 <= ids[i]
    ensures Indexed(keys - {ids[i]}, pt, RL.Without(ids, i))
  {
    RL.WithoutDistinct(ids, i);
  }

  lemma ShownWithout(ns: Nodes, pt: Paths, ws: Weights, ids: seq<int>, i: nat)
    requires i < |ids|
    ensures Shown(ns, pt, ws, RL.Without(ids, i)) == Drop(Shown(ns, pt, ws, ids), i)
  {
    var less := RL.Without(ids, i);
    var a, b := Shown(ns, pt, ws, less), Drop(Shown(ns, pt, ws, ids), i);
    forall k | 0 <= k < |less|
      ensures a[k] == b[k]
    {
      assert less[k] == ids[if k < i then k else k + 1];
    }
  }

  /** When all reports are handled, the list shows what the scan leaves, on the remaining trie. */
  lemma SweepEnd(ns: Nodes, pt: Paths, ws: Weights, ids: seq<int>, now: seq<int>, keys: map<nat, Bytes>, prefix: Bytes,
      events: seq<TS.Event>, ns': Nodes, pt': Paths, named: bool)
    requires Sweep(ns, pt, ws, ids, now, keys, prefix, events, |events|)
    requires TC.Shrinks(ns, pt, ns', pt', set k | k in Trie.Contents(ns, pt) && prefix <= k)
    ensures Covers(ns', pt', ws, now) && Indexed(keys, pt', now)
    ensures Shown(ns', pt', ws, now) == Shown(ns, pt, ws, now) == MC.Unmatched(Shown(ns, pt, ws, ids), prefix)
    ensures MC.MatchedLog(Shown(ns, pt, ws, now), prefix, named) == multiset{}
  {
    var gone := set k | k in Trie.Contents(ns, pt) && prefix <= k;
    forall id | id in now
      ensures !(prefix <= pt[id]) && id in pt' && pt'[id] == pt[id] && 0 <= id < |ns'| && ns'[id].value == ns[id].value
    {
      Unreported(ns, pt, ws, ids, now, prefix, events, id);
    }
    var a, b := Shown(ns, pt, ws, now), Shown(ns', pt', ws, now);
    forall i | 0 <= i < |now|
      ensures a[i] == b[i] && !(prefix <= a[i].key)
    {
      assert now[i] in now;
    }
    MC.UnmatchedAll(a, prefix, named);
    forall id | id in pt' && 0 <= id < |ns'| && ns'[id].value.Some?
      ensures id in now
    {
      TC.EntryAt(ns, pt, id);
      assert id in ids;
    }
  }

  function NoticeFor(e: TS.Event, named: bool): MC.Notice {
    MC.Notice(if named then Some(e.key) else None, e.value, MC.Deleted)
  }

  lemma EventNotice(e: TS.Event, x: Entry, named: bool)
    requires x.key == e.key && x.value == e.value
    ensures NoticeFor(e, named) == MC.NoticeOf(x, MC.Deleted, named)
  {
  }

  lemma Unreported(ns: Nodes, pt: Paths, ws: Weights, ids: seq<int>, now: seq<int>, prefix: Bytes,
      events: seq<TS.Event>, id: int)
    requires Covers(ns, pt, ws, ids) && Matches(ns, pt, ws, ids, prefix, events) && id in ids
    requires forall j :: 0 <= j < |events| ==> events[j].id !in now
    ensures id in now ==> !(prefix <= pt[id])
  {
    var e := TS.Event(id, pt[id], ns[id].value.value);
    if prefix <= pt[id] {
      assert e in events;
    }
  }

  // ---------------------------------------------------------------------------------------------
  // Compaction
  // ---------------------------------------------------------------------------------------------

  function NewWeights(ws: Weights, live: seq<int>): Weights {
    map k | 0 <= k < |live| && live[k] in ws :: ws[live[k]]
  }

  /** The ids of the nodes with a value, in increasing order. */
  method ValueIds(ns: Nodes) returns (order: seq<NI.Id>)
    ensures NI.NoDup(order) && forall k: nat :: k in order <==> k < |ns| && ns[k].value.Some?
  {
    order := [];
    for k := 0 to |ns|
      invariant forall x :: x in order ==> x < k
      invariant NI.NoDup(order) && forall x: nat :: x in order <==> x < k && ns[x].value.Some?
    {
      if ns[k].value.Some? {
        order := order + [k];
      }
    }
  }

  /** The renumbering as a table over ids. */
  function Positive(ren: map<int, int>): (r: map<NI.Id, NI.Id>)
    requires forall x :: x in ren ==> 0 <= x && 0 <= ren[x]
    ensures forall x: nat :: x in r <==> x in ren
    ensures forall x: nat :: x in r ==> r[x] == ren[x]
  {
    map x: NI.Id | x in ren :: ren[x]
  }

  lemma NumberFacts(ns: Nodes, pt: Paths, ws: Weights, ids: seq<int>, live: seq<int>, ren: map<int, int>)
    requires RN.Fits(ns, pt, live, ren) && Covers(ns, pt, ws, ids)
    ensures RL.NIL !in ren && forall k :: 0 <= k < |live| ==> live[k] in ren && ren[live[k]] == k && live[k] in pt
    ensures forall id :: id in ids ==> id in ren && 0 <= ren[id] < |live| && live[ren[id]] == id
    ensures forall x :: x in ren ==> 0 <= x && 0 <= ren[x]
  {
    forall x | x in ren
      ensures 0 <= x
    {
      assert 0 <= live[ren[x]] < |ns|;
    }
  }

  /** The new numbers of the listed nodes are exactly those the compaction walks over. */
  lemma RenumberIndex(ns: Nodes, pt: Paths, ws: Weights, ids: seq<int>, keys: map<nat, Bytes>, live: seq<int>,
      ren: map<int, int>, renNat: map<nat, nat>, order: seq<nat>)
    requires RN.Fits(ns, pt, live, ren) && Covers(ns, pt, ws, ids) && Indexed(keys, pt, ids)
    requires (forall x: nat :: x in renNat <==> x in ren) && forall x: nat :: x in renNat ==> renNat[x] == ren[x]
    requires forall k: nat :: k in order <==> k < |live| && RN.NewNodes(ns, live, ren)[k].value.Some?
    ensures keys.Keys <= renNat.Keys && NI.Injective(renNat)
    ensures NI.SetOf(order) == NI.Relabel(keys, renNat).Keys
  {
    forall x | x in keys
      ensures x in renNat && ns[x].value.Some?
    {
      assert x in ids;
    }
    forall k: nat | k in order
      ensures k in NI.Relabel(keys, renNat)
    {
      assert live[k] in ids && live[k] in keys;
    }
  }

  /** The entries of the list are the same under the new numbers. */
  lemma MovedShown(ns: Nodes, pt: Paths, ws: Weights, ids: seq<int>, live: seq<int>, ren: map<int, int>)
    requires RN.Fits(ns, pt, live, ren) && Covers(ns, pt, ws, ids)
    ensures var ws' := NewWeights(ws, live);
            && Shown(RN.NewNodes(ns, live, ren), RN.NewPaths(pt, live), ws', RL.Renamed(ids, ren))
               == Shown(ns, pt, ws, ids)
            && Covers(RN.NewNodes(ns, live, ren), RN.NewPaths(pt, live), ws', RL.Renamed(ids, ren))
  {
    var ws' := NewWeights(ws, live);
    var ns', pt', ids' := RN.NewNodes(ns, live, ren), RN.NewPaths(pt, live), RL.Renamed(ids, ren);
    forall i | 0 <= i < |ids|
      ensures ids[i] in ids && ids'[i] == ren[ids[i]] && live[ids'[i]] == ids[i]
    {
      assert ids[i] in ids;
    }
    var a, b := Shown(ns', pt', ws', ids'), Shown(ns, pt, ws, ids);
    forall i | 0 <= i < |ids|
      ensures a[i] == b[i]
    {
      assert ids[i] in ids;
    }
    forall k | k in pt' && 0 <= k < |ns'| && ns'[k].value.Some?
      ensures k in ids'
    {
      var i := RL.IndexOf(ids, live[k]);
      assert ids'[i] == k;
    }
  }

  lemma MovedIndex(ns: Nodes, pt: Paths, ws: Weights, ids: seq<int>, keys: map<nat, Bytes>, live: seq<int>,
      ren: map<int, int>, renNat: map<nat, nat>)
    requires RN.Fits(ns, pt, live, ren) && Covers(ns, pt, ws, ids) && Indexed(keys, pt, ids) && NI.Injective(renNat)
    requires (forall x: nat :: x in renNat <==> x in ren) && forall x: nat :: x in renNat ==> renNat[x] == ren[x]
    ensures Indexed(NI.Relabel(keys, renNat), RN.NewPaths(pt, live), RL.Renamed(ids, ren))
  {
    var keys', pt', ids' := NI.Relabel(keys, renNat), RN.NewPaths(pt, live), RL.Renamed(ids, ren);
    forall k: nat | k in keys'
      ensures k in ids'
    {
      var x :| x in keys && x in renNat && renNat[x] == k;
      var i := RL.IndexOf(ids, x);
      assert ids'[i] == k;
    }
    forall k | k in ids'
      ensures k in pt' && 0 <= k && k in keys' && keys'[k] == pt'[k]
    {
      var i := RL.IndexOf(ids', k);
      assert ids[i] in ids;
      NI.RelabelAt(keys, renNat, ids[i]);
    }
  }

  lemma PathCount(pt': Paths, live: seq<int>, pt: Paths)
    requires (forall k :: 0 <= k < |live| ==> live[k] in pt) && pt' == RN.NewPaths(pt, live)
    ensures |pt'| == |live|
  {
    RangeSize(pt', |live|);
  }

  lemma {:induction false} RangeSize(pt: Paths, n: nat)
    requires forall k :: k in pt <==> 0 <= k < n
    ensures |pt| == n
  {
    if n > 0 {
      RangeSize(pt - {n - 1}, n - 1);
      assert pt == (pt - {n - 1})[n - 1 := pt[n - 1]];
    } else {
      assert forall k :: k in pt.Keys ==> k in {};
      assert pt.Keys <= {};
    }
  }
}

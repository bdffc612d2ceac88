/**
 The recency list over whole runs: its order is that of the last uses, and each entry holds what was last
 written under its key.
 */
module Recency {
  import opened Bytes
  import opened LruPolicy
  import MC = MapCache
  import opened Engines

  /** The operation uses the key: an accepted Put or a Get. */
  predicate Uses(op: Op, max: nat, key: Bytes) {
    (op.Put? && op.key == key && op.weight <= max) || (op.Get? && op.key == key)
  }

  /** The position of the last use of a key in a run, -1 if there is none. */
  function LastUse(max: nat, ops: seq<Op>, key: Bytes): int {
    if ops == [] then -1
    else if Uses(ops[|ops| - 1], max, key) then |ops| - 1
    else LastUse(max, ops[..|ops| - 1], key)
  }

  datatype Content = Content(value: Value, weight: nat)

  /** What the last operation that writes or deletes the key leaves under it. */
  function LastContent(max: nat, ops: seq<Op>, key: Bytes): Option<Content> {
    if ops == [] then None
    else
      var before := ops[..|ops| - 1];
      match ops[|ops| - 1]
      case Put(k, value, w, _) =>
        if k == key && w <= max then Some(Content(value, w)) else LastContent(max, before, key)
      case Replace(k, value, w, _) => if k == key then Some(Content(value, w)) else LastContent(max, before, key)
      case Delete(k, _) => if k == key then None else LastContent(max, before, key)
      case DeletePrefix(prefix, _) => if prefix <= key then None else LastContent(max, before, key)
      case _ => LastContent(max, before, key)
  }

  // ---------------------------------------------------------------------------------------------
  // Orders that keep the order of another
  // ---------------------------------------------------------------------------------------------

  /** The keys of `r` are some of those of `es`, in the same order. */
  predicate Sub(r: Order, es: Order) {
    if r == [] then true
    else if es == [] then false
    else
      || (r[|r| - 1].key == es[|es| - 1].key && Sub(r[..|r| - 1], es[..|es| - 1]))
      || Sub(r, es[..|es| - 1])
  }

  lemma {:induction false} SubSelf(es: Order)
    ensures Sub(es, es)
  {
    if es != [] {
      SubSelf(es[..|es| - 1]);
    }
  }

  lemma {:induction false} SubSet(es: Order, i: nat, e: Entry)
    requires i < |es| && e.key == es[i].key
    ensures Sub(es[i := e], es)
  {
    var n := |es| - 1;
    if i == n {
      assert es[i := e][..n] == es[..n];
      SubSelf(es[..n]);
    } else {
      assert es[i := e][..n] == es[..n][i := e];
      SubSet(es[..n], i, e);
    }
  }

  lemma {:induction false} SubTrans(a: Order, b: Order, c: Order)
    requires Sub(a, b) && Sub(b, c)
    ensures Sub(a, c)
    decreases |b| + |c|
  {
    if a != [] {
      if Sub(b, c[..|c| - 1]) {
        SubTrans(a, b, c[..|c| - 1]);
      } else if Sub(a, b[..|b| - 1]) {
        SubTrans(a, b[..|b| - 1], c[..|c| - 1]);
      } else {
        SubTrans(a[..|a| - 1], b[..|b| - 1], c[..|c| - 1]);
      }
    }
  }

  lemma {:induction false} SubConcat(a: Order, b: Order, c: Order, d: Order)
    requires Sub(a, c) && Sub(b, d)
    ensures Sub(a + b, c + d)
    decreases |d|
  {
    if d == [] {
      assert a + b == a && c + d == c;
    } else {
      assert (c + d)[..|c + d| - 1] == c + d[..|d| - 1];
      if Sub(b, d[..|d| - 1]) {
        SubConcat(a, b, c, d[..|d| - 1]);
      } else {
        SubConcat(a, b[..|b| - 1], c, d[..|d| - 1]);
        assert (a + b)[..|a + b| - 1] == a + b[..|b| - 1];
      }
    }
  }

  lemma SubPrefix(r: Order, es: Order)
    requires r <= es
    ensures Sub(r, es)
  {
    SubSelf(r);
    SubNone(es[|r|..]);
    SubConcat(r, [], r, es[|r|..]);
    assert r + [] == r && r + es[|r|..] == es;
  }

  lemma SubNone(es: Order)
    ensures Sub([], es)
  {
  }

  lemma SubDrop(es: Order, i: nat)
    requires i < |es|
    ensures Sub(Drop(es, i), es)
  {
    hide Sub;
    var a, b := es[..i], es[i + 1..];
    SubPrefix(a, es[..i + 1]);
    SubSelf(b);
    SubConcat(a, b, es[..i + 1], b);
    assert es[..i + 1] + b == es;
  }

  lemma {:induction false} SubShed(es: Order, kept: Order, g: Goals, prot: Option<Entry>)
    ensures Sub(Shed(es, kept, g, prot), es + kept)
    decreases |es|
  {
    hide Weight, Zeros, Victim, NeedBytes, NeedZeros, Sub;
    if es == [] || !(NeedBytes(es + kept, g) || NeedZeros(es + kept, g)) {
      SubSelf(es + kept);
    } else {
      var v, rest := es[|es| - 1], es[..|es| - 1];
      assert es + kept == rest + ([v] + kept) && Drop(es + kept, |rest|) == rest + kept;
      if Victim(v, es + kept, g, prot) {
        SubShed(rest, kept, g, prot);
        SubDrop(es + kept, |rest|);
        SubTrans(Shed(rest, kept, g, prot), rest + kept, es + kept);
      } else {
        SubShed(rest, [v] + kept, g, prot);
      }
    }
  }

  lemma SubAfter(es: Order, shed: Option<MC.Sample>, prot: Option<Entry>)
    ensures Sub(MC.After(es, shed, prot), es)
  {
    hide Sub, Shed;
    SubSelf(es);
    if shed.Some? {
      SubShed(es, [], MC.GoalsOf(shed.value, es, prot), prot);
      assert es + [] == es;
    }
  }

  lemma {:induction false} SubUnmatched(es: Order, prefix: Bytes)
    ensures Sub(MC.Unmatched(es, prefix), es)
  {
    if es != [] {
      SubUnmatched(es[1..], prefix);
      var first := if prefix <= es[0].key then [] else [es[0]];
      SubNone([es[0]]);
      SubSelf(first);
      SubConcat(first, MC.Unmatched(es[1..], prefix), [es[0]], es[1..]);
      assert es == [es[0]] + es[1..];
    }
  }

  lemma SubReplaced(es: Order, i: nat, value: Value, w: nat, max: nat)
    requires i < |es|
    ensures Sub(Replaced(es, i, value, w, max), es)
  {
    hide Sub, Weight, Zeros, UpdateRoom, FitsInPlace;
    var e := Entry(es[i].key, value, w);
    SubDrop(es, i);
    SubSet(es, i, e);
    SubChanged(es, i, e, UpdateRoom(es[i + 1..], w + Weight(es[..i]), max, false));
  }

  /** The entry at `i` is changed, and some of the last ones go. */
  lemma SubChanged(es: Order, i: nat, e: Entry, room: Order)
    requires i < |es| && e.key == es[i].key && room <= es[i + 1..]
    ensures Sub(es[i := e][..|es| - 1], es) && Sub(es[..i] + [e] + room, es)
  {
    hide Sub;
    SubSet(es, i, e);
    PrefixSub(es[i := e][..|es| - 1], es[i := e], es);
    assert es[i := e] == es[..i] + [e] + es[i + 1..];
    PrefixConcat(es[..i] + [e], room, es[i + 1..]);
    PrefixSub(es[..i] + [e] + room, es[i := e], es);
  }

  lemma PrefixConcat(a: Order, b: Order, c: Order)
    requires b <= c
    ensures a + b <= a + c
  {
  }

  lemma PrefixSub(r: Order, all: Order, es: Order)
    requires r <= all && Sub(all, es)
    ensures Sub(r, es)
  {
    hide Sub;
    SubPrefix(r, all);
    SubTrans(r, all, es);
  }

  // ---------------------------------------------------------------------------------------------
  // The order of last uses
  // ---------------------------------------------------------------------------------------------

  /** The list is sorted by last use, the most recent first. */
  predicate Sorted(es: Order, max: nat, ops: seq<Op>) {
    forall i, j :: 0 <= i < j < |es| ==> LastUse(max, ops, es[i].key) > LastUse(max, ops, es[j].key)
  }

  lemma {:induction false} SubSorted(r: Order, es: Order, max: nat, ops: seq<Op>)
    requires Sub(r, es) && Sorted(es, max, ops)
    ensures Sorted(r, max, ops) && forall i :: 0 <= i < |r| ==> exists j :: 0 <= j < |es| && es[j].key == r[i].key
    decreases |es|
  {
    if r != [] {
      var front := es[..|es| - 1];
      if Sub(r, front) {
        SubSorted(r, front, max, ops);
        forall i | 0 <= i < |r|
          ensures exists j :: 0 <= j < |es| && es[j].key == r[i].key
        {
          var j :| 0 <= j < |front| && front[j].key == r[i].key;
          assert es[j].key == r[i].key;
        }
      } else {
        SubSorted(r[..|r| - 1], front, max, ops);
        forall i | 0 <= i < |r|
          ensures exists j :: 0 <= j < |es| && es[j].key == r[i].key && (i < |r| - 1 ==> j < |es| - 1)
        {
          if i < |r| - 1 {
            assert r[..|r| - 1][i] == r[i];
            var j :| 0 <= j < |front| && front[j].key == r[i].key;
            assert es[j].key == r[i].key;
          } else {
            assert es[|es| - 1].key == r[i].key;
          }
        }
      }
    }
  }

  /** The operation does not use these keys. */
  lemma SortedOn(es: Order, max: nat, ops: seq<Op>, op: Op)
    requires Sorted(es, max, ops) && forall i :: 0 <= i < |es| ==> !Uses(op, max, es[i].key)
    ensures Sorted(es, max, ops + [op])
  {
    var more := ops + [op];
    assert more[..|more| - 1] == ops;
  }

  lemma {:induction false} LastUseBound(max: nat, ops: seq<Op>, key: Bytes)
    ensures LastUse(max, ops, key) < |ops|
  {
    if ops != [] {
      LastUseBound(max, ops[..|ops| - 1], key);
    }
  }

  /** The used entry comes to the front. */
  lemma SortedFront(e: Entry, es: Order, max: nat, ops: seq<Op>, op: Op)
    requires Sorted(es, max, ops) && Uses(op, max, e.key) && forall i :: 0 <= i < |es| ==> es[i].key != e.key
    ensures Sorted([e] + es, max, ops + [op])
  {
    var more := ops + [op];
    assert more[..|more| - 1] == ops;
    forall i | 0 <= i < |es|
      ensures !Uses(op, max, es[i].key)
    {
    }
    SortedOn(es, max, ops, op);
    forall i | 0 <= i < |es|
      ensures LastUse(max, more, es[i].key) < |more| - 1
    {
      LastUseBound(max, ops, es[i].key);
    }
    forall i, j | 0 <= i < j < |[e] + es|
      ensures LastUse(max, more, ([e] + es)[i].key) > LastUse(max, more, ([e] + es)[j].key)
    {
      assert ([e] + es)[j] == es[j - 1];
      if i > 0 {
        assert ([e] + es)[i] == es[i - 1];
      }
    }
  }

  /** Sorted by last use, the keys differ. */
  lemma SortedDistinct(es: Order, max: nat, ops: seq<Op>)
    requires Sorted(es, max, ops)
    ensures Distinct(es)
  {
  }

  lemma OthersDiffer(es: Order, i: nat)
    requires Distinct(es) && i < |es|
    ensures forall k :: 0 <= k < |es| - 1 ==> Drop(es, i)[k].key != es[i].key
  {
    MC.DistinctDrop(es, i);
  }

  lemma PutSorted(es: Order, key: Bytes, value: Value, w: nat, max: nat, ops: seq<Op>, op: Op)
    requires Sorted(es, max, ops) && Uses(op, max, key)
    ensures Sorted(MC.PutOrder(es, key, value, w, max), max, ops + [op])
  {
    hide Weight, Zeros, Room, UpdateRoom, MC.Shrinks, Sub, Uses, Find;
    FoundAt(es, key);
    SortedDistinct(es, max, ops);
    var i := Find(es, key);
    if i == |es| {
      var room := Room(es, w, max, false);
      SubPrefix(room, es);
      SubSorted(room, es, max, ops);
      SortedFront(Entry(key, value, w), room, max, ops, op);
    } else {
      var others := Drop(es, i);
      var room := UpdateRoom(others, w, max, MC.Shrinks(es, i, w, max));
      OthersDiffer(es, i);
      SubDrop(es, i);
      SubSorted(others, es, max, ops);
      SubPrefix(room, others);
      SubSorted(room, others, max, ops);
      SortedFront(Entry(key, value, w), room, max, ops, op);
    }
  }

  lemma FoundAt(es: Order, key: Bytes)
    ensures Find(es, key) <= |es| && (Find(es, key) < |es| ==> es[Find(es, key)].key == key)
    ensures Find(es, key) == |es| ==> forall k :: 0 <= k < |es| ==> es[k].key != key
  {
  }

  lemma GetSorted(es: Order, key: Bytes, max: nat, ops: seq<Op>)
    requires Sorted(es, max, ops) && Find(es, key) < |es|
    ensures var i := Find(es, key); Sorted([es[i]] + Drop(es, i), max, ops + [Get(key)])
  {
    hide Sub, Find;
    FoundAt(es, key);
    SortedDistinct(es, max, ops);
    var i := Find(es, key);
    OthersDiffer(es, i);
    SubDrop(es, i);
    SubSorted(Drop(es, i), es, max, ops);
    SortedFront(es[i], Drop(es, i), max, ops, Get(key));
  }

  lemma StepSorted(es: Order, max: nat, ops: seq<Op>, op: Op)
    requires Sorted(es, max, ops)
    ensures Sorted(Next(es, max, op), max, ops + [op])
  {
    hide Sub, Find, MC.PutOrder, MC.After, Replaced, Drop, MC.Unmatched, NoMatch, Sorted, MC.Outgrown;
    FoundAt(es, OpKey(op));
    var more := ops + [op];
    match op
    case Put(key, value, w, shed) =>
      if w <= max {
        var put := MC.PutOrder(es, key, value, w, max);
        PutSorted(es, key, value, w, max, ops, op);
        SubAfter(put, shed, Some(Entry(key, value, w)));
        SubSorted(Next(es, max, op), put, max, more);
      } else {
        SortedOn(es, max, ops, op);
      }
    case Get(key) =>
      if Find(es, key) < |es| {
        GetSorted(es, key, max, ops);
      } else {
        SortedOn(es, max, ops, op);
      }
    case Delete(key, shed) =>
      SortedOn(es, max, ops, op);
      var i := Find(es, key);
      if i < |es| {
        SubDrop(es, i);
        SubAfter(Drop(es, i), shed, None);
        SubTrans(Next(es, max, op), Drop(es, i), es);
        SubSorted(Next(es, max, op), es, max, more);
      }
    case Replace(key, value, w, shed) =>
      SortedOn(es, max, ops, op);
      var i := Find(es, key);
      if i < |es| {
        var r := Replaced(es, i, value, w, max);
        SubReplaced(es, i, value, w, max);
        SubAfter(r, shed, Kept(es, i, value, w, max));
        SubTrans(Next(es, max, op), r, es);
        SubSorted(Next(es, max, op), es, max, more);
      }
    case DeletePrefix(prefix, shed) =>
      SortedOn(es, max, ops, op);
      SubNone(es);
      SubSelf(es);
      SubUnmatched(es, prefix);
      SubAfter(MC.Unmatched(es, prefix), shed, None);
      SubTrans(MC.After(MC.Unmatched(es, prefix), shed, None), MC.Unmatched(es, prefix), es);
      SubSorted(Next(es, max, op), es, max, more);
    case Evaluate(sample) =>
      SortedOn(es, max, ops, op);
      SubAfter(es, Some(sample), None);
      SubSorted(Next(es, max, op), es, max, more);
    case Compact =>
      SortedOn(es, max, ops, op);
  }

  function OpKey(op: Op): Bytes {
    match op
    case Put(key, _, _, _) => key
    case Get(key) => key
    case Delete(key, _) => key
    case Replace(key, _, _, _) => key
    case _ => []
  }

  lemma {:induction false} RunSorted(max: nat, ops: seq<Op>)
    ensures Sorted(Final([], max, ops), max, ops)
  {
    hide Sorted, Next;
    if ops == [] {
      NoneSorted(max);
    } else {
      var before := ops[..|ops| - 1];
      RunSorted(max, before);
      StepSorted(Final([], max, before), max, before, ops[|ops| - 1]);
      assert ops == before + [ops[|ops| - 1]];
    }
  }

  lemma NoneSorted(max: nat)
    ensures Sorted([], max, [])
  {
  }

  /** After every run the entries are in the order of their last uses, and every held entry has been used. */
  lemma OrderOfUse(max: nat, ops: seq<Op>, i: nat, j: nat)
    requires i < |Final([], max, ops)| && j < |Final([], max, ops)|
    ensures var es := Final([], max, ops);
            i < j <==> LastUse(max, ops, es[i].key) > LastUse(max, ops, es[j].key)
  {
    RunSorted(max, ops);
  }

  // ---------------------------------------------------------------------------------------------
  // The last contents
  // ---------------------------------------------------------------------------------------------

  ghost predicate Latest(es: Order, max: nat, ops: seq<Op>) {
    forall e :: e in es ==> LastContent(max, ops, e.key) == Some(Content(e.value, e.weight))
  }

  lemma AfterIn(es: Order, shed: Option<MC.Sample>, prot: Option<Entry>, e: Entry)
    requires e in MC.After(es, shed, prot)
    ensures e in es
  {
    hide Shed;
    if shed.Some? {
      assert es + [] == es;
      if es == [] {
        MC.ShedEmpty(shed, prot, false);
      } else {
        ShedKeeps(es, [], MC.GoalsOf(shed.value, es, prot), prot, es[0]);
      }
    }
  }

  lemma PutIn(es: Order, key: Bytes, value: Value, w: nat, max: nat, e: Entry)
    requires Distinct(es) && e in MC.PutOrder(es, key, value, w, max)
    ensures e == Entry(key, value, w) || (e in es && e.key != key)
  {
    hide Room, UpdateRoom, MC.Shrinks, Find, Weight, Zeros;
    FoundAt(es, key);
    var i := Find(es, key);
    if i < |es| {
      OthersDiffer(es, i);
      var room := UpdateRoom(Drop(es, i), w, max, MC.Shrinks(es, i, w, max));
      assert e != Entry(key, value, w) ==> e in room;
      assert forall x :: x in room ==> x in Drop(es, i);
    } else {
      var room := Room(es, w, max, false);
      assert e != Entry(key, value, w) ==> e in room;
      assert forall x :: x in room ==> x in es;
    }
  }

  /** Replace drops the entry, or changes it and drops some of the last ones. */
  lemma ReplacedShape(es: Order, i: nat, value: Value, w: nat, max: nat)
    requires i < |es|
    ensures var r := Replaced(es, i, value, w, max);
            r == Drop(es, i) || r <= es[i := Entry(es[i].key, value, w)]
  {
    hide UpdateRoom, FitsInPlace, Weight, Zeros;
    var e, room := Entry(es[i].key, value, w), UpdateRoom(es[i + 1..], w + Weight(es[..i]), max, false);
    assert es[i := e] == es[..i] + [e] + es[i + 1..];
    PrefixConcat(es[..i] + [e], room, es[i + 1..]);
  }

  lemma SetIn(es: Order, i: nat, changed: Entry, e: Entry)
    requires Distinct(es) && i < |es| && e in es[i := changed]
    ensures e == changed || (e in es && e.key != es[i].key)
  {
    var k :| 0 <= k < |es| && es[i := changed][k] == e;
    assert k != i ==> es[k].key != es[i].key;
  }

  lemma ReplacedIn(es: Order, i: nat, value: Value, w: nat, max: nat, e: Entry)
    requires Distinct(es) && i < |es| && e in Replaced(es, i, value, w, max)
    ensures e == Entry(es[i].key, value, w) || (e in es && e.key != es[i].key)
  {
    hide Replaced, Distinct;
    ReplacedShape(es, i, value, w, max);
    if e in Drop(es, i) {
      DropIn(es, i, e);
      DropGone(es, i, e);
    } else {
      SetIn(es, i, Entry(es[i].key, value, w), e);
    }
  }

  lemma StepLatest(es: Order, max: nat, ops: seq<Op>, op: Op)
    requires Distinct(es) && Latest(es, max, ops)
    ensures Latest(Next(es, max, op), max, ops + [op])
  {
    hide Find, MC.PutOrder, MC.After, Replaced, Drop, MC.Unmatched, NoMatch, Distinct;
    var more := ops + [op];
    assert more[..|more| - 1] == ops;
    FoundAt(es, OpKey(op));
    forall e | e in Next(es, max, op)
      ensures LastContent(max, more, e.key) == Some(Content(e.value, e.weight))
    {
      match op
      case Put(key, value, w, shed) =>
        if w <= max {
          AfterIn(MC.PutOrder(es, key, value, w, max), shed, Some(Entry(key, value, w)), e);
          PutIn(es, key, value, w, max, e);
        }
      case Get(key) =>
        if Find(es, key) < |es| {
          DropIn(es, Find(es, key), e);
        }
      case Delete(key, shed) =>
        if Find(es, key) < |es| {
          AfterIn(Drop(es, Find(es, key)), shed, None, e);
          DropIn(es, Find(es, key), e);
          DropGone(es, Find(es, key), e);
        } else {
          NotHeld(es, key, e);
        }
      case Replace(key, value, w, shed) =>
        var i := Find(es, key);
        if i < |es| {
          AfterIn(Replaced(es, i, value, w, max), shed, Kept(es, i, value, w, max), e);
          ReplacedIn(es, i, value, w, max, e);
        } else {
          NotHeld(es, key, e);
        }
      case DeletePrefix(prefix, shed) =>
        if prefix != [] {
          if !NoMatch(es, prefix) {
            AfterIn(MC.Unmatched(es, prefix), shed, None, e);
          } else {
            MatchNone(es, prefix);
          }
          MC.UnmatchedIn(es, prefix, e);
        }
      case Evaluate(sample) => AfterIn(es, Some(sample), None, e);
      case Compact =>
    }
  }

  lemma MatchNone(es: Order, prefix: Bytes)
    requires NoMatch(es, prefix)
    ensures MC.Unmatched(es, prefix) == es
  {
    MC.UnmatchedAll(es, prefix, false);
  }

  lemma DropIn(es: Order, i: nat, e: Entry)
    requires i < |es| && (e in Drop(es, i) || e == es[i])
    ensures e in es
  {
  }

  lemma DropGone(es: Order, i: nat, e: Entry)
    requires Distinct(es) && i < |es| && e in Drop(es, i)
    ensures e.key != es[i].key
  {
    OthersDiffer(es, i);
  }

  lemma NotHeld(es: Order, key: Bytes, e: Entry)
    requires Find(es, key) == |es| && e in es
    ensures e.key != key
  {
    FoundAt(es, key);
  }

  lemma {:induction false} RunLatest(max: nat, ops: seq<Op>)
    ensures Latest(Final([], max, ops), max, ops)
  {
    hide Latest, Next;
    if ops == [] {
      NoneLatest(max);
    } else {
      var before := ops[..|ops| - 1];
      RunLatest(max, before);
      RunSorted(max, before);
      SortedDistinct(Final([], max, before), max, before);
      StepLatest(Final([], max, before), max, before, ops[|ops| - 1]);
      assert ops == before + [ops[|ops| - 1]];
    }
  }

  lemma NoneLatest(max: nat)
    ensures Latest([], max, [])
  {
  }

  /** After every run an entry has the value and weight of the last operation that wrote its key, and no later operation
      has deleted it; so Get answers with that value or, if the entry was deleted or evicted, with nothing. */
  lemma LastWritten(max: nat, ops: seq<Op>, named: bool, key: Bytes)
    ensures var es := Final([], max, ops);
            && (forall e :: e in es ==> LastContent(max, ops, e.key) == Some(Content(e.value, e.weight)))
            && Reply(es, max, named, Get(key))
               == if exists e :: e in es && e.key == key then Found(Some(LastContent(max, ops, key).value.value), [])
                  else Found(None, [])
  {
    RunLatest(max, ops);
    var es := Final([], max, ops);
    FoundAt(es, key);
    if Find(es, key) < |es| {
      assert es[Find(es, key)] in es;
    }
  }
}

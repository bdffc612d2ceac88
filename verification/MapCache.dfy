/**
 The map engine (map_lru.go): Put, Get, Delete, Replace, DeletePrefix and shedding over a recency list,
 with the counters of pressure.go.  The invariant carries the entry bound and the conservation laws.
 */
module MapCache {
  import opened Bytes
  import opened LruPolicy

  datatype Reason = Capacity | Pressure | Deleted | Replaced

  /** What one callback is told.  The key is there when an entry callback is registered. */
  datatype Notice = Notice(key: Option<Bytes>, value: Value, reason: Reason)

  function NoticeOf(e: Entry, reason: Reason, named: bool): Notice {
    Notice(if named then Some(e.key) else None, e.value, reason)
  }

  /** Telemetry counters; `rep` counts replaced values. */
  datatype Counters = Counters(inserted: nat, updated: nat, replaced: nat, selfEvicted: nat, deleted: nat,
                               capCount: nat, capWeight: nat, presCount: nat, presWeight: nat,
                               delCount: nat, delWeight: nat, repCount: nat, repWeight: nat)

  const ZERO: Counters := Counters(0, 0, 0, 0, 0, 0, 0, 0, 0, 0, 0, 0, 0)

  /** Nothing has been counted yet. */
  predicate Blank(n: Counters) {
    n == ZERO
  }

  /** recordEviction. */
  function Evicted(n: Counters, reason: Reason, w: nat): Counters {
    match reason
    case Capacity => n.(capCount := n.capCount + 1, capWeight := n.capWeight + w)
    case Pressure => n.(presCount := n.presCount + 1, presWeight := n.presWeight + w)
    case Deleted => n.(delCount := n.delCount + 1, delWeight := n.delWeight + w)
    case Replaced => n.(repCount := n.repCount + 1, repWeight := n.repWeight + w)
  }

  /** Every inserted entry is live or was removed for one reason, and every accepted weight is live or accounted for. */
  predicate Books(n: Counters, accepted: nat, len: nat, size: nat) {
    && n.inserted == len + n.capCount + n.presCount + n.delCount
    && accepted == size + n.capWeight + n.presWeight + n.delWeight + n.repWeight
    && n.updated + n.replaced == n.repCount
    && n.selfEvicted <= n.capCount && n.deleted <= n.delCount
  }

  lemma BooksIn(n: Counters, accepted: nat, len: nat, size: nat, w: nat)
    requires Books(n, accepted, len, size)
    ensures Books(n.(inserted := n.inserted + 1), accepted + w, len + 1, size + w)
  {
  }

  /** `n'` is `n` after `caps` evictions for capacity and `pres` for pressure, and nothing else. */
  predicate Charged(n: Counters, n': Counters, caps: nat, pres: nat) {
    && n' == n.(capCount := n.capCount + caps, capWeight := n'.capWeight,
                presCount := n.presCount + pres, presWeight := n'.presWeight)
    && (caps == 0 ==> n'.capWeight == n.capWeight) && (pres == 0 ==> n'.presWeight == n.presWeight)
  }

  /** `n'` is `n` after `k` deletions, and nothing else. */
  predicate DelCharged(n: Counters, n': Counters, k: nat) {
    n' == n.(delCount := n.delCount + k, delWeight := n'.delWeight)
  }

  lemma NoneDeleted(n: Counters)
    ensures DelCharged(n, n, 0)
  {
  }

  lemma DelMore(n0: Counters, n: Counters, k: nat, w: nat)
    requires DelCharged(n0, n, k)
    ensures DelCharged(n0, Evicted(n, Deleted, w), k + 1)
  {
  }

  lemma NoneCharged(n: Counters)
    ensures Charged(n, n, 0, 0)
  {
  }

  lemma CapMore(n0: Counters, n: Counters, k: nat, w: nat)
    requires Charged(n0, n, k, 0)
    ensures Charged(n0, Evicted(n, Capacity, w), k + 1, 0)
  {
  }

  lemma PresMore(n0: Counters, n: Counters, k: nat, more: nat, n': Counters)
    requires Charged(n0, n, 0, k) && Charged(n, n', 0, more)
    ensures Charged(n0, n', 0, k + more)
  {
  }

  lemma PresAfter(n0: Counters, n: Counters, caps: nat, pres: nat, n': Counters)
    requires Charged(n0, n, caps, 0) && Charged(n, n', 0, pres)
    ensures Charged(n0, n', caps, pres)
  {
  }

  lemma PresOne(n: Counters, w: nat)
    ensures Charged(n, Evicted(n, Pressure, w), 0, 1)
  {
  }

  lemma ChargedIn(n0: Counters, n: Counters, k: nat)
    requires Charged(n0, n, k, 0)
    ensures Charged(n0.(inserted := n0.inserted + 1), n.(inserted := n.inserted + 1), k, 0)
  {
  }

  lemma ChargedChange(n0: Counters, n: Counters, k: nat, put: bool, w: nat)
    requires Charged(n0, n, k, 0)
    ensures Charged(Changed(n0, put, w), Changed(n, put, w), k, 0)
  {
  }

  lemma BooksChange(n: Counters, accepted: nat, len: nat, size: nat, put: bool, was: nat, w: nat)
    requires Books(n, accepted, len, size + was)
    ensures Books(Changed(n, put, was), accepted + w, len, size + w)
  {
  }

  /** An existing entry of weight `w` gets a new value, by Put or by Replace (notifyReplaced). */
  function Changed(n: Counters, put: bool, w: nat): Counters {
    var m := Evicted(n, Replaced, w);
    if put then m.(updated := n.updated + 1) else m.(replaced := n.replaced + 1)
  }

  /** An accepted Put inserts or updates. */
  function CountPut(n: Counters, es: Order, key: Bytes): Counters {
    var i := Find(es, key);
    if i == |es| then n.(inserted := n.inserted + 1) else Changed(n, true, es[i].weight)
  }

  /** A Replace of an existing entry changes it, or evicts it when it does not fit. */
  function CountReplace(n: Counters, es: Order, i: nat, w: nat, max: nat): Counters
    requires i < |es|
  {
    if Outgrown(es, i, w, max) then n.(selfEvicted := n.selfEvicted + 1)
    else Changed(n, false, es[i].weight)
  }

  /** A sample above the eviction threshold, with the products of the retention ratio. */
  datatype Sample = Sample(target: nat, retentionZero: bool, keepLen: nat, keepZeros: nat, lastLen: nat, lastZeros: nat)

  function GoalsOf(p: Sample, es: Order, prot: Option<Entry>): Goals {
    ShedGoals(p.target, p.retentionZero, es, prot, p.keepLen, p.keepZeros, p.lastLen, p.lastZeros)
  }

  /** The notices of one shedding pass, in order. */
  function ShedLog(es: Order, kept: Order, g: Goals, prot: Option<Entry>, named: bool): seq<Notice>
    decreases |es|
  {
    if es == [] || !(NeedBytes(es + kept, g) || NeedZeros(es + kept, g)) then []
    else
      var e, rest := es[|es| - 1], es[..|es| - 1];
      if Victim(e, es + kept, g, prot) then [NoticeOf(e, Pressure, named)] + ShedLog(rest, kept, g, prot, named)
      else ShedLog(rest, [e] + kept, g, prot, named)
  }

  /** What a mutation leaves after the shedding that follows it. */
  function After(es: Order, shed: Option<Sample>, prot: Option<Entry>): Order {
    if shed.None? then es else Shed(es, [], GoalsOf(shed.value, es, prot), prot)
  }

  function AfterLog(es: Order, shed: Option<Sample>, prot: Option<Entry>, named: bool): seq<Notice> {
    if shed.None? then [] else ShedLog(es, [], GoalsOf(shed.value, es, prot), prot, named)
  }

  /** The recency order after Put, before any shedding. */
  function PutOrder(es: Order, key: Bytes, value: Value, w: nat, max: nat): Order {
    var i := Find(es, key);
    if i == |es| then [Entry(key, value, w)] + Room(es, w, max, false)
    else UpdateOrder(es, i, value, w, max)
  }

  /** Capacity evictions of the entries beyond the first `n`, from the last to the first. */
  function TailLog(es: Order, n: nat, named: bool): seq<Notice>
    requires n <= |es|
    decreases |es| - n
  {
    if n == |es| then [] else TailLog(es, n + 1, named) + [NoticeOf(es[n], Capacity, named)]
  }

  lemma NoTail(es: Order, named: bool)
    ensures TailLog(es, |es|, named) == []
  {
  }

  lemma TailNext(es: Order, n: nat, named: bool)
    requires n < |es|
    ensures TailLog(es, n, named) == TailLog(es, n + 1, named) + [NoticeOf(es[n], Capacity, named)]
  {
  }

  /** The capacity evictions of a Put, before any shedding. */
  function PutLog(es: Order, key: Bytes, w: nat, max: nat, named: bool): seq<Notice> {
    var i := Find(es, key);
    if i == |es| then TailLog(es, |Room(es, w, max, false)|, named)
    else UpdateLog(es, i, w, max, named)
  }

  /** The value a Put overwrites is reported after the capacity evictions (notifyReplaced). */
  function PutOver(es: Order, key: Bytes, named: bool): seq<Notice> {
    var i := Find(es, key);
    if i == |es| then [] else [NoticeOf(es[i], Replaced, named)]
  }

  /** The value of a notice that Put returns to its caller: overwritten values are not among them. */
  function ValueOf(x: Notice): seq<Value> {
    if x.reason == Replaced then [] else [x.value]
  }

  /** The values Put and EvaluateMemoryPressure return: those of the evicted entries, in order. */
  function Returned(log: seq<Notice>): seq<Value> {
    if log == [] then [] else Returned(log[..|log| - 1]) + ValueOf(log[|log| - 1])
  }

  function Values(log: seq<Notice>): (vs: seq<Value>)
    ensures |vs| == |log| && forall i :: 0 <= i < |log| ==> vs[i] == log[i].value
  {
    seq(|log|, i requires 0 <= i < |log| => log[i].value)
  }

  /** Evictions and deletions are handed back in full. */
  lemma {:induction false} ReturnedAll(log: seq<Notice>)
    requires forall i :: 0 <= i < |log| ==> log[i].reason != Replaced
    ensures Returned(log) == Values(log)
  {
    if log != [] {
      var m := |log| - 1;
      ReturnedAll(log[..m]);
      assert Values(log) == Values(log[..m]) + [log[m].value];
    }
  }

  lemma {:induction false} TailReasons(es: Order, n: nat, named: bool)
    requires n <= |es|
    ensures forall x :: x in TailLog(es, n, named) ==> x.reason == Capacity
    decreases |es| - n
  {
    if n < |es| {
      TailReasons(es, n + 1, named);
    }
  }

  lemma {:induction false} ShedReasons(es: Order, kept: Order, g: Goals, prot: Option<Entry>, named: bool)
    ensures forall x :: x in ShedLog(es, kept, g, prot, named) ==> x.reason == Pressure
    decreases |es|
  {
    hide Weight, Zeros, Victim, NeedBytes, NeedZeros;
    if es != [] {
      var e, rest := es[|es| - 1], es[..|es| - 1];
      ShedReasons(rest, kept, g, prot, named);
      ShedReasons(rest, [e] + kept, g, prot, named);
    }
  }

  lemma PutEvicts(es: Order, key: Bytes, w: nat, max: nat, named: bool)
    ensures Returned(PutLog(es, key, w, max, named)) == Values(PutLog(es, key, w, max, named))
  {
    hide TailLog, Room, UpdateRoom, Find, Drop;
    var i := Find(es, key);
    if i == |es| {
      TailReasons(es, |Room(es, w, max, false)|, named);
    } else {
      TailReasons(Drop(es, i), |UpdateRoom(Drop(es, i), w, max, Shrinks(es, i, w, max))|, named);
    }
    ReturnedAll(PutLog(es, key, w, max, named));
  }

  lemma ShedEvicts(es: Order, kept: Order, g: Goals, prot: Option<Entry>, named: bool)
    ensures Returned(ShedLog(es, kept, g, prot, named)) == Values(ShedLog(es, kept, g, prot, named))
  {
    hide ShedLog;
    ShedReasons(es, kept, g, prot, named);
    ReturnedAll(ShedLog(es, kept, g, prot, named));
  }

  /** The overwritten value is not handed back. */
  lemma OverKept(es: Order, key: Bytes, named: bool)
    ensures Returned(PutOver(es, key, named)) == [] && Returned([]) == []
  {
    hide Find;
    var over := PutOver(es, key, named);
    if over != [] {
      assert over[..|over| - 1] == [];
    }
  }

  lemma {:induction false} ReturnedConcat(a: seq<Notice>, b: seq<Notice>)
    ensures Returned(a + b) == Returned(a) + Returned(b)
  {
    hide ValueOf;
    if b == [] {
      assert a + b == a;
    } else {
      var m := |b| - 1;
      ReturnedConcat(a, b[..m]);
      assert (a + b)[..|a| + m] == a + b[..m];
      Assoc(Returned(a), Returned(b[..m]), ValueOf(b[m]));
    }
  }

  lemma Assoc(a: seq<Value>, b: seq<Value>, c: seq<Value>)
    ensures (a + b) + c == a + (b + c)
  {
  }

  lemma DistinctDrop(es: Order, i: nat)
    requires Distinct(es) && i < |es|
    ensures Distinct(Drop(es, i)) && forall k :: 0 <= k < |es| - 1 ==> Drop(es, i)[k].key != es[i].key
  {
    var r := Drop(es, i);
    assert forall k :: 0 <= k < |r| ==> r[k] == es[if k < i then k else k + 1];
  }

  lemma DropShorter(es: Order, i: nat)
    requires i < |es|
    ensures |Drop(es, i)| == |es| - 1
  {
  }

  lemma DistinctFront(e: Entry, es: Order)
    requires Distinct(es) && forall k :: 0 <= k < |es| ==> es[k].key != e.key
    ensures Distinct([e] + es)
  {
  }

  lemma DistinctSet(es: Order, i: nat, e: Entry)
    requires Distinct(es) && i < |es| && es[i].key == e.key
    ensures Distinct(es[i := e])
  {
  }

  /** One step of the pass over the list `es`, of which the first `i` entries are still to come. */
  lemma ShedNext(es: Order, i: nat, g: Goals, prot: Option<Entry>, named: bool)
    requires 0 < i <= |es|
    ensures var e := es[i - 1];
            if !(NeedBytes(es, g) || NeedZeros(es, g)) then
              Shed(es[..i], es[i..], g, prot) == es && ShedLog(es[..i], es[i..], g, prot, named) == []
            else if Victim(e, es, g, prot) then
              var less := Drop(es, i - 1);
              && |less| == |es| - 1
              && Shed(es[..i], es[i..], g, prot) == Shed(less[..i - 1], less[i - 1..], g, prot)
              && ShedLog(es[..i], es[i..], g, prot, named)
                 == [NoticeOf(e, Pressure, named)] + ShedLog(less[..i - 1], less[i - 1..], g, prot, named)
            else
              && Shed(es[..i], es[i..], g, prot) == Shed(es[..i - 1], es[i - 1..], g, prot)
              && ShedLog(es[..i], es[i..], g, prot, named) == ShedLog(es[..i - 1], es[i - 1..], g, prot, named)
  {
    hide Weight, Zeros;
    var less := Drop(es, i - 1);
    assert es[..i] + es[i..] == es && es[..i][..i - 1] == es[..i - 1];
    assert less[..i - 1] == es[..i - 1] && less[i - 1..] == es[i..] && es[i - 1..] == [es[i - 1]] + es[i..];
  }

  lemma ShedDone(es: Order, g: Goals, prot: Option<Entry>, named: bool)
    ensures Shed(es[..0], es[0..], g, prot) == es && ShedLog(es[..0], es[0..], g, prot, named) == []
  {
  }

  /** What an update of the entry at `i` leaves. */
  function UpdateOrder(es: Order, i: nat, value: Value, w: nat, max: nat): Order
    requires i < |es|
  {
    [Entry(es[i].key, value, w)] + UpdateRoom(Drop(es, i), w, max, Shrinks(es, i, w, max))
  }

  /** shouldEvictOnZeroWeightShrink. */
  predicate Shrinks(es: Order, i: nat, w: nat, max: nat)
    requires i < |es|
  {
    es[i].weight > 0 && w == 0 && Zeros(es) >= max
  }

  function UpdateLog(es: Order, i: nat, w: nat, max: nat, named: bool): seq<Notice>
    requires i < |es|
  {
    var others := Drop(es, i);
    TailLog(others, |UpdateRoom(others, w, max, Shrinks(es, i, w, max))|, named)
  }

  /** The entry at `i` would grow beyond what fits beside the newer ones. */
  predicate Outgrown(es: Order, i: nat, w: nat, max: nat)
    requires i < |es|
  {
    w > es[i].weight && !FitsInPlace(es, i, w, max)
  }

  /** The capacity evictions of a Replace, before any shedding. */
  function ReplaceLog(es: Order, i: nat, w: nat, max: nat, named: bool): seq<Notice>
    requires i < |es|
  {
    if Outgrown(es, i, w, max) then [NoticeOf(es[i], Capacity, named)]
    else if w > es[i].weight then
      TailLog(es[i + 1..], |UpdateRoom(es[i + 1..], w + Weight(es[..i]), max, false)|, named)
    else if Shrinks(es, i, w, max) && i < |es| - 1 then [NoticeOf(es[|es| - 1], Capacity, named)]
    else []
  }

  /** The value a Replace overwrites; none if the entry is evicted itself. */
  function ReplaceOver(es: Order, i: nat, w: nat, max: nat, named: bool): seq<Notice>
    requires i < |es|
  {
    if Outgrown(es, i, w, max) then [] else [NoticeOf(es[i], Replaced, named)]
  }

  /** The notices of a cleared cache, from the most to the least recently used entry. */
  function ClearLog(es: Order, named: bool): (r: seq<Notice>)
    ensures |r| == |es| && forall i :: 0 <= i < |es| ==> r[i] == NoticeOf(es[i], Deleted, named)
  {
    seq(|es|, i requires 0 <= i < |es| => NoticeOf(es[i], Deleted, named))
  }

  class Cache {
    const maxSize: U64
    const named: bool        // an entry callback is registered
    var order: Order
    var size: U64
    var zeros: nat
    var n: Counters
    ghost var accepted: nat

    /** The invariant while `k` entries of weight `w` are held outside the list. */
    ghost predicate ValidBut(k: nat, w: nat)
      reads this
    {
      && 0 < maxSize && Distinct(order) && size == Weight(order) && size + w <= maxSize && zeros == Zeros(order)
      && |order| + k <= 2 * maxSize && Books(n, accepted, |order| + k, size + w)
    }

    ghost predicate Valid()
      reads this
    {
      ValidBut(0, 0)
    }

    constructor (max: U64, entryCallback: bool)
      requires 0 < max
      ensures Valid() && order == [] && maxSize == max && named == entryCallback && Blank(n)
    {
      maxSize, named := max, entryCallback;
      order, size, zeros, n, accepted := [], 0, 0, ZERO, 0;
    }

    /** eraseEntryLocked. */
    method Erase(i: nat, reason: Reason, ghost k: nat := 0, ghost w: nat := 0) returns (e: Entry)
      requires ValidBut(k, w) && i < |order| && reason != Replaced
      modifies `order, `size, `zeros, `n
      ensures ValidBut(k, w) && e == old(order[i]) && order == old(Drop(order, i))
      ensures n == old(Evicted(n, reason, order[i].weight))
    {
      hide Weight, Zeros;
      e := order[i];
      SumDrop(order, i);
      DistinctDrop(order, i);
      CountBound(order);
      size := size - e.weight;
      if e.weight == 0 {
        zeros := zeros - 1;
      }
      order := Drop(order, i);
      n := Evicted(n, reason, e.weight);
    }

    /** evictOne: the least recently used entry. */
    method EvictLast(ghost k: nat := 0, ghost w: nat := 0) returns (e: Entry)
      requires ValidBut(k, w) && order != []
      modifies `order, `size, `zeros, `n
      ensures ValidBut(k, w) && e == old(order[|order| - 1]) && order == old(order[..|order| - 1])
      ensures n == old(Evicted(n, Capacity, order[|order| - 1].weight))
    {
      assert Drop(order, |order| - 1) == order[..|order| - 1];
      e := Erase(|order| - 1, Capacity, k, w);
    }

    /** shedAndCompactLocked: one pass from the tail to the head. */
    method ShedPass(p: Sample, prot: Option<Entry>) returns (log: seq<Notice>)
      requires Valid()
      modifies `order, `size, `zeros, `n
      ensures Valid() && order == old(After(order, Some(p), prot)) && log == old(AfterLog(order, Some(p), prot, named))
      ensures Charged(old(n), n, 0, |log|)
    {
      hide Weight, Zeros, Distinct, Books, Shed, ShedLog, Drop;
      ghost var es := order;
      var g := GoalsOf(p, order, prot);
      log := [];
      var i := |order|;
      assert order[..i] == order && order[i..] == [];
      while i > 0
        invariant Valid() && 0 <= i <= |order| && Charged(old(n), n, 0, |log|)
        invariant Shed(order[..i], order[i..], g, prot) == Shed(es, [], g, prot)
        invariant log + ShedLog(order[..i], order[i..], g, prot, named) == ShedLog(es, [], g, prot, named)
      {
        ShedNext(order, i, g, prot, named);
        var needBytes, needZeros := g.flush || size > g.bytes, !g.flush && zeros > g.zeros && |order| > g.len;
        if !needBytes && !needZeros {
          return;
        }
        var v := order[i - 1];
        if !IsProt(v, prot)
          && (g.flush || (needBytes && zeros > g.zeros) || (if needBytes then v.weight > 0 else v.weight == 0)) {
          var e := Erase(i - 1, Pressure);
          log := log + [NoticeOf(e, Pressure, named)];
        }
        i := i - 1;
      }
      ShedDone(order, g, prot, named);
    }

    /** A new entry at the front of the list. */
    method PushFront(e: Entry)
      requires Distinct(order) && size == Weight(order) && zeros == Zeros(order) && size + e.weight <= maxSize
      requires forall k :: 0 <= k < |order| ==> order[k].key != e.key
      modifies `order, `size, `zeros
      ensures order == [e] + old(order) && Distinct(order)
      ensures size == old(size) + e.weight == Weight(order) && zeros == Zeros(order)
    {
      hide Weight, Zeros;
      SumCons(e, order);
      DistinctFront(e, order);
      order := [e] + order;
      size := size + e.weight;
      if e.weight == 0 {
        zeros := zeros + 1;
      }
    }

    /** The eviction loop of the insertion branch of Put. */
    method MakeSpace(w: nat) returns (log: seq<Notice>)
      requires Valid() && w <= maxSize
      modifies `order, `size, `zeros, `n
      ensures Valid() && order == old(Room(order, w, maxSize, false))
      ensures log == old(TailLog(order, |Room(order, w, maxSize, false)|, named)) && Charged(old(n), n, |log|, 0)
    {
      hide Weight, Zeros, Distinct, ZeroRule, Books, Charged, Evicted, NoticeOf;
      ghost var es := order;
      var pre := false;
      log := [];
      NoneCharged(n);
      while MustEvict(w, maxSize, size, |order|, zeros, pre) && order != []
        invariant Valid() && order <= es && Charged(old(n), n, |log|, 0)
        invariant Room(order, w, maxSize, pre) == Room(es, w, maxSize, false)
        invariant log == TailLog(es, |order|, named)
        decreases |order|
      {
        CapMore(old(n), n, |log|, order[|order| - 1].weight);
        var e := EvictLast();
        log := log + [NoticeOf(e, Capacity, named)];
        pre := true;
      }
    }

    /** The insertion branch of Put. */
    method Insert(key: Bytes, value: Value, w: nat) returns (log: seq<Notice>)
      requires Valid() && w <= maxSize && Find(order, key) == |order|
      modifies this
      ensures Valid() && order == [Entry(key, value, w)] + old(Room(order, w, maxSize, false))
      ensures log == old(TailLog(order, |Room(order, w, maxSize, false)|, named))
      ensures Charged(old(CountPut(n, order, key)), n, |log|, 0) && accepted == old(accepted) + w
    {
      hide Weight, Zeros, Distinct, Find, Room, Books, Charged, TailLog;
      ghost var es := order;
      log := MakeSpace(w);
      RoomBound(es, w, maxSize);
      BooksIn(n, accepted, |order|, size, w);
      ChargedIn(old(n), n, |log|);
      PushFront(Entry(key, value, w));
      n := n.(inserted := n.inserted + 1);
      accepted := accepted + w;
    }

    /** Hold the entry at `i` outside the list. */
    method Detach(i: nat)
      requires Valid() && i < |order|
      modifies `order, `size, `zeros
      ensures ValidBut(1, old(order[i].weight)) && order == old(Drop(order, i))
      ensures forall k :: 0 <= k < |order| ==> order[k].key != old(order[i].key)
    {
      hide Weight, Zeros;
      SumDrop(order, i);
      DistinctDrop(order, i);
      CountBound(order);
      size := size - order[i].weight;
      if order[i].weight == 0 {
        zeros := zeros - 1;
      }
      order := Drop(order, i);
    }

    /** The eviction loop of an update, with the updated entry held outside the list. */
    method MakeRoom(w: nat, once: bool, ghost held: nat) returns (log: seq<Notice>)
      requires ValidBut(1, held)
      modifies `order, `size, `zeros, `n
      ensures ValidBut(1, held) && order == old(UpdateRoom(order, w, maxSize, once))
      ensures log == old(TailLog(order, |UpdateRoom(order, w, maxSize, once)|, named))
      ensures Charged(old(n), n, |log|, 0)
    {
      hide Weight, Zeros, Distinct, Books, Charged, Evicted, NoticeOf;
      ghost var others := order;
      var force := once;
      log := [];
      NoneCharged(n);
      while (w > maxSize - size || force) && order != []
        invariant ValidBut(1, held) && order <= others && Charged(old(n), n, |log|, 0)
        invariant UpdateRoom(order, w, maxSize, force) == UpdateRoom(others, w, maxSize, once)
        invariant log == TailLog(others, |order|, named)
        decreases |order|
      {
        CapMore(old(n), n, |log|, order[|order| - 1].weight);
        var e := EvictLast(1, held);
        log := log + [NoticeOf(e, Capacity, named)];
        force := false;
      }
    }

    /** updateExistingOnPutLocked: the entry moves to the front; others make room for its new weight. */
    method Update(i: nat, value: Value, w: nat) returns (log: seq<Notice>)
      requires Valid() && w <= maxSize && i < |order|
      modifies this
      ensures Valid() && order == old(UpdateOrder(order, i, value, w, maxSize))
      ensures log == old(UpdateLog(order, i, w, maxSize, named) + [NoticeOf(order[i], Replaced, named)])
      ensures accepted == old(accepted) + w
      ensures Charged(old(Changed(n, true, order[i].weight)), n, |log| - 1, 0)
    {
      hide Weight, Zeros, Distinct, Drop, UpdateRoom, TailLog, Books, Charged, Changed, NoticeOf;
      var e := order[i];
      var once := e.weight > 0 && w == 0 && zeros >= maxSize;
      ghost var others := Drop(order, i);
      Detach(i);
      log := MakeRoom(w, once, e.weight);
      UpdateRoomLongest(others, w, maxSize, once);
      ChargedChange(old(n), n, |log|, true, e.weight);
      BooksChange(n, accepted, |order| + 1, size, true, e.weight, w);
      PushFront(Entry(e.key, value, w));
      n := Changed(n, true, e.weight);
      log := log + [NoticeOf(e, Replaced, named)];
      accepted := accepted + w;
    }

    /** The part of Put before any reclamation. */
    method Store(key: Bytes, value: Value, w: nat) returns (log: seq<Notice>)
      requires Valid() && w <= maxSize
      modifies this
      ensures Valid() && order == PutOrder(old(order), key, value, w, maxSize) && accepted == old(accepted) + w
      ensures log == PutLog(old(order), key, w, maxSize, named) + PutOver(old(order), key, named)
      ensures Charged(CountPut(old(n), old(order), key), n, |PutLog(old(order), key, w, maxSize, named)|, 0)
    {
      hide Weight, Zeros, TailLog;
      var i := Find(order, key);
      if i < |order| {
        log := Update(i, value, w);
      } else {
        log := Insert(key, value, w);
      }
    }

    /** Put.  An entry heavier than the whole cache is refused and changes nothing. */
    method Put(key: Bytes, value: Value, w: nat, shed: Option<Sample>) returns (ok: bool, log: seq<Notice>)
      requires Valid()
      modifies this
      ensures Valid() && (ok <==> w <= maxSize)
      ensures !ok ==> order == old(order) && n == old(n) && accepted == old(accepted) && log == []
      ensures ok ==>
                var put, prot := PutOrder(old(order), key, value, w, maxSize), Some(Entry(key, value, w));
                var caps, sheds := PutLog(old(order), key, w, maxSize, named), AfterLog(put, shed, prot, named);
                && order == After(put, shed, prot) && accepted == old(accepted) + w
                && log == caps + PutOver(old(order), key, named) + sheds
                && Charged(CountPut(old(n), old(order), key), n, |caps|, |sheds|)
    {
      hide Weight, Zeros, Books, Distinct, Shed, ShedLog, PutOrder, PutLog, PutOver, CountPut, Charged;
      if w > maxSize {
        return false, [];
      }
      log := Store(key, value, w);
      if shed.Some? {
        ghost var before := n;
        var more := ShedPass(shed.value, Some(Entry(key, value, w)));
        PresAfter(CountPut(old(n), old(order), key), before, |PutLog(old(order), key, w, maxSize, named)|, |more|, n);
        log := log + more;
      }
      ok := true;
    }

    /** Get moves the entry to the front. */
    method Get(key: Bytes) returns (r: Option<Value>)
      requires Valid()
      modifies `order
      ensures Valid()
      ensures var i := old(Find(order, key));
              if i < |old(order)| then r == Some(old(order)[i].value) && order == [old(order)[i]] + old(Drop(order, i))
              else r == None && order == old(order)
    {
      hide Weight, Zeros;
      var i := Find(order, key);
      if i == |order| {
        return None;
      }
      SumDrop(order, i);
      DistinctDrop(order, i);
      SumCons(order[i], Drop(order, i));
      DistinctFront(order[i], Drop(order, i));
      r := Some(order[i].value);
      order := [order[i]] + Drop(order, i);
    }

    /** Delete. */
    method Delete(key: Bytes, shed: Option<Sample>) returns (r: Option<Value>, log: seq<Notice>)
      requires Valid()
      modifies this
      ensures Valid() && accepted == old(accepted)
      ensures var i, es := old(Find(order, key)), old(order);
              if i < |es| then
                var sheds := AfterLog(Drop(es, i), shed, None, named);
                && r == Some(es[i].value) && order == After(Drop(es, i), shed, None)
                && log == [NoticeOf(es[i], Deleted, named)] + sheds
                && Charged(old(Evicted(n.(deleted := n.deleted + 1), Deleted, order[Find(order, key)].weight)), n, 0,
                           |sheds|)
              else r == None && order == es && n == old(n) && log == []
    {
      hide Find, Drop, Distinct, Weight, Zeros, Shed, ShedLog;
      var i := Find(order, key);
      if i == |order| {
        return None, [];
      }
      var e := Erase(i, Deleted);
      n := n.(deleted := n.deleted + 1);
      log := [NoticeOf(e, Deleted, named)];
      ShedEmpty(shed, None, named);
      if order != [] && shed.Some? {
        var more := ShedPass(shed.value, None);
        log := log + more;
      }
      r := Some(e.value);
    }

    /** The growth loop of replaceResizeOrEvictLocked: older entries go until the new weight fits. */
    method EvictOlder(i: nat, w: nat) returns (log: seq<Notice>)
      requires Valid() && i < |order| && order[i].weight < w && FitsInPlace(order, i, w, maxSize)
      modifies `order, `size, `zeros, `n
      ensures Valid() && Charged(old(n), n, |log|, 0)
      ensures i < |order| && order[i] == old(order[i]) && size - order[i].weight + w <= maxSize
      ensures Growing(old(order), order, i, w + old(Weight(order[..i])), maxSize, named, log)
      ensures i == |order| - 1 || w + old(Weight(order[..i])) <= maxSize - Weight(order[i + 1..])
    {
      hide Weight, Zeros, Distinct, Books, Charged, Evicted, NoticeOf, Growing;
      ghost var es, base := order, w + Weight(order[..i]);
      var delta := w - order[i].weight;
      log := [];
      NoneCharged(n);
      GrowStart(es, i, base, maxSize, named);
      GrowBalance(es, order, i, base, maxSize, named, log);
      while delta > maxSize - size && i < |order| - 1
        invariant Valid() && Charged(old(n), n, |log|, 0) && i < |order| && order[i] == es[i]
        invariant size == Weight(es[..i]) + es[i].weight + Weight(order[i + 1..])
        invariant Growing(es, order, i, base, maxSize, named, log)
        decreases |order|
      {
        GrowStep(es, order, i, base, maxSize, named, log);
        CapMore(old(n), n, |log|, order[|order| - 1].weight);
        var e := EvictLast();
        log := log + [NoticeOf(e, Capacity, named)];
        GrowBalance(es, order, i, base, maxSize, named, log);
      }
      GrowBalance(es, order, i, base, maxSize, named, log);
    }

    /** The entry at `i` takes a new value and weight where it is. */
    method SetAt(i: nat, value: Value, w: nat)
      requires Valid() && i < |order| && size - order[i].weight + w <= maxSize
      modifies this
      ensures Valid() && order == old(order[i := Entry(order[i].key, value, w)]) && accepted == old(accepted) + w
      ensures n == old(Changed(n, false, order[i].weight))
    {
      hide Weight, Zeros, Distinct;
      var e, f := order[i], Entry(order[i].key, value, w);
      SumSet(order, i, f);
      DistinctSet(order, i, f);
      CountBound(order);
      size := size - e.weight + w;
      if e.weight == 0 && w > 0 {
        zeros := zeros - 1;
      } else if e.weight > 0 && w == 0 {
        zeros := zeros + 1;
      }
      order := order[i := f];
      n := Changed(n, false, e.weight);
      accepted := accepted + w;
    }

    /** The growth branch of Replace. */
    method GrowAt(i: nat, value: Value, w: nat) returns (log: seq<Notice>)
      requires Valid() && i < |order| && order[i].weight < w && FitsInPlace(order, i, w, maxSize)
      modifies this
      ensures Valid() && order == old(LruPolicy.Replaced(order, i, value, w, maxSize))
      ensures log == old(ReplaceLog(order, i, w, maxSize, named))
      ensures accepted == old(accepted) + w && Charged(old(CountReplace(n, order, i, w, maxSize)), n, |log|, 0)
    {
      hide Weight, Zeros, Distinct, Books, UpdateRoom, TailLog, Charged, Changed, Growing;
      ghost var es := order;
      log := EvictOlder(i, w);
      GrowEnd(es, order, i, w + Weight(es[..i]), maxSize, named, log, Entry(es[i].key, value, w));
      ChargedChange(old(n), n, |log|, false, es[i].weight);
      SetAt(i, value, w);
    }

    /** The shrinking branch of Replace, and a new value of the same weight. */
    method ShrinkAt(i: nat, value: Value, w: nat) returns (log: seq<Notice>)
      requires Valid() && i < |order| && w <= order[i].weight
      modifies this
      ensures Valid() && order == old(LruPolicy.Replaced(order, i, value, w, maxSize))
      ensures log == old(ReplaceLog(order, i, w, maxSize, named))
      ensures accepted == old(accepted) + w && Charged(old(CountReplace(n, order, i, w, maxSize)), n, |log|, 0)
    {
      hide Weight, Zeros, Distinct, Books, UpdateRoom, TailLog;
      ghost var es := order;
      log := [];
      if order[i].weight > 0 && w == 0 && zeros >= maxSize && i < |order| - 1 {
        var e := EvictLast();
        log := [NoticeOf(e, Capacity, named)];
      }
      SetShrunk(es, i, Entry(es[i].key, value, w));
      SetAt(i, value, w);
    }

    /** The part of Replace before any reclamation. */
    method Overwrite(i: nat, value: Value, w: nat) returns (log: seq<Notice>, stays: bool)
      requires Valid() && i < |order|
      modifies this
      ensures Valid() && order == old(LruPolicy.Replaced(order, i, value, w, maxSize))
      ensures (stays <==> !old(Outgrown(order, i, w, maxSize)))
      ensures log == old(ReplaceLog(order, i, w, maxSize, named) + ReplaceOver(order, i, w, maxSize, named))
      ensures accepted == old(accepted) + (if stays then w else 0)
      ensures Charged(old(CountReplace(n, order, i, w, maxSize)), n, |old(ReplaceLog(order, i, w, maxSize, named))|, 0)
    {
      hide Weight, Zeros, Distinct, Books, UpdateRoom, TailLog, Find;
      var e := order[i];
      stays := w <= e.weight;
      if !stays {
        if w <= maxSize {
          stays := CanFitGrowth(order, i, w, maxSize, size);
        }
        if !stays {
          EraseSelf(i);
          return [NoticeOf(e, Capacity, named)], false;
        }
        log := GrowAt(i, value, w);
      } else {
        log := ShrinkAt(i, value, w);
      }
      log := log + [NoticeOf(e, Replaced, named)];
    }

    /** Replace: the entry keeps its place, unless its new weight does not fit beside the newer ones. */
    method Replace(key: Bytes, value: Value, w: nat, shed: Option<Sample>) returns (found: bool, log: seq<Notice>)
      requires Valid()
      modifies this
      ensures Valid() && (found <==> old(Find(order, key)) < |old(order)|)
      ensures !found ==> order == old(order) && n == old(n) && accepted == old(accepted) && log == []
      ensures found ==>
                var i, es := old(Find(order, key)), old(order);
                var r, gone := LruPolicy.Replaced(es, i, value, w, maxSize), Outgrown(es, i, w, maxSize);
                var prot := if gone then None else Some(Entry(key, value, w));
                var caps, sheds := ReplaceLog(es, i, w, maxSize, named), AfterLog(r, shed, prot, named);
                && order == After(r, shed, prot) && log == caps + ReplaceOver(es, i, w, maxSize, named) + sheds
                && accepted == old(accepted) + (if gone then 0 else w)
                && Charged(CountReplace(old(n), es, i, w, maxSize), n, |caps|, |sheds|)
    {
      hide Weight, Zeros, Distinct, Books, Shed, ShedLog, Outgrown, ReplaceLog, ReplaceOver, CountReplace, Find;
      var i := Find(order, key);
      if i == |order| {
        return false, [];
      }
      var stays;
      log, stays := Overwrite(i, value, w);
      ShedEmpty(shed, None, named);
      if shed.Some? && (stays || order != []) {
        var more := ShedPass(shed.value, if stays then Some(Entry(key, value, w)) else None);
        log := log + more;
      }
      found := true;
    }

    /** An entry that has grown too large for its place is evicted for capacity. */
    method EraseSelf(i: nat)
      requires Valid() && i < |order|
      modifies `order, `size, `zeros, `n
      ensures Valid() && order == old(Drop(order, i))
      ensures n == old(Evicted(n.(selfEvicted := n.selfEvicted + 1), Capacity, order[i].weight))
    {
      hide Weight, Zeros;
      var e := Erase(i, Capacity);
      n := n.(selfEvicted := n.selfEvicted + 1);
    }

    /** Matching entries go one by one, in whatever order the map yields them. */
    method EraseMatching(prefix: Bytes) returns (deleted: seq<Notice>)
      requires Valid()
      modifies `order, `size, `zeros, `n
      ensures Valid() && multiset(deleted) == old(MatchedLog(order, prefix, named))
      ensures order == old(Unmatched(order, prefix))
      ensures (deleted == [] ==> order == old(order)) && DelCharged(old(n), n, |deleted|)
    {
      hide Weight, Zeros, Distinct, Books, Unmatched, MatchedLog, Evicted, NoticeOf, DelCharged, Drop;
      deleted := [];
      ghost var es := order;
      NoneDeleted(n);
      while exists i :: 0 <= i < |order| && prefix <= order[i].key
        invariant Valid() && Unmatched(order, prefix) == Unmatched(es, prefix)
        invariant multiset(deleted) + MatchedLog(order, prefix, named) == MatchedLog(es, prefix, named)
        invariant (deleted == [] ==> order == es) && DelCharged(old(n), n, |deleted|)
        decreases |order|
      {
        var i :| 0 <= i < |order| && prefix <= order[i].key;
        UnmatchedDrop(order, prefix, i);
        MatchedDrop(order, prefix, named, i);
        DelMore(old(n), n, |deleted|, order[i].weight);
        DropShorter(order, i);
        var e := Erase(i, Deleted);
        deleted := deleted + [NoticeOf(e, Deleted, named)];
      }
      UnmatchedAll(order, prefix, named);
    }

    /** deleteNonEmptyPrefixLocked. */
    method DeletePrefix(prefix: Bytes, shed: Option<Sample>) returns (deleted: seq<Notice>, more: seq<Notice>)
      requires Valid()
      modifies this
      ensures Valid() && accepted == old(accepted) && multiset(deleted) == old(MatchedLog(order, prefix, named))
      ensures if deleted == [] then order == old(order) == old(Unmatched(order, prefix)) && more == []
              else && order == old(After(Unmatched(order, prefix), shed, None))
                   && more == old(AfterLog(Unmatched(order, prefix), shed, None, named))
      ensures Charged(old(n).(delCount := old(n).delCount + |deleted|, delWeight := n.delWeight), n, 0, |more|)
    {
      hide Weight, Zeros, Distinct, Books, Shed, ShedLog, Unmatched, MatchedLog;
      more := [];
      deleted := EraseMatching(prefix);
      ShedEmpty(shed, None, named);
      if deleted != [] && order != [] && shed.Some? {
        more := ShedPass(shed.value, None);
      }
    }

    /** deleteAllPrefixLocked: the empty prefix clears everything at once. */
    method Clear() returns (log: seq<Notice>)
      requires Valid()
      modifies this
      ensures Valid() && order == [] && accepted == old(accepted) && log == old(ClearLog(order, named))
      ensures n == old(n.(delCount := n.delCount + |order|, delWeight := n.delWeight + size))
    {
      n := n.(delCount := n.delCount + |order|, delWeight := n.delWeight + size);
      log := ClearLog(order, named);
      order, size, zeros := [], 0, 0;
    }
  }

  /** The growth loop has come from `es` to `now`: up to `i` nothing changed, and the rest leads to the same room. */
  ghost predicate Growing(es: Order, now: Order, i: nat, base: nat, max: nat, named: bool, log: seq<Notice>) {
    && i < |now| && now <= es && log == TailLog(es[i + 1..], |now| - i - 1, named)
    && UpdateRoom(now[i + 1..], base, max, false) == UpdateRoom(es[i + 1..], base, max, false)
  }

  lemma GrowStart(es: Order, i: nat, base: nat, max: nat, named: bool)
    requires i < |es|
    ensures Growing(es, es, i, base, max, named, [])
  {
  }

  lemma GrowBalance(es: Order, now: Order, i: nat, base: nat, max: nat, named: bool, log: seq<Notice>)
    requires Growing(es, now, i, base, max, named, log)
    ensures i < |now| <= |es| && now[i] == es[i]
    ensures Weight(now) == Weight(es[..i]) + es[i].weight + Weight(now[i + 1..])
    ensures i == |now| - 1 ==> Weight(now[i + 1..]) == 0
  {
    assert now[..i] == es[..i];
    SumAround(now, i);
  }

  lemma GrowStep(es: Order, now: Order, i: nat, base: nat, max: nat, named: bool, log: seq<Notice>)
    requires Growing(es, now, i, base, max, named, log) && i < |now| - 1 && base > max - Weight(now[i + 1..])
    ensures Growing(es, now[..|now| - 1], i, base, max, named, log + [NoticeOf(now[|now| - 1], Capacity, named)])
    ensures now[i] == es[i] && now[..i] == es[..i]
  {
    hide Weight;
    var less := now[..|now| - 1];
    assert less[i + 1..] == now[i + 1..][..|now| - i - 2];
    assert es[i + 1..][|now| - i - 2] == now[|now| - 1];
    assert now[..i] == es[..i];
  }

  lemma GrowEnd(es: Order, now: Order, i: nat, base: nat, max: nat, named: bool, log: seq<Notice>, e: Entry)
    requires Growing(es, now, i, base, max, named, log) && (base <= max - Weight(now[i + 1..]) || i == |now| - 1)
    ensures now[i := e] == es[..i] + [e] + UpdateRoom(es[i + 1..], base, max, false)
    ensures now[i] == es[i] && now[..i] == es[..i]
    ensures log == TailLog(es[i + 1..], |UpdateRoom(es[i + 1..], base, max, false)|, named)
  {
    hide Weight;
    assert now[..i] == es[..i];
    assert now[i := e] == now[..i] + [e] + now[i + 1..];
  }

  lemma SetShrunk(es: Order, i: nat, e: Entry)
    requires i < |es|
    ensures i < |es| - 1 ==> es[..|es| - 1][i := e] == es[i := e][..|es| - 1]
  {
  }

  lemma ShedEmpty(shed: Option<Sample>, prot: Option<Entry>, named: bool)
    ensures After([], shed, prot) == [] && AfterLog([], shed, prot, named) == []
  {
  }

  lemma SumSet(es: Order, i: nat, e: Entry)
    requires i < |es|
    ensures Weight(es[i := e]) == Weight(es) - es[i].weight + e.weight
    ensures Zeros(es[i := e]) == Zeros(es) - (if es[i].weight == 0 then 1 else 0) + if e.weight == 0 then 1 else 0
  {
    hide Weight, Zeros;
    SumDrop(es, i);
    SumDrop(es[i := e], i);
    assert Drop(es[i := e], i) == Drop(es, i);
  }

  /** The entries whose key does not start with the prefix, in order: what a full scan leaves. */
  function Unmatched(es: Order, prefix: Bytes): Order {
    if es == [] then [] else (if prefix <= es[0].key then [] else [es[0]]) + Unmatched(es[1..], prefix)
  }

  lemma {:induction false} UnmatchedDrop(es: Order, prefix: Bytes, i: nat)
    requires i < |es| && prefix <= es[i].key
    ensures Unmatched(Drop(es, i), prefix) == Unmatched(es, prefix)
  {
    if i == 0 {
      assert Drop(es, i) == es[1..];
    } else {
      UnmatchedDrop(es[1..], prefix, i - 1);
      assert Drop(es, i)[1..] == Drop(es[1..], i - 1);
    }
  }

  /** The notices of the entries whose key starts with the prefix. */
  function MatchedLog(es: Order, prefix: Bytes, named: bool): multiset<Notice> {
    if es == [] then multiset{}
    else (if prefix <= es[0].key then multiset{NoticeOf(es[0], Deleted, named)} else multiset{})
         + MatchedLog(es[1..], prefix, named)
  }

  lemma {:induction false} MatchedDrop(es: Order, prefix: Bytes, named: bool, i: nat)
    requires i < |es| && prefix <= es[i].key
    ensures MatchedLog(es, prefix, named)
            == multiset{NoticeOf(es[i], Deleted, named)} + MatchedLog(Drop(es, i), prefix, named)
  {
    if i == 0 {
      assert Drop(es, i) == es[1..];
    } else {
      MatchedDrop(es[1..], prefix, named, i - 1);
      assert Drop(es, i)[1..] == Drop(es[1..], i - 1);
    }
  }

  lemma {:induction false} UnmatchedAll(es: Order, prefix: Bytes, named: bool)
    requires forall i :: 0 <= i < |es| ==> !(prefix <= es[i].key)
    ensures Unmatched(es, prefix) == es && MatchedLog(es, prefix, named) == multiset{}
  {
    if es != [] {
      UnmatchedAll(es[1..], prefix, named);
    }
  }

  /** An entry survives the scan exactly when its key does not start with the prefix. */
  lemma {:induction false} UnmatchedIn(es: Order, prefix: Bytes, e: Entry)
    ensures e in Unmatched(es, prefix) <==> e in es && !(prefix <= e.key)
  {
    if es != [] {
      UnmatchedIn(es[1..], prefix, e);
      assert e in es <==> e == es[0] || e in es[1..];
    }
  }

  // ---------------------------------------------------------------------------------------------
  // The entry bound is reached
  // ---------------------------------------------------------------------------------------------

  /** Keys of different lengths. */
  function KeyNo(k: nat): (r: Bytes)
    ensures |r| == k
  {
    seq(k, i => 0)
  }

  lemma Absent(es: Order, k: nat)
    requires forall i :: 0 <= i < |es| ==> |es[i].key| < k
    ensures Find(es, KeyNo(k)) == |es|
  {
    assert forall i :: 0 <= i < |es| ==> |es[i].key| != |KeyNo(k)|;
  }

  /** For every capacity there is a run of Puts that ends with exactly twice as many entries. */
  method FillToBound(max: U64) returns (c: Cache)
    requires 0 < max
    ensures fresh(c) && c.Valid() && c.maxSize == max && |c.order| == 2 * max
  {
    hide Blank, Charged, CountPut, PutOrder, PutOver, PutLog, After, AfterLog, Find, Weight, Zeros, Distinct, Books;
    c := new Cache(max, false);
    EmptyCache(c);
    var k := 0;
    while k < 2 * max
      invariant fresh(c) && c.Valid() && c.maxSize == max && 0 <= k <= 2 * max && |c.order| == k
      invariant forall i :: 0 <= i < |c.order| ==> |c.order[i].key| < k
      invariant if k <= max then c.zeros == k && c.size == 0 else c.zeros == max && c.size == k - max
    {
      var w := if k < max then 0 else 1;
      ghost var es := c.order;
      FillOne(es, k, w, max);
      var ok, log := c.Put(KeyNo(k), 0, w, None);
      k := k + 1;
    }
  }

  lemma EmptyCache(c: Cache)
    requires c.Valid() && |c.order| == 0
    ensures c.zeros == 0 && c.size == 0
  {
  }

  /** A key of a new length comes to the front, and nothing is evicted. */
  lemma FillOne(es: Order, k: nat, w: nat, max: nat)
    requires forall i :: 0 <= i < |es| ==> |es[i].key| < k
    requires w <= 1 && Weight(es) + w <= max
    requires (if w == 0 then Zeros(es) < max && Weight(es) == 0 else Zeros(es) <= max) && 0 < max
    ensures var e := Entry(KeyNo(k), 0, w);
            && After(PutOrder(es, KeyNo(k), 0, w, max), None, Some(e)) == [e] + es
            && Weight([e] + es) == Weight(es) + w && Zeros([e] + es) == Zeros(es) + if w == 0 then 1 else 0
  {
    hide Weight, Zeros, Room, Find;
    Absent(es, k);
    NoEviction(es, w, max);
    SumCons(Entry(KeyNo(k), 0, w), es);
  }

  lemma NoEviction(es: Order, w: nat, max: nat)
    requires w <= 1 && Weight(es) + w <= max
    requires (if w == 0 then Zeros(es) < max && Weight(es) == 0 else Zeros(es) <= max) && 0 < max
    ensures Room(es, w, max, false) == es
  {
  }
}

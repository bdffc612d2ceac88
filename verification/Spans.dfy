/**
 Byte spans of the label arena (arena_radix.go): the fixed-size table of free spans, its coalescing,
 best-fit selection and tail trimming.
 */
module Spans {

  /** Number of slots of the free-span table. */
  const SLOTS: nat := 32

  datatype Span = Span(off: int, len: int)

  const NONE: Span := Span(0, 0)

  predicate Apart(s: Span, t: Span) {
    s.off + s.len <= t.off || t.off + t.len <= s.off
  }

  /** Apart, and not even touching. */
  predicate Gap(s: Span, t: Span) {
    s.off + s.len < t.off || t.off + t.len < s.off
  }

  /** No span of the table meets `t`. */
  predicate FreeOf(spans: seq<Span>, t: Span) {
    forall i :: 0 <= i < |spans| ==> Apart(spans[i], t)
  }

  /** The table: at most SLOTS non-empty spans inside the arena that do not touch each other. */
  predicate TableOk(spans: seq<Span>, size: int) {
    && |spans| <= SLOTS
    && (forall i :: 0 <= i < |spans| ==> 0 <= spans[i].off && 0 < spans[i].len && spans[i].off + spans[i].len <= size)
    && (forall i, j :: 0 <= i < j < |spans| ==> Gap(spans[i], spans[j]))
  }

  /** No span ends where the arena ends. */
  predicate OffTail(spans: seq<Span>, size: int) {
    forall i :: 0 <= i < |spans| ==> spans[i].off + spans[i].len != size
  }

  /** removeFreePrefixSpanAtLocked: the last span takes the place of the removed one. */
  function RemovedAt(spans: seq<Span>, i: nat): (r: seq<Span>)
    requires i < |spans|
    ensures |r| == |spans| - 1
  {
    var last := spans[|spans| - 1];
    if i == |spans| - 1 then spans[..i] else spans[..|spans| - 1][i := last]
  }

  lemma RemovedOk(spans: seq<Span>, i: nat, size: int)
    requires TableOk(spans, size) && i < |spans|
    ensures TableOk(RemovedAt(spans, i), size)
    ensures FreeOf(RemovedAt(spans, i), spans[i])
    ensures forall k :: 0 <= k < |spans| - 1 ==> Gap(RemovedAt(spans, i)[k], spans[i])
    ensures OffTail(spans, size) ==> OffTail(RemovedAt(spans, i), size)
  {
  }

  lemma RemovedFreeOf(spans: seq<Span>, i: nat, t: Span)
    requires i < |spans| && FreeOf(spans, t)
    ensures FreeOf(RemovedAt(spans, i), t)
  {
  }

  predicate In(s: Span, b: int) {
    s.off <= b < s.off + s.len
  }

  /** Byte `b` is free. */
  predicate HasByte(spans: seq<Span>, b: int) {
    exists i :: 0 <= i < |spans| && In(spans[i], b)
  }

  lemma RemovedBytes(spans: seq<Span>, i: nat, b: int)
    requires i < |spans|
    ensures HasByte(RemovedAt(spans, i), b) <==> exists k :: 0 <= k < |spans| && k != i && In(spans[k], b)
  {
    var r := RemovedAt(spans, i);
    if k :| 0 <= k < |spans| && k != i && In(spans[k], b) {
      assert In(r[if k == |spans| - 1 then i else k], b);
    }
    if k :| 0 <= k < |r| && In(r[k], b) {
      assert In(spans[if k == i then |spans| - 1 else k], b);
    }
  }

  // ---------------------------------------------------------------------------------------------
  // Recording a free span
  // ---------------------------------------------------------------------------------------------

  /** Whatever avoids `spans` avoids `less`. */
  ghost predicate Keeps(spans: seq<Span>, less: seq<Span>) {
    forall t: Span {:trigger FreeOf(less, t)} :: 0 < t.len && FreeOf(spans, t) ==> FreeOf(less, t)
  }

  /** `more` is `spans` with bytes of `add` at most: whatever both avoid, it avoids. */
  ghost predicate Within(spans: seq<Span>, add: Span, more: seq<Span>) {
    forall t: Span {:trigger FreeOf(more, t)} :: 0 < t.len && FreeOf(spans, t) && Apart(add, t) ==> FreeOf(more, t)
  }

  /** Span `i` grown to the adjacent bytes `add`; all others but those touching the far end keep their distance. */
  lemma Grown(spans: seq<Span>, i: nat, add: Span, sp: Span, t: Span)
    requires i < |spans| && 0 < add.len && 0 < spans[i].len && 0 < t.len && FreeOf(spans, t) && Apart(add, t)
    requires spans[i].off + spans[i].len == add.off || add.off + add.len == spans[i].off
    requires sp.len == spans[i].len + add.len
    requires sp.off == if spans[i].off + spans[i].len == add.off then spans[i].off else add.off
    ensures FreeOf(spans[i := sp], t)
  {
    assert Apart(spans[i], t);
  }

  /** The table may still hold one span after `i` that touches span `i`; the others are fine. */
  predicate TouchesLater(spans: seq<Span>, size: int, i: nat) {
    && |spans| <= SLOTS && i < |spans|
    && (forall k :: 0 <= k < |spans| ==> 0 <= spans[k].off && 0 < spans[k].len && spans[k].off + spans[k].len <= size)
    && (forall k, j :: 0 <= k < j < |spans| && k != i && j != i ==> Gap(spans[k], spans[j]))
    && (forall k :: 0 <= k < i ==> Gap(spans[k], spans[i]))
    && (forall k :: i < k < |spans| ==> Apart(spans[k], spans[i]))
  }

  /** mergeAdjacentFreeSpanLocked. */
  method MergeAdjacent(spans: seq<Span>, i: nat, ghost size: int) returns (r: seq<Span>)
    requires TouchesLater(spans, size, i)
    requires forall j, k :: i < j < k < |spans| ==> Gap(spans[j], spans[i]) || Gap(spans[k], spans[i])
    ensures TableOk(r, size)
    ensures OffTail(spans, size) ==> OffTail(r, size)
    ensures Keeps(spans, r)
    ensures forall b :: HasByte(r, b) <==> HasByte(spans, b)
  {
    var sp := spans[i];
    var end := sp.off + sp.len;
    for j := i + 1 to |spans|
      invariant forall k :: i < k < j ==> Gap(spans[k], sp)
    {
      var other := spans[j];
      if end == other.off || other.off + other.len == sp.off {
        var joined := Span(if end == other.off then sp.off else other.off, sp.len + other.len);
        r := RemovedAt(spans[i := joined], j);
        JoinedOk(spans, i, j, joined, size);
        forall b
          ensures HasByte(r, b) <==> HasByte(spans, b)
        {
          JoinedBytes(spans, i, j, joined, b);
        }
        forall t: Span | 0 < t.len && FreeOf(spans, t)
          ensures FreeOf(r, t)
        {
          Grown(spans, i, other, joined, t);
          RemovedFreeOf(spans[i := joined], j, t);
        }
        return;
      }
    }
    return spans;
  }

  /** Two adjacent spans replaced by one leave the same bytes free. */
  lemma JoinedBytes(spans: seq<Span>, i: nat, j: nat, joined: Span, b: int)
    requires i < |spans| && j < |spans| && i != j
    requires In(joined, b) <==> In(spans[i], b) || In(spans[j], b)
    ensures HasByte(RemovedAt(spans[i := joined], j), b) <==> HasByte(spans, b)
  {
    var all := spans[i := joined];
    RemovedBytes(all, j, b);
    if k :| 0 <= k < |spans| && In(spans[k], b) {
      assert In(all[if k == j then i else k], b);
    }
    if k :| 0 <= k < |all| && k != j && In(all[k], b) {
      assert In(spans[k], b) || In(spans[j], b);
    }
  }

  lemma JoinedOk(spans: seq<Span>, i: nat, j: nat, joined: Span, size: int)
    requires TouchesLater(spans, size, i) && i < j < |spans|
    requires forall k :: i < k < |spans| && k != j ==> Gap(spans[k], spans[i])
    requires spans[i].off + spans[i].len == spans[j].off || spans[j].off + spans[j].len == spans[i].off
    requires joined.len == spans[i].len + spans[j].len
    requires joined.off == if spans[i].off + spans[i].len == spans[j].off then spans[i].off else spans[j].off
    ensures TableOk(RemovedAt(spans[i := joined], j), size)
    ensures OffTail(spans, size) ==> OffTail(RemovedAt(spans[i := joined], j), size)
  {
    var all := spans[i := joined];
    var r := RemovedAt(all, j);
    assert forall k :: 0 <= k < |spans| && k != i && k != j ==> Gap(spans[k], joined);
    forall a, b | 0 <= a < b < |r|
      ensures Gap(r[a], r[b])
    {
      var a0, b0 := if a == j then |spans| - 1 else a, if b == j then |spans| - 1 else b;
      assert r[a] == all[a0] && r[b] == all[b0] && a0 != b0;
    }
  }

  lemma GrownTouches(spans: seq<Span>, i: nat, add: Span, sp: Span, size: int)
    requires TableOk(spans, size) && i < |spans| && FreeOf(spans, add) && 0 < add.len && 0 <= add.off
    requires add.off + add.len <= size
    requires spans[i].off + spans[i].len == add.off || add.off + add.len == spans[i].off
    requires forall k :: 0 <= k < i ==> Gap(spans[k], add)
    requires sp.len == spans[i].len + add.len
    requires sp.off == if spans[i].off + spans[i].len == add.off then spans[i].off else add.off
    ensures TouchesLater(spans[i := sp], size, i)
    ensures forall j, k :: i < j < k < |spans| ==> Gap(spans[j], sp) || Gap(spans[k], sp)
    ensures OffTail(spans, size) && add.off + add.len != size ==> OffTail(spans[i := sp], size)
  {
    forall j, k | i < j < k < |spans|
      ensures Gap(spans[j], sp) || Gap(spans[k], sp)
    {
      assert Gap(spans[j], spans[k]) && Gap(spans[i], spans[j]) && Gap(spans[i], spans[k]);
      assert Apart(spans[j], add) && Apart(spans[k], add);
    }
  }

  predicate Touches(spans: seq<Span>, t: Span) {
    exists i :: 0 <= i < |spans| && !Gap(spans[i], t)
  }

  predicate Smallest(spans: seq<Span>, i: int) {
    0 <= i < |spans| && forall k :: 0 <= k < |spans| ==> spans[i].len <= spans[k].len
  }

  /** The bytes of `add` become free; with the table full and no neighbour, the smallest span is what may be lost. */
  ghost predicate RecordedBytes(spans: seq<Span>, add: Span, r: seq<Span>) {
    if |spans| < SLOTS || Touches(spans, add) then forall b :: HasByte(r, b) <==> HasByte(spans, b) || In(add, b)
    else exists i :: Smallest(spans, i) && r == if add.len > spans[i].len then spans[i := add] else spans
  }

  /** All bytes but those of `lost` are kept, and something is lost only from a full table: a span no longer than any
      that stays. */
  ghost predicate Loses(spans: seq<Span>, add: Span, lost: Span, r: seq<Span>) {
    && (forall b :: HasByte(r, b) || In(lost, b) <==> HasByte(spans, b) || In(add, b))
    && (forall b :: In(lost, b) ==> !HasByte(r, b))
    && (0 < lost.len ==> |spans| == SLOTS && forall i :: 0 <= i < |r| ==> lost.len <= r[i].len)
  }

  lemma Lost(spans: seq<Span>, add: Span, r: seq<Span>, size: int) returns (lost: Span)
    requires TableOk(spans, size) && 0 < add.len && FreeOf(spans, add) && RecordedBytes(spans, add, r)
    ensures Loses(spans, add, lost, r)
  {
    lost := NONE;
    if |spans| == SLOTS && !Touches(spans, add) {
      var i :| Smallest(spans, i) && r == if add.len > spans[i].len then spans[i := add] else spans;
      lost := if add.len > spans[i].len then spans[i] else add;
      forall b
        ensures HasByte(r, b) || In(lost, b) <==> HasByte(spans, b) || In(add, b)
        ensures In(lost, b) ==> !HasByte(r, b)
      {
        if add.len > spans[i].len {
          SwappedBytes(spans, i, add, b);
        }
      }
    }
  }

  lemma SwappedBytes(spans: seq<Span>, i: nat, add: Span, b: int)
    requires i < |spans| && FreeOf(spans, add) && forall j, k :: 0 <= j < k < |spans| ==> Gap(spans[j], spans[k])
    ensures HasByte(spans[i := add], b) || In(spans[i], b) <==> HasByte(spans, b) || In(add, b)
    ensures In(spans[i], b) ==> !HasByte(spans[i := add], b)
  {
    var all := spans[i := add];
    assert In(add, b) ==> In(all[i], b);
    if k :| 0 <= k < |spans| && In(spans[k], b) {
      assert k != i ==> In(all[k], b);
    }
    if k :| 0 <= k < |all| && In(all[k], b) {
      assert k != i ==> In(spans[k], b);
    }
  }

  lemma GrownBytes(spans: seq<Span>, i: nat, add: Span, grown: Span, b: int)
    requires i < |spans| && (In(grown, b) <==> In(spans[i], b) || In(add, b))
    ensures HasByte(spans[i := grown], b) <==> HasByte(spans, b) || In(add, b)
  {
    var all := spans[i := grown];
    if k :| 0 <= k < |spans| && In(spans[k], b) {
      assert In(all[k], b);
    }
    if In(add, b) {
      assert In(all[i], b);
    }
    if k :| 0 <= k < |all| && In(all[k], b) {
      assert In(spans[k], b) || In(add, b);
    }
  }

  lemma AddedBytes(spans: seq<Span>, add: Span, b: int)
    ensures HasByte(spans + [add], b) <==> HasByte(spans, b) || In(add, b)
  {
    var all := spans + [add];
    if k :| 0 <= k < |spans| && In(spans[k], b) {
      assert In(all[k], b);
    }
    if In(add, b) {
      assert In(all[|spans|], b);
    }
  }

  /** recordFreePrefixSpanLocked: coalesce with neighbours, fill an empty slot, or displace a smaller span. */
  method RecordFree(spans: seq<Span>, add: Span, ghost size: int) returns (r: seq<Span>)
    requires TableOk(spans, size) && OffTail(spans, size)
    requires 0 <= add.off && 0 < add.len && add.off + add.len < size && FreeOf(spans, add)
    ensures TableOk(r, size) && OffTail(r, size) && Within(spans, add, r)
    ensures RecordedBytes(spans, add, r)
  {
    var min, minLen := 0, 0;
    for i := 0 to |spans|
      invariant forall k :: 0 <= k < i ==> Gap(spans[k], add)
      invariant 0 < i ==> 0 <= min < i && minLen == spans[min].len && forall k :: 0 <= k < i ==> minLen <= spans[k].len
    {
      var sp := spans[i];
      assert Apart(sp, add);
      if sp.off + sp.len == add.off || add.off + add.len == sp.off {
        var grown := Span(if sp.off + sp.len == add.off then sp.off else add.off, sp.len + add.len);
        GrownTouches(spans, i, add, grown, size);
        r := MergeAdjacent(spans[i := grown], i, size);
        forall b
          ensures HasByte(r, b) <==> HasByte(spans, b) || In(add, b)
        {
          GrownBytes(spans, i, add, grown, b);
        }
        assert !Gap(spans[i], add);
        forall t: Span | 0 < t.len && FreeOf(spans, t) && Apart(add, t)
          ensures FreeOf(r, t)
        {
          Grown(spans, i, add, grown, t);
        }
        return;
      }
      if i == 0 || sp.len < minLen {
        min, minLen := i, sp.len;
      }
    }
    NewSlotOk(spans, add, min, size);
    if |spans| < SLOTS {
      r := spans + [add];
      forall b
        ensures HasByte(r, b) <==> HasByte(spans, b) || In(add, b)
      {
        AddedBytes(spans, add, b);
      }
      return;
    }
    assert Smallest(spans, min);
    r := if add.len > minLen then spans[min := add] else spans;
  }

  lemma NewSlotOk(spans: seq<Span>, add: Span, i: nat, size: int)
    requires TableOk(spans, size) && OffTail(spans, size)
    requires 0 <= add.off && 0 < add.len && add.off + add.len < size
    requires forall k :: 0 <= k < |spans| ==> Gap(spans[k], add)
    ensures |spans| < SLOTS ==> TableOk(spans + [add], size) && OffTail(spans + [add], size)
    ensures i < |spans| ==> TableOk(spans[i := add], size) && OffTail(spans[i := add], size)
    ensures Within(spans, add, spans) && Within(spans, add, spans + [add])
    ensures i < |spans| ==> Within(spans, add, spans[i := add])
  {
  }

  /** Exactly the bytes of `t` stop being free. */
  ghost predicate TookBytes(spans: seq<Span>, t: Span, r: seq<Span>) {
    forall b :: HasByte(r, b) <==> HasByte(spans, b) && !In(t, b)
  }

  lemma RemovedTaken(spans: seq<Span>, i: nat, size: int)
    requires TableOk(spans, size) && i < |spans|
    ensures TookBytes(spans, spans[i], RemovedAt(spans, i))
  {
    forall b
      ensures HasByte(RemovedAt(spans, i), b) <==> HasByte(spans, b) && !In(spans[i], b)
    {
      RemovedBytes(spans, i, b);
      OnlyOne(spans, i, b, size);
    }
  }

  /** A byte of span `i` is in no other span. */
  lemma OnlyOne(spans: seq<Span>, i: nat, b: int, size: int)
    requires TableOk(spans, size) && i < |spans|
    ensures In(spans[i], b) ==> forall k :: 0 <= k < |spans| && k != i ==> !In(spans[k], b)
  {
    forall k | 0 <= k < |spans| && k != i && In(spans[i], b)
      ensures !In(spans[k], b)
    {
      assert Gap(spans[if k < i then k else i], spans[if k < i then i else k]);
    }
  }

  lemma CarvedTaken(spans: seq<Span>, i: nat, n: int, size: int)
    requires TableOk(spans, size) && i < |spans| && 0 < n < spans[i].len
    ensures TookBytes(spans, Span(spans[i].off, n), spans[i := Span(spans[i].off + n, spans[i].len - n)])
  {
    var r, t := spans[i := Span(spans[i].off + n, spans[i].len - n)], Span(spans[i].off, n);
    forall b
      ensures HasByte(r, b) <==> HasByte(spans, b) && !In(t, b)
    {
      OnlyOne(spans, i, b, size);
      if k :| 0 <= k < |spans| && In(spans[k], b) && !In(t, b) {
        assert In(r[k], b);
      }
      if k :| 0 <= k < |r| && In(r[k], b) {
        assert In(spans[k], b);
      }
    }
  }

  /** takeFreePrefixSpanLocked: a best-fit span is used up or carved from its front. */
  method TakeFree(spans: seq<Span>, n: int, ghost size: int) returns (r: seq<Span>, off: int, ok: bool)
    requires TableOk(spans, size) && OffTail(spans, size) && 0 < n
    ensures TableOk(r, size) && OffTail(r, size)
    ensures !ok ==> r == spans && forall i :: 0 <= i < |spans| ==> spans[i].len < n
    ensures ok ==> exists i :: 0 <= i < |spans| && spans[i].off == off && n <= spans[i].len &&
                               forall k :: 0 <= k < |spans| && n <= spans[k].len ==> spans[i].len <= spans[k].len
    ensures ok ==> FreeOf(r, Span(off, n)) && 0 <= off && off + n < size
    ensures Keeps(spans, r)
    ensures ok ==>
              forall t: Span {:trigger FreeOf(spans, t)} :: 0 < t.len && FreeOf(spans, t) ==> Apart(Span(off, n), t)
    ensures ok ==> TookBytes(spans, Span(off, n), r)
  {
    var best := -1;
    var i := |spans| - 1;
    while i >= 0
      invariant -1 <= i < |spans| && -1 <= best < |spans|
      invariant forall k :: i < k < |spans| ==> spans[k].len != n
      invariant best >= 0 ==> spans[best].len > n
      invariant best >= 0 ==> forall k :: i < k < |spans| && n < spans[k].len ==> spans[best].len <= spans[k].len
      invariant best < 0 ==> forall k :: i < k < |spans| ==> spans[k].len < n
    {
      var sp := spans[i];
      if sp.len == n {
        r, off, ok := RemovedAt(spans, i), sp.off, true;
        RemovedOk(spans, i, size);
        RemovedTaken(spans, i, size);
        forall t: Span | 0 < t.len && FreeOf(spans, t)
          ensures FreeOf(r, t) && Apart(Span(off, n), t)
        {
          RemovedFreeOf(spans, i, t);
          assert Apart(spans[i], t);
        }
        assert spans[i].off == off && n <= spans[i].len;
        return;
      }
      if sp.len > n && (best < 0 || sp.len < spans[best].len) {
        best := i;
      }
      i := i - 1;
    }
    if best < 0 {
      return spans, 0, false;
    }
    CarveOk(spans, best, n, size);
    CarvedTaken(spans, best, n, size);
    return spans[best := Span(spans[best].off + n, spans[best].len - n)], spans[best].off, true;
  }

  lemma CarveOk(spans: seq<Span>, i: nat, n: int, size: int)
    requires TableOk(spans, size) && OffTail(spans, size) && i < |spans| && 0 < n < spans[i].len
    ensures TableOk(spans[i := Span(spans[i].off + n, spans[i].len - n)], size)
    ensures OffTail(spans[i := Span(spans[i].off + n, spans[i].len - n)], size)
    ensures FreeOf(spans[i := Span(spans[i].off + n, spans[i].len - n)], Span(spans[i].off, n))
    ensures Keeps(spans, spans[i := Span(spans[i].off + n, spans[i].len - n)])
    ensures forall t: Span {:trigger FreeOf(spans, t)} :: 0 < t.len && FreeOf(spans, t) ==>
              Apart(Span(spans[i].off, n), t)
  {
    forall k | 0 <= k < |spans| && k != i
      ensures Gap(spans[k], spans[i])
    {
      assert Gap(spans[if k < i then k else i], spans[if k < i then i else k]);
    }
    forall t: Span | 0 < t.len && FreeOf(spans, t)
      ensures Apart(spans[i], t)
    {
    }
  }

  /** Whatever lay in the arena clear of the free spans still does. */
  ghost predicate TrimKeeps(spans: seq<Span>, put: Span, size: int, spans': seq<Span>, size': int) {
    forall t: Span {:trigger FreeOf(spans', t)} ::
      0 < t.len && FreeOf(spans, t) && (0 < put.len ==> Apart(put, t)) && t.off + t.len <= size ==>
      FreeOf(spans', t) && t.off + t.len <= size'
  }

  /** The span that ends where the arena ends; |spans| when there is none. */
  method FindTail(spans: seq<Span>, size: int) returns (i: nat)
    ensures i <= |spans|
    ensures i < |spans| ==> spans[i].off + spans[i].len == size
    ensures i == |spans| ==> OffTail(spans, size)
  {
    i := 0;
    while i < |spans|
      invariant i <= |spans| && forall k :: 0 <= k < i ==> spans[k].off + spans[k].len != size
    {
      if spans[i].off + spans[i].len == size {
        return;
      }
      i := i + 1;
    }
  }

  /** Only free bytes are cut off, and the free bytes before the new end are those that were free. */
  ghost predicate TrimmedBytes(spans: seq<Span>, put: Span, size: int, spans': seq<Span>, size': int) {
    && (forall b :: b < size' ==> (HasByte(spans', b) <==> HasByte(spans, b)))
    && (forall b :: size' <= b < size ==> HasByte(spans, b) || In(put, b))
  }

  lemma TrimmedPut(spans: seq<Span>, put: Span, size: int, spans': seq<Span>, size': int)
    requires TrimmedBytes(spans, put, size, spans', size') && 0 < put.len && put.off + put.len == size'
    ensures TrimmedBytes(spans, put, size, spans', put.off)
  {
  }

  lemma TrimmedSpan(spans: seq<Span>, put: Span, size: int, spans': seq<Span>, i: nat, size': int)
    requires TrimmedBytes(spans, put, size, spans', size') && TableOk(spans', size') && i < |spans'|
    requires spans'[i].off + spans'[i].len == size'
    ensures TrimmedBytes(spans, put, size, RemovedAt(spans', i), spans'[i].off)
  {
    RemovedTaken(spans', i, size');
    forall b | spans'[i].off <= b < size'
      ensures HasByte(spans, b)
    {
      assert In(spans'[i], b);
    }
  }

  /** trimFreePrefixSpansAtTailLocked: give back free spans, and the hand-off span, at the end of the arena. */
  method TrimTail(spans: seq<Span>, put: Span, size: int) returns (spans': seq<Span>, put': Span, size': int)
    requires TableOk(spans, size) && 0 <= size
    requires 0 < put.len ==> 0 <= put.off && put.off + put.len <= size && FreeOf(spans, put)
    ensures TableOk(spans', size') && OffTail(spans', size') && 0 <= size' <= size
    ensures put' == NONE || (0 < put.len && put' == put && FreeOf(spans', put) && put.off + put.len < size')
    ensures TrimKeeps(spans, put, size, spans', size')
    ensures TrimmedBytes(spans, put, size, spans', size')
    ensures put' == if 0 < put.len && put.off < size' then put else NONE
  {
    spans', put', size' := spans, if 0 < put.len then put else NONE, size;
    while true
      invariant TableOk(spans', size') && 0 <= size' <= size
      invariant put' == NONE || (put' == put && 0 < put.len && put.off + put.len <= size' && FreeOf(spans', put))
      invariant TrimKeeps(spans, put, size, spans', size')
      invariant TrimmedBytes(spans, put, size, spans', size')
      invariant put' == if 0 < put.len && put.off < size' then put else NONE
      decreases size'
    {
      if 0 < put'.len && put'.off + put'.len == size' {
        DropTail(spans, put, size, spans', size');
        TrimmedPut(spans, put, size, spans', size');
        size' := put'.off;
        put' := NONE;
      }
      var i := FindTail(spans', size');
      var trimmed := i < |spans'|;
      if trimmed {
        CutTail(spans, put, size, spans', i, size');
        TrimmedSpan(spans, put, size, spans', i, size');
        if put' != NONE {
          RemovedFreeOf(spans', i, put);
          assert Apart(spans'[i], put);
        }
        size' := spans'[i].off;
        spans' := RemovedAt(spans', i);
      }
      if !trimmed || put'.len == 0 || put'.off + put'.len != size' {
        return;
      }
    }
  }

  /** Without the hand-off span at the tail the table still fits. */
  lemma DropTail(spans0: seq<Span>, put: Span, size0: int, spans: seq<Span>, size: int)
    requires TableOk(spans, size) && 0 < put.len && 0 <= put.off && FreeOf(spans, put) && put.off + put.len == size
    requires TrimKeeps(spans0, put, size0, spans, size)
    ensures TableOk(spans, put.off) && TrimKeeps(spans0, put, size0, spans, put.off)
  {
    forall i | 0 <= i < |spans|
      ensures spans[i].off + spans[i].len <= put.off
    {
      assert Apart(spans[i], put);
    }
    forall t: Span | 0 < t.len && FreeOf(spans0, t) && Apart(put, t) && t.off + t.len <= size0
      ensures FreeOf(spans, t) && t.off + t.len <= put.off
    {
    }
  }

  lemma CutTail(spans0: seq<Span>, put: Span, size0: int, spans: seq<Span>, i: nat, size: int)
    requires TableOk(spans, size) && i < |spans| && spans[i].off + spans[i].len == size
    requires TrimKeeps(spans0, put, size0, spans, size)
    ensures TableOk(RemovedAt(spans, i), spans[i].off) && OffTail(RemovedAt(spans, i), spans[i].off)
    ensures TrimKeeps(spans0, put, size0, RemovedAt(spans, i), spans[i].off)
  {
    RemovedOk(spans, i, size);
    var r := RemovedAt(spans, i);
    forall k | 0 <= k < |r|
      ensures r[k].off + r[k].len < spans[i].off
    {
      assert Gap(r[k], spans[i]);
    }
    forall t: Span | 0 < t.len && FreeOf(spans0, t) && (0 < put.len ==> Apart(put, t)) && t.off + t.len <= size0
      ensures FreeOf(r, t) && t.off + t.len <= spans[i].off
    {
      assert FreeOf(spans, t);
      RemovedFreeOf(spans, i, t);
      assert Apart(spans[i], t);
    }
  }
}

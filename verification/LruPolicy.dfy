/**
 The recency-list specification all engines share: entries from most to least recently used, with
 capacity eviction (map_lru.go) and the zero-weight and shedding rules (pressure.go).
 */
module LruPolicy {
  import opened Bytes

  datatype Entry = Entry(key: Bytes, value: Value, weight: nat)

  type Order = seq<Entry>

  function Weight(es: Order): nat {
    if es == [] then 0 else Weight(es[..|es| - 1]) + es[|es| - 1].weight
  }

  function Zeros(es: Order): nat {
    if es == [] then 0 else Zeros(es[..|es| - 1]) + if es[|es| - 1].weight == 0 then 1 else 0
  }

  predicate Distinct(es: Order) {
    forall i, j :: 0 <= i < j < |es| ==> es[i].key != es[j].key
  }

  /** Position of a key; |es| when it is absent. */
  function Find(es: Order, key: Bytes): (i: nat)
    ensures i <= |es| && (i < |es| ==> es[i].key == key)
    ensures forall k :: 0 <= k < i ==> es[k].key != key
  {
    if es == [] then 0 else if es[0].key == key then 0 else 1 + Find(es[1..], key)
  }

  function Drop(es: Order, i: nat): Order
    requires i < |es|
  {
    es[..i] + es[i + 1..]
  }

  // ---------------------------------------------------------------------------------------------
  // Sums
  // ---------------------------------------------------------------------------------------------

  lemma {:induction false} SumConcat(a: Order, b: Order)
    ensures Weight(a + b) == Weight(a) + Weight(b) && Zeros(a + b) == Zeros(a) + Zeros(b)
  {
    if b == [] {
      assert a + b == a;
    } else {
      SumConcat(a, b[..|b| - 1]);
      assert (a + b)[..|a + b| - 1] == a + b[..|b| - 1];
    }
  }

  lemma SumOne(e: Entry)
    ensures Weight([e]) == e.weight && Zeros([e]) == if e.weight == 0 then 1 else 0
  {
    assert [e][..0] == [];
  }

  lemma SumCons(e: Entry, es: Order)
    ensures Weight([e] + es) == e.weight + Weight(es)
    ensures Zeros([e] + es) == (if e.weight == 0 then 1 else 0) + Zeros(es)
  {
    SumConcat([e], es);
    SumOne(e);
  }

  lemma SumDrop(es: Order, i: nat)
    requires i < |es|
    ensures Weight(Drop(es, i)) == Weight(es) - es[i].weight
    ensures Zeros(Drop(es, i)) == Zeros(es) - if es[i].weight == 0 then 1 else 0
  {
    hide Weight, Zeros;
    assert es == es[..i] + ([es[i]] + es[i + 1..]);
    SumConcat(es[..i], [es[i]] + es[i + 1..]);
    SumCons(es[i], es[i + 1..]);
    SumConcat(es[..i], es[i + 1..]);
  }

  /** Entries with a weight weigh at least one each. */
  lemma {:induction false} CountBound(es: Order)
    ensures |es| <= Zeros(es) + Weight(es) && Zeros(es) <= |es|
  {
    if es != [] {
      CountBound(es[..|es| - 1]);
    }
  }

  lemma SumPrefix(es: Order, n: nat)
    requires n <= |es|
    ensures Weight(es[..n]) <= Weight(es) && Zeros(es[..n]) <= Zeros(es)
    ensures Weight(es[n..]) == Weight(es) - Weight(es[..n])
  {
    assert es == es[..n] + es[n..];
    SumConcat(es[..n], es[n..]);
  }

  // ---------------------------------------------------------------------------------------------
  // Room for an insertion
  // ---------------------------------------------------------------------------------------------

  /** shouldEvictZeroWeightOnInsert. */
  predicate ZeroRule(w: nat, max: nat, size: nat, len: nat, zeros: nat) {
    len > 0 &&
    if w == 0 then (size >= max && len >= max) || zeros >= max
    else zeros > max && zeros - max > max - size - w
  }

  /** shouldEvictPreInsertOnPut. */
  predicate MustEvict(w: nat, max: nat, size: nat, len: nat, zeros: nat, evicted: bool) {
    if w > max - size then true
    else if w == 0 && evicted then false
    else ZeroRule(w, max, size, len, zeros)
  }

  /** What remains when the loop of Put has made room for a new entry of weight `w`. */
  function Room(es: Order, w: nat, max: nat, evicted: bool): (r: Order)
    ensures r <= es
  {
    if es != [] && MustEvict(w, max, Weight(es), |es|, Zeros(es), evicted) then Room(es[..|es| - 1], w, max, true)
    else es
  }

  /** One step of the insertion loop. */
  lemma RoomStep(es: Order, w: nat, max: nat, evicted: bool)
    ensures Room(es, w, max, evicted)
            == if es != [] && MustEvict(w, max, Weight(es), |es|, Zeros(es), evicted)
               then Room(es[..|es| - 1], w, max, true) else es
  {
  }

  /** The entries admit a new one of positive weight `w`. */
  predicate Admits(es: Order, w: nat, max: nat) {
    Weight(es) + w <= max && (Zeros(es) <= max || Zeros(es) + Weight(es) + w <= 2 * max)
  }

  /** For a positive weight the room is the longest prefix that admits the entry. */
  lemma {:induction false} RoomLongest(es: Order, w: nat, max: nat, evicted: bool)
    requires 0 < w <= max && Weight(es) <= max
    ensures Admits(Room(es, w, max, evicted), w, max)
    ensures forall n :: |Room(es, w, max, evicted)| < n <= |es| ==> !Admits(es[..n], w, max)
  {
    if es == [] {
    } else if MustEvict(w, max, Weight(es), |es|, Zeros(es), evicted) {
      var less := es[..|es| - 1];
      RoomLongest(less, w, max, true);
      forall n | |Room(es, w, max, evicted)| < n <= |es|
        ensures !Admits(es[..n], w, max)
      {
        if n < |es| {
          assert es[..n] == less[..n];
        } else {
          assert es[..n] == es;
        }
      }
    }
  }

  /** For weight zero exactly the last entry goes if there are as many weightless entries as the capacity, or if the
      weight and the number of entries have both reached it; otherwise all stay. */
  lemma RoomZero(es: Order, max: nat)
    requires Weight(es) <= max
    ensures Room(es, 0, max, false)
            == if es != [] && (Zeros(es) >= max || (Weight(es) >= max && |es| >= max)) then es[..|es| - 1] else es
  {
    if es != [] {
      var less := es[..|es| - 1];
      assert Weight(less) <= Weight(es);
      assert Room(less, 0, max, true) == less;
    }
  }

  /** The shared bound: at most twice as many entries as the capacity. */
  lemma RoomBound(es: Order, w: nat, max: nat)
    requires 0 < max && w <= max && Weight(es) <= max && |es| <= 2 * max
    ensures |Room(es, w, max, false)| + 1 <= 2 * max && Weight(Room(es, w, max, false)) + w <= max
  {
    var r := Room(es, w, max, false);
    if w > 0 {
      RoomLongest(es, w, max, false);
      CountBound(r);
    } else {
      RoomZero(es, max);
      CountBound(es);
    }
  }

  /** What remains of the other entries when an existing entry changes to weight `w`. */
  function UpdateRoom(es: Order, w: nat, max: nat, force: bool): (r: Order)
    ensures r <= es
  {
    if es != [] && (w > max - Weight(es) || force) then UpdateRoom(es[..|es| - 1], w, max, false) else es
  }

  lemma {:induction false} UpdateRoomLongest(es: Order, w: nat, max: nat, force: bool)
    requires w <= max
    ensures Weight(UpdateRoom(es, w, max, force)) + w <= max
    ensures forall n :: |UpdateRoom(es, w, max, force)| < n <= |es| && (n < |es| || !force) ==>
              Weight(es[..n]) + w > max
    ensures force && es != [] ==> |UpdateRoom(es, w, max, force)| < |es|
  {
    if es != [] && (w > max - Weight(es) || force) {
      var less := es[..|es| - 1];
      UpdateRoomLongest(less, w, max, false);
      forall n | |UpdateRoom(es, w, max, force)| < n <= |es| && (n < |es| || !force)
        ensures Weight(es[..n]) + w > max
      {
        if n < |es| {
          assert es[..n] == less[..n];
        } else {
          assert es[..n] == es;
        }
      }
    }
  }

  // ---------------------------------------------------------------------------------------------
  // Replace
  // ---------------------------------------------------------------------------------------------

  /** The entry at `i` fits with weight `w` beside everything used more recently. */
  predicate FitsInPlace(es: Order, i: nat, w: nat, max: nat)
    requires i <= |es|
  {
    w + Weight(es[..i]) <= max
  }

  /** Replace under no pressure: growth evicts the entry itself or a shortest suffix of older entries; a shrink
      to weight zero at the zero-weight limit evicts the last entry, unless that is the entry itself. */
  function Replaced(es: Order, i: nat, value: Value, w: nat, max: nat): Order
    requires i < |es|
  {
    var e := es[i];
    var changed := Entry(e.key, value, w);
    if w > e.weight then
      if !FitsInPlace(es, i, w, max) then Drop(es, i)
      else es[..i] + [changed] + UpdateRoom(es[i + 1..], w + Weight(es[..i]), max, false)
    else if e.weight > 0 && w == 0 && Zeros(es) >= max && i < |es| - 1 then es[i := changed][..|es| - 1]
    else es[i := changed]
  }

  /** Keeping more than the first `kept` entries beside `base` would exceed the capacity. */
  predicate NoMoreFits(es: Order, kept: int, base: nat, max: nat) {
    forall n :: 0 <= n && kept < n <= |es| ==> base + Weight(es[..n]) > max
  }

  /** Growth in place: everything newer stays, and of the older entries as many as fit. */
  lemma GrownMeans(es: Order, i: nat, value: Value, w: nat, max: nat)
    requires i < |es| && Weight(es) <= max && w > es[i].weight && FitsInPlace(es, i, w, max)
    ensures var r := Replaced(es, i, value, w, max);
            && i < |r| <= |es| && r[..i] == es[..i] && r[i] == Entry(es[i].key, value, w) && r[i + 1..] <= es[i + 1..]
            && Weight(r) <= max && NoMoreFits(es[i + 1..], |r| - i - 1, w + Weight(es[..i]), max)
  {
    hide Weight, Zeros;
    var r, changed := Replaced(es, i, value, w, max), Entry(es[i].key, value, w);
    var older, base := es[i + 1..], w + Weight(es[..i]);
    var room := UpdateRoom(older, base, max, false);
    UpdateRoomLongest(older, base, max, false);
    SumThree(es[..i], changed, room);
    assert r == es[..i] + [changed] + room;
    assert r[i + 1..] == room;
  }

  /** A shrink, or a new value of the same weight, in place. */
  lemma ShrunkMeans(es: Order, i: nat, value: Value, w: nat, max: nat)
    requires i < |es| && Weight(es) <= max && w <= es[i].weight
    ensures var r := Replaced(es, i, value, w, max);
            && i < |r| <= |es| && r[..i] == es[..i] && r[i] == Entry(es[i].key, value, w) && r[i + 1..] <= es[i + 1..]
            && Weight(r) <= max && |es| - 1 <= |r|
  {
    hide Weight, Zeros;
    var changed := Entry(es[i].key, value, w);
    var set1 := es[i := changed];
    assert set1 == es[..i] + [changed] + es[i + 1..];
    SumAround(es, i);
    SumThree(es[..i], changed, es[i + 1..]);
    SumPrefix(set1, |es| - 1);
    assert set1[i + 1..] == es[i + 1..];
    if i < |es| - 1 {
      assert set1[..|es| - 1][i + 1..] <= es[i + 1..];
    }
  }

  /** Replace keeps its key exactly when the entry does not grow or fits in place. If the key goes it goes alone:
      every other entry stays. */
  lemma ReplaceSurvives(es: Order, i: nat, value: Value, w: nat, max: nat)
    requires i < |es| && Distinct(es) && Weight(es) <= max
    ensures var r, kept := Replaced(es, i, value, w, max), w <= es[i].weight || FitsInPlace(es, i, w, max);
            && (Find(r, es[i].key) < |r| <==> kept)
            && (!kept ==> forall j :: 0 <= j < |es| && j != i ==> es[j] in r)
            && (!kept ==> |r| == |es| - 1 && Weight(r) == Weight(es) - es[i].weight)
  {
    hide Weight, Zeros;
    var r := Replaced(es, i, value, w, max);
    if w <= es[i].weight {
      ShrunkMeans(es, i, value, w, max);
      assert r[i].key == es[i].key;
    } else if FitsInPlace(es, i, w, max) {
      GrownMeans(es, i, value, w, max);
      assert r[i].key == es[i].key;
    } else {
      SumDrop(es, i);
      forall j | 0 <= j < |es| && j != i
        ensures es[j] in r
      {
        assert es[j] == r[if j < i then j else j - 1];
      }
    }
  }

  lemma SumThree(a: Order, e: Entry, b: Order)
    ensures Weight(a + [e] + b) == Weight(a) + e.weight + Weight(b)
    ensures Zeros(a + [e] + b) == Zeros(a) + Zeros([e]) + Zeros(b)
  {
    SumConcat(a + [e], b);
    SumConcat(a, [e]);
    SumOne(e);
  }

  lemma SumAround(es: Order, i: nat)
    requires i < |es|
    ensures Weight(es) == Weight(es[..i]) + es[i].weight + Weight(es[i + 1..])
  {
    assert es == es[..i] + [es[i]] + es[i + 1..];
    SumThree(es[..i], es[i], es[i + 1..]);
  }

  /** canFitGrowthLocked: two pointers walk in from both ends; the answer is exactly the sum over newer entries.
      The running sums are 64-bit words and stay within `size` and `max`. */
  method CanFitGrowth(es: Order, i: nat, w: nat, max: U64, size: nat) returns (fits: bool)
    requires i < |es| && size == Weight(es) <= max && es[i].weight < w <= max
    ensures fits <==> FitsInPlace(es, i, w, max)
  {
    hide Weight;
    var maxNewer: U64, delta: U64, avail: U64 := max - w, w - es[i].weight, max - size;
    SumAround(es, i);
    SumNone();
    if delta <= avail {
      return true;
    }
    var newer: U64, head, tail := 0, 0, |es| - 1;
    assert es[..0] == [] && es[|es|..] == [];
    while true
      invariant 0 <= head <= i <= tail < |es|
      invariant newer == Weight(es[..head]) <= maxNewer && avail == max - size + Weight(es[tail + 1..]) <= max
      invariant delta > avail
      decreases i - head
    {
      if head == i {
        return true;
      }
      PrefixMore(es, head);
      PrefixLess(es, head + 1, i);
      newer := newer + es[head].weight;
      assert newer <= size;
      head := head + 1;
      if newer > maxNewer {
        return false;
      }
      if tail == i {
        return false;
      }
      SuffixMore(es, tail);
      SuffixLess(es, i, tail);
      avail := avail + es[tail].weight;
      assert avail <= max;
      if delta <= avail {
        return true;
      }
      tail := tail - 1;
    }
  }

  lemma PrefixLess(es: Order, a: nat, b: nat)
    requires a <= b <= |es|
    ensures Weight(es[..a]) <= Weight(es[..b])
  {
    assert es[..b][..a] == es[..a];
    SumPrefix(es[..b], a);
  }

  lemma PrefixMore(es: Order, k: nat)
    requires k < |es|
    ensures Weight(es[..k + 1]) == Weight(es[..k]) + es[k].weight
  {
    assert es[..k + 1][..k] == es[..k];
  }

  lemma SuffixMore(es: Order, k: nat)
    requires k < |es|
    ensures Weight(es[k..]) == es[k].weight + Weight(es[k + 1..])
  {
    assert es[k..] == [es[k]] + es[k + 1..];
    SumCons(es[k], es[k + 1..]);
  }

  lemma SuffixLess(es: Order, i: nat, k: nat)
    requires i < k < |es|
    ensures Weight(es[k..]) <= Weight(es[i + 1..])
  {
    assert es[i + 1..][k - i - 1..] == es[k..];
    SumPrefix(es[i + 1..], k - i - 1);
  }

  // ---------------------------------------------------------------------------------------------
  // Shedding under memory pressure
  // ---------------------------------------------------------------------------------------------

  /** The goals of one shedding pass; `flush` empties the cache but for the protected entry. */
  datatype Goals = Goals(bytes: nat, len: nat, zeros: nat, flush: bool)

  /** computeShedTargets, with the products of the retention ratio given as `keepLen` and `keepZeros`. */
  function Targets(target: nat, retentionZero: bool, count: nat, zeroCount: nat, hasProt: bool, protWeight: nat,
                   keepLen: nat, keepZeros: nat, lastLen: nat, lastZeros: nat): Goals {
    if retentionZero then Goals(target, 0, 0, true)
    else
      var bytes := if hasProt && protWeight > target then protWeight else target;
      if zeroCount == 0 then Goals(bytes, 0, 0, false)
      else
        var len := if count > 0 && (!hasProt || protWeight <= target) && lastLen > keepLen then lastLen else keepLen;
        var open := if keepZeros < lastZeros then lastZeros else keepZeros;
        var zeros := if hasProt && protWeight == 0 && open < 1 then 1 else open;
        Goals(bytes, len, zeros, false)
  }

  /** The targets for a cache that holds `es`. */
  function ShedGoals(target: nat, retentionZero: bool, es: Order, prot: Option<Entry>, keepLen: nat, keepZeros: nat,
      lastLen: nat, lastZeros: nat): Goals {
    var weight := if prot.Some? then prot.value.weight else 0;
    Targets(target, retentionZero, |es|, Zeros(es), prot.Some?, weight, keepLen, keepZeros, lastLen, lastZeros)
  }

  predicate NeedBytes(es: Order, g: Goals) {
    g.flush || Weight(es) > g.bytes
  }

  predicate NeedZeros(es: Order, g: Goals) {
    !g.flush && Zeros(es) > g.zeros && |es| > g.len
  }

  predicate IsProt(e: Entry, prot: Option<Entry>) {
    prot.Some? && prot.value.key == e.key
  }

  /** shouldEvictShedVictim, with `all` the entries still in the cache. */
  predicate Victim(e: Entry, all: Order, g: Goals, prot: Option<Entry>) {
    if IsProt(e, prot) then false
    else if g.flush || (NeedBytes(all, g) && Zeros(all) > g.zeros) then true
    else if NeedBytes(all, g) then e.weight > 0
    else e.weight == 0
  }

  /** One pass from the tail to the head: `kept` has been passed over, `es` is still to come. */
  function Shed(es: Order, kept: Order, g: Goals, prot: Option<Entry>): Order
    decreases |es|
  {
    if es == [] || !(NeedBytes(es + kept, g) || NeedZeros(es + kept, g)) then es + kept
    else
      var e, rest := es[|es| - 1], es[..|es| - 1];
      if Victim(e, es + kept, g, prot) then Shed(rest, kept, g, prot) else Shed(rest, [e] + kept, g, prot)
  }

  /** What is known of the entries passed over so far. */
  predicate KeptOk(es: Order, kept: Order, g: Goals, prot: Option<Entry>) {
    && (NeedBytes(es + kept, g) ==> forall i :: 0 <= i < |kept| && !IsProt(kept[i], prot) ==> kept[i].weight == 0)
    && (g.flush || Zeros(es + kept) > g.zeros ==>
          forall i :: 0 <= i < |kept| && !IsProt(kept[i], prot) ==> !g.flush && kept[i].weight > 0)
  }

  /** Removing the last unvisited entry, or passing over it, changes the remaining entries only by that entry. */
  lemma ShedStep(es: Order, kept: Order)
    requires es != []
    ensures es[..|es| - 1] + ([es[|es| - 1]] + kept) == es + kept
    ensures Weight(es[..|es| - 1] + kept) == Weight(es + kept) - es[|es| - 1].weight
    ensures Zeros(es[..|es| - 1] + kept) == Zeros(es + kept) - if es[|es| - 1].weight == 0 then 1 else 0
  {
    var e, rest := es[|es| - 1], es[..|es| - 1];
    assert es + kept == rest + [e] + kept;
    hide Weight, Zeros;
    SumThree(rest, e, kept);
    SumConcat(rest, kept);
    SumOne(e);
  }

  lemma KeptStep(es: Order, kept: Order, g: Goals, prot: Option<Entry>)
    requires es != [] && KeptOk(es, kept, g, prot) && (NeedBytes(es + kept, g) || NeedZeros(es + kept, g))
    ensures var e, rest := es[|es| - 1], es[..|es| - 1];
            if Victim(e, es + kept, g, prot) then KeptOk(rest, kept, g, prot) else KeptOk(rest, [e] + kept, g, prot)
  {
    ShedStep(es, kept);
    hide Weight, Zeros;
  }

  /** The protected entry, where it is present, is as the goals assume it. */
  predicate ProtOk(es: Order, g: Goals, prot: Option<Entry>) {
    forall i :: 0 <= i < |es| && IsProt(es[i], prot) ==> es[i] == prot.value && (g.flush || es[i].weight <= g.bytes)
  }

  /** Only the protected entry can be left, so its weight and count bound the sums. */
  lemma {:induction false} OnlyProtected(es: Order, prot: Option<Entry>)
    requires Distinct(es) && forall i :: 0 <= i < |es| ==> IsProt(es[i], prot) || es[i].weight == 0
    requires forall i :: 0 <= i < |es| && IsProt(es[i], prot) ==> es[i] == prot.value
    ensures Weight(es) <= if prot.Some? then prot.value.weight else 0
    ensures (forall i :: 0 <= i < |es| ==> !IsProt(es[i], prot)) ==> Weight(es) == 0
  {
    if es != [] {
      OnlyProtected(es[..|es| - 1], prot);
    }
  }

  lemma {:induction false} FewZeros(es: Order, prot: Option<Entry>)
    requires Distinct(es) && forall i :: 0 <= i < |es| ==> IsProt(es[i], prot) || es[i].weight > 0
    ensures Zeros(es) <= if prot.Some? then 1 else 0
    ensures (forall i :: 0 <= i < |es| && IsProt(es[i], prot) ==> es[i].weight > 0) ==> Zeros(es) == 0
    ensures (forall i :: 0 <= i < |es| ==> !IsProt(es[i], prot)) ==> Zeros(es) == 0
  {
    if es != [] {
      FewZeros(es[..|es| - 1], prot);
    }
  }

  /** The result of a pass: both goals are reached as far as the protected entry allows. */
  lemma {:induction false} ShedGoalsMet(es: Order, kept: Order, g: Goals, prot: Option<Entry>)
    requires Distinct(es + kept) && KeptOk(es, kept, g, prot) && ProtOk(es + kept, g, prot)
    ensures var r := Shed(es, kept, g, prot);
            && (!g.flush ==> Weight(r) <= g.bytes)
            && (!g.flush ==>
                  || Zeros(r) <= g.zeros || |r| <= g.len
                  || (prot.Some? && prot.value.weight == 0 && g.zeros == 0 && Zeros(r) == 1))
            && (g.flush ==> forall i :: 0 <= i < |r| ==> IsProt(r[i], prot))
    decreases |es|
  {
    hide Weight, Zeros, Distinct, ProtOk, KeptOk, Victim;
    if es == [] {
      assert es + kept == kept;
      ShedEnd(kept, g, prot);
    } else if NeedBytes(es + kept, g) || NeedZeros(es + kept, g) {
      KeptStep(es, kept, g, prot);
      ShedStep(es, kept);
      var e, rest := es[|es| - 1], es[..|es| - 1];
      if Victim(e, es + kept, g, prot) {
        LessOne(es, kept, g, prot);
        ShedGoalsMet(rest, kept, g, prot);
      } else {
        ShedGoalsMet(rest, [e] + kept, g, prot);
      }
    } else {
      NoFlush(es + kept, g);
    }
  }

  lemma NoFlush(es: Order, g: Goals)
    requires !NeedBytes(es, g) && !NeedZeros(es, g)
    ensures !g.flush && Weight(es) <= g.bytes && (Zeros(es) <= g.zeros || |es| <= g.len)
  {
  }

  /** At the end of the list everything is visited. */
  lemma ShedEnd(kept: Order, g: Goals, prot: Option<Entry>)
    requires Distinct(kept) && KeptOk([], kept, g, prot) && ProtOk(kept, g, prot)
    ensures !g.flush ==> Weight(kept) <= g.bytes
    ensures !g.flush ==>
              || Zeros(kept) <= g.zeros || |kept| <= g.len
              || (prot.Some? && prot.value.weight == 0 && g.zeros == 0 && Zeros(kept) == 1)
    ensures g.flush ==> forall i :: 0 <= i < |kept| ==> IsProt(kept[i], prot)
  {
    hide Weight, Zeros;
    assert [] + kept == kept;
    if NeedBytes(kept, g) && !g.flush {
      NoWeight(kept, prot, g);
    }
    if !g.flush && Zeros(kept) > g.zeros {
      FewZeros(kept, prot);
    }
  }

  lemma LessOne(es: Order, kept: Order, g: Goals, prot: Option<Entry>)
    requires es != [] && Distinct(es + kept) && ProtOk(es + kept, g, prot)
    ensures Distinct(es[..|es| - 1] + kept) && ProtOk(es[..|es| - 1] + kept, g, prot)
  {
    var rest := es[..|es| - 1];
    assert forall i :: 0 <= i < |rest| ==> (rest + kept)[i] == (es + kept)[i];
    assert forall i :: |rest| <= i < |rest + kept| ==> (rest + kept)[i] == (es + kept)[i + 1];
  }

  /** If nothing but the protected entry and weightless entries are left, the byte goal is met. */
  lemma NoWeight(es: Order, prot: Option<Entry>, g: Goals)
    requires Distinct(es) && ProtOk(es, g, prot) && !g.flush
    requires forall i :: 0 <= i < |es| && !IsProt(es[i], prot) ==> es[i].weight == 0
    ensures Weight(es) <= g.bytes
  {
    OnlyProtected(es, prot);
    if i :| 0 <= i < |es| && IsProt(es[i], prot) {
      assert es[i] == prot.value;
    }
  }

  /** The protected entry survives, the order of survivors is kept, and entries more recent than the point where
      the pass stops are untouched. */
  lemma {:induction false} ShedKeeps(es: Order, kept: Order, g: Goals, prot: Option<Entry>, e: Entry)
    requires e in es + kept
    ensures IsProt(e, prot) || e in kept ==> e in Shed(es, kept, g, prot)
    ensures forall x :: x in Shed(es, kept, g, prot) ==> x in es + kept
    ensures |Shed(es, kept, g, prot)| <= |es| + |kept|
    decreases |es|
  {
    hide Weight, Zeros;
    if es != [] && (NeedBytes(es + kept, g) || NeedZeros(es + kept, g)) {
      var v, rest := es[|es| - 1], es[..|es| - 1];
      assert es + kept == rest + ([v] + kept);
      if Victim(v, es + kept, g, prot) {
        assert forall x :: x in rest + kept ==> x in es + kept;
        if e in rest + kept {
          ShedKeeps(rest, kept, g, prot, e);
        } else {
          if rest + kept != [] {
            ShedKeeps(rest, kept, g, prot, (rest + kept)[0]);
          } else {
            assert Shed(rest, kept, g, prot) == rest + kept;
          }
        }
      } else {
        ShedKeeps(rest, [v] + kept, g, prot, e);
      }
    }
  }

  lemma ShedWhole(es: Order, kept: Order, g: Goals, prot: Option<Entry>)
    requires |Shed(es, kept, g, prot)| == |es| + |kept|
    ensures Shed(es, kept, g, prot) == es + kept
    decreases |es|
  {
    hide Weight, Zeros;
    if es != [] && (NeedBytes(es + kept, g) || NeedZeros(es + kept, g)) {
      var v, rest := es[|es| - 1], es[..|es| - 1];
      assert es + kept == rest + ([v] + kept);
      if Victim(v, es + kept, g, prot) {
        if rest + kept != [] {
          ShedKeeps(rest, kept, g, prot, (rest + kept)[0]);
        }
      } else {
        ShedWhole(rest, [v] + kept, g, prot);
      }
    }
  }

  /** `es` with `v` put back at position `i` still misses a goal. */
  predicate StillNeeds(es: Order, i: nat, v: Entry, g: Goals)
    requires i <= |es|
  {
    NeedBytes(es[..i] + [v] + es[i..], g) || NeedZeros(es[..i] + [v] + es[i..], g)
  }

  /** The pass stops as soon as the goals are met: with its last victim put back, they would not be. */
  lemma {:induction false} ShedTight(es: Order, kept: Order, g: Goals, prot: Option<Entry>) returns (i: nat, v: Entry)
    requires |Shed(es, kept, g, prot)| < |es| + |kept|
    ensures i <= |Shed(es, kept, g, prot)| && StillNeeds(Shed(es, kept, g, prot), i, v, g)
    decreases |es|
  {
    hide Weight, Zeros;
    var e, rest := es[|es| - 1], es[..|es| - 1];
    assert es + kept == rest + ([e] + kept);
    if Victim(e, es + kept, g, prot) {
      if |Shed(rest, kept, g, prot)| < |rest| + |kept| {
        i, v := ShedTight(rest, kept, g, prot);
      } else {
        if rest + kept != [] {
          ShedKeeps(rest, kept, g, prot, (rest + kept)[0]);
        }
        ShedWhole(rest, kept, g, prot);
        i, v := |rest|, e;
        assert (rest + kept)[..i] + [v] + (rest + kept)[i..] == es + kept;
      }
    } else {
      i, v := ShedTight(rest, [e] + kept, g, prot);
    }
  }

  /** One shedding pass with the goals of computeShedTargets. */
  lemma ShedOutcome(es: Order, prot: Option<Entry>, target: nat, retentionZero: bool, keepLen: nat, keepZeros: nat,
      lastLen: nat, lastZeros: nat)
    requires Distinct(es) && (prot.Some? ==> prot.value in es)
    ensures var g := ShedGoals(target, retentionZero, es, prot, keepLen, keepZeros, lastLen, lastZeros);
            var r := Shed(es, [], g, prot);
            && Weight(r) <= (if prot.Some? && prot.value.weight > target then prot.value.weight else target)
            && (retentionZero ==> r == if prot.Some? then [prot.value] else [])
            && (!retentionZero ==> Zeros(r) <= g.zeros || |r| <= g.len)
            && (prot.Some? ==> prot.value in r)
  {
    hide Weight, Zeros;
    var g := ShedGoals(target, retentionZero, es, prot, keepLen, keepZeros, lastLen, lastZeros);
    var r := Shed(es, [], g, prot);
    assert es + [] == es;
    assert ProtOk(es, g, prot);
    ShedGoalsMet(es, [], g, prot);
    if prot.Some? {
      ShedKeeps(es, [], g, prot, prot.value);
    }
    if Zeros(es) == 0 {
      ShedNoZeros(es, [], g, prot);
    }
    if retentionZero {
      if r != [] {
        ShedDistinct(es, [], g, prot);
        assert IsProt(r[0], prot);
        OnlyOne(r, prot.value);
        SumOne(r[0]);
      } else {
        SumNone();
      }
    }
  }

  lemma OnlyOne(es: Order, e: Entry)
    requires Distinct(es) && e in es && forall i :: 0 <= i < |es| ==> es[i].key == e.key
    ensures es == [e]
  {
    if |es| >= 2 {
      SameKeys(es, e.key);
    }
  }

  lemma SameKeys(es: Order, key: Bytes)
    requires |es| >= 2 && forall i :: 0 <= i < |es| ==> es[i].key == key
    ensures !Distinct(es)
  {
    assert es[0].key == key && es[1].key == key;
  }

  lemma SumNone()
    ensures Weight([]) == 0 && Zeros([]) == 0
  {
  }

  lemma {:induction false} ShedNoZeros(es: Order, kept: Order, g: Goals, prot: Option<Entry>)
    requires Zeros(es + kept) == 0
    ensures Zeros(Shed(es, kept, g, prot)) == 0
    decreases |es|
  {
    hide Weight, Zeros;
    if es != [] && (NeedBytes(es + kept, g) || NeedZeros(es + kept, g)) {
      ShedStep(es, kept);
      ShedNoZeros(es[..|es| - 1], kept, g, prot);
      ShedNoZeros(es[..|es| - 1], [es[|es| - 1]] + kept, g, prot);
    }
  }

  lemma {:induction false} ShedDistinct(es: Order, kept: Order, g: Goals, prot: Option<Entry>)
    requires Distinct(es + kept)
    ensures Distinct(Shed(es, kept, g, prot))
    decreases |es|
  {
    hide Weight, Zeros;
    if es != [] && (NeedBytes(es + kept, g) || NeedZeros(es + kept, g)) {
      var e, rest := es[|es| - 1], es[..|es| - 1];
      assert es + kept == rest + ([e] + kept);
      if Victim(e, es + kept, g, prot) {
        LessOne(es, kept, Goals(0, 0, 0, true), None);
        ShedDistinct(rest, kept, g, prot);
      } else {
        ShedDistinct(rest, [e] + kept, g, prot);
      }
    }
  }
}

/**
 What Put and Replace leave in the recency list, stated on the list alone.
 */
module PutOutcomes {
  import opened Bytes
  import opened LruPolicy
  import MC = MapCache

  /** A new weightless entry: the list is full in one of two ways, and the last entry goes, or all stay. */
  lemma PutWeightless(es: Order, key: Bytes, value: Value, max: nat)
    requires Find(es, key) == |es| && Weight(es) <= max
    ensures MC.PutOrder(es, key, value, 0, max)
            == [Entry(key, value, 0)]
               + if es != [] && (Zeros(es) >= max || (Weight(es) >= max && |es| >= max)) then es[..|es| - 1] else es
  {
    RoomZero(es, max);
  }

  /** A new entry with weight: as many of the most recent entries stay as are admitted beside it. */
  lemma PutWeighted(es: Order, key: Bytes, value: Value, w: nat, max: nat)
    requires Find(es, key) == |es| && Weight(es) <= max && 0 < w <= max
    ensures var r := MC.PutOrder(es, key, value, w, max);
            && r != [] && r[0] == Entry(key, value, w) && r[1..] <= es
            && Weight(r) <= max && (Zeros(r[1..]) <= max || Zeros(r[1..]) + Weight(r) <= 2 * max)
            && forall n :: |r| - 1 < n <= |es| ==>
                 Weight(es[..n]) + w > max || (Zeros(es[..n]) > max && Zeros(es[..n]) + Weight(es[..n]) + w > 2 * max)
  {
    hide Weight, Zeros, MustEvict;
    var room := Room(es, w, max, false);
    RoomLongest(es, w, max, false);
    SumCons(Entry(key, value, w), room);
    assert MC.PutOrder(es, key, value, w, max)[1..] == room;
  }

  /** A held entry gets a new value and weight and moves to the front.  The last of the others goes if the entry
      shrinks to weight zero while there are as many weightless entries as the capacity; otherwise as many of the most
      recent others stay as fit beside it, so all of them if they fit. */
  lemma PutHeld(es: Order, key: Bytes, value: Value, w: nat, max: nat)
    requires Find(es, key) < |es| && Weight(es) <= max && w <= max
    ensures var i, r := Find(es, key), MC.PutOrder(es, key, value, w, max);
            var others := Drop(es, i);
            && r != [] && r[0] == Entry(key, value, w) && r[1..] <= others && Weight(r) <= max
            && if es[i].weight > 0 && w == 0 && Zeros(es) >= max && others != [] then r[1..] == others[..|others| - 1]
               else forall n :: |r| - 1 < n <= |others| ==> Weight(others[..n]) + w > max
  {
    hide Weight, Zeros, Find;
    HeldKey(es, key);
    var i := Find(es, key);
    var others := Drop(es, i);
    var shrinks := es[i].weight > 0 && w == 0 && Zeros(es) >= max;
    var room := UpdateRoom(others, w, max, shrinks);
    assert MC.PutOrder(es, key, value, w, max) == [Entry(key, value, w)] + room;
    assert ([Entry(key, value, w)] + room)[1..] == room;
    SumCons(Entry(key, value, w), room);
    UpdateRoomLongest(others, w, max, shrinks);
    if shrinks {
      SumDrop(es, i);
      OneGoes(others, max);
    }
  }

  lemma HeldKey(es: Order, key: Bytes)
    ensures Find(es, key) < |es| ==> es[Find(es, key)].key == key
  {
  }

  /** An entry that shrinks to nothing pushes out one other. */
  lemma OneGoes(others: Order, max: nat)
    requires Weight(others) <= max
    ensures UpdateRoom(others, 0, max, true) == if others == [] then [] else others[..|others| - 1]
  {
    if others != [] {
      SumPrefix(others, |others| - 1);
    }
  }

  /** Replace with a weight that is not larger keeps the place; the last entry, if it is another one, goes when the
      entry shrinks to weight zero while there are as many weightless entries as the capacity. */
  lemma ReplaceShrinking(es: Order, i: nat, value: Value, w: nat, max: nat)
    requires i < |es| && w <= es[i].weight
    ensures var all := es[i := Entry(es[i].key, value, w)];
            Replaced(es, i, value, w, max)
            == if es[i].weight > 0 && w == 0 && Zeros(es) >= max && i < |es| - 1 then all[..|es| - 1] else all
  {
  }

  /** Replace with a larger weight keeps the place and everything newer, and as many of the most recent older entries as
      fit; an entry that does not fit beside the newer ones goes alone. */
  lemma ReplaceGrowing(es: Order, i: nat, value: Value, w: nat, max: nat)
    requires i < |es| && w > es[i].weight && Weight(es) <= max
    ensures var r, older := Replaced(es, i, value, w, max), es[i + 1..];
            if w + Weight(es[..i]) > max then r == es[..i] + older
            else
              && i < |r| && r[..i] == es[..i] && r[i] == Entry(es[i].key, value, w) && r[i + 1..] <= older
              && Weight(r) <= max
              && forall n :: |r| - i - 1 < n <= |older| ==> w + Weight(es[..i]) + Weight(older[..n]) > max
  {
    hide Weight, Zeros;
    if w + Weight(es[..i]) <= max {
      GrownMeans(es, i, value, w, max);
    }
  }
}

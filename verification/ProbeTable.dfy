/**
 The cyclic geometry of the open-addressed hash table (arena_radix.go, hashSlots): slots with a
 32-bit tag, linear probing from the home position, and back-shift deletion.  Tag 0 marks an empty
 slot.  Positions are cyclic; `Dist` is the source's `(b - a) & mask`.
 */
module ProbeTable {

  datatype Slot = Slot(tag: nat, id: nat)

  const EMPTY := Slot(0, 0)

  type Table = seq<Slot>

  /** Number of forward steps from position `a` to position `b` on a cycle of `n` positions. */
  function Dist(a: int, b: int, n: int): int {
    if a <= b then b - a else b - a + n
  }

  function Next(i: int, n: int): int {
    if i + 1 == n then 0 else i + 1
  }

  /** The first position probed for a tag: `tag & mask`. */
  function Home(tag: nat, n: nat): (h: nat)
    requires 0 < n
    ensures h < n
  {
    tag % n
  }

  predicate Occ(t: Table, i: int) {
    0 <= i < |t| && t[i].tag != 0
  }

  /** Position `j` lies on the probe path of the slot at `i`, before `i`. */
  predicate OnPath(t: Table, i: int, j: int)
    requires 0 <= i < |t|
  {
    Dist(Home(t[i].tag, |t|), j, |t|) < Dist(Home(t[i].tag, |t|), i, |t|)
  }

  /** Every entry is reachable from its home without crossing an empty slot. */
  ghost predicate Chained(t: Table) {
    forall i, j :: Occ(t, i) && 0 <= j < |t| && OnPath(t, i, j) ==> Occ(t, j)
  }

  ghost function OccSet(t: Table): set<int> {
    set i | 0 <= i < |t| && t[i].tag != 0
  }

  /** The load rule leaves an empty slot, so every probe loop ends. */
  predicate Loaded(count: int, n: int) {
    count * 5 <= n * 4
  }

  lemma {:induction false} Below(n: nat, s: set<int>)
    requires forall i :: i in s ==> 0 <= i < n
    ensures |s| <= n
    ensures (forall i :: 0 <= i < n ==> i in s) ==> |s| == n
  {
    if n == 0 {
      assert forall x :: x in s ==> x in {};
      assert s <= {};
    } else {
      Below(n - 1, s - {n - 1});
    }
  }

  lemma EmptySlotExists(t: Table, count: int) returns (e: int)
    requires |OccSet(t)| == count && Loaded(count, |t|) && 0 < |t|
    ensures 0 <= e < |t| && t[e].tag == 0
  {
    Below(|t|, OccSet(t));
    e :| 0 <= e < |t| && e !in OccSet(t);
  }

  // ---------------------------------------------------------------------------------------------
  // Probing
  // ---------------------------------------------------------------------------------------------

  /** An entry whose home is `h` cannot hide behind an empty slot met when probing from `h`. */
  lemma NothingBehindEmpty(t: Table, tag: nat, e: int, i: int)
    requires Chained(t) && 0 < |t| && 0 <= e < |t| && t[e].tag == 0
    requires Occ(t, i) && t[i].tag == tag
    ensures Dist(Home(tag, |t|), i, |t|) < Dist(Home(tag, |t|), e, |t|)
  {
    assert !OnPath(t, i, e);
  }

  /** Writing into the first empty slot met from the home position keeps every chain. */
  lemma InsertChained(t: Table, s: Slot, e: int)
    requires Chained(t) && 0 <= e < |t| && t[e].tag == 0 && s.tag != 0
    requires forall j :: 0 <= j < |t| && Dist(Home(s.tag, |t|), j, |t|) < Dist(Home(s.tag, |t|), e, |t|) ==>
               t[j].tag != 0
    ensures Chained(t[e := s]) && OccSet(t[e := s]) == OccSet(t) + {e}
  {
    var t' := t[e := s];
    forall i, j | Occ(t', i) && 0 <= j < |t'| && OnPath(t', i, j)
      ensures Occ(t', j)
    {
      if i != e {
        assert Occ(t, i) && OnPath(t, i, j);
      }
    }
  }

  /** The next free position for `tag`: the probe loop of insertNewHashSlotLocked and of the
      rehashing loops. */
  method FreeSlotFor(t: Table, tag: nat, ghost e: int) returns (idx: nat)
    requires 0 <= e < |t| && t[e].tag == 0
    ensures idx < |t| && t[idx].tag == 0
    ensures forall j :: 0 <= j < |t| && Dist(Home(tag, |t|), j, |t|) < Dist(Home(tag, |t|), idx, |t|) ==> t[j].tag != 0
  {
    var h := Home(tag, |t|);
    idx := h;
    while t[idx].tag != 0
      invariant idx < |t| && Dist(h, idx, |t|) <= Dist(h, e, |t|)
      invariant forall j :: 0 <= j < |t| && Dist(h, j, |t|) < Dist(h, idx, |t|) ==> t[j].tag != 0
      decreases Dist(h, e, |t|) - Dist(h, idx, |t|)
    {
      idx := Next(idx, |t|);
    }
  }

  // ---------------------------------------------------------------------------------------------
  // Back-shift deletion
  // ---------------------------------------------------------------------------------------------

  /** The table seen with position `hole` vacated: every other entry's path is intact, except that
      entries at distance at least `b` from `d0` may still run through the hole. */
  ghost predicate Shifting(t: Table, d0: int, hole: int, b: int) {
    && (forall i, j :: Occ(t, i) && i != hole && 0 <= j < |t| && OnPath(t, i, j) ==> Occ(t, j))
    && (forall i :: Occ(t, i) && i != hole && OnPath(t, i, hole) ==> b <= Dist(d0, i, |t|))
    && (forall j :: 0 <= j < |t| && Dist(d0, j, |t|) < b ==> Occ(t, j))
  }

  /** A path that reaches back to a position further from `d0` than its own slot passes every position beyond. */
  lemma PathWraps(t: Table, d0: int, i: int, curr: int, e: int)
    requires 0 <= d0 < |t| && 0 <= i < |t| && 0 <= curr < |t| && 0 <= e < |t| && OnPath(t, i, curr)
    requires 0 <= Home(t[i].tag, |t|) < |t|
    requires Dist(d0, i, |t|) < Dist(d0, curr, |t|) < Dist(d0, e, |t|)
    ensures OnPath(t, i, e)
  {
  }

  /** A path through `hole` passes every position between it and its own slot. */
  lemma PathPasses(t: Table, d0: int, i: int, hole: int, e: int)
    requires 0 <= d0 < |t| && 0 <= i < |t| && 0 <= hole < |t| && 0 <= e < |t| && OnPath(t, i, hole) && e != i
    requires 0 <= Home(t[i].tag, |t|) < |t|
    requires Dist(d0, hole, |t|) < Dist(d0, e, |t|) <= Dist(d0, i, |t|)
    ensures OnPath(t, i, e)
  {
  }

  lemma ShiftStart(t: Table, d0: int)
    requires Chained(t) && Occ(t, d0)
    ensures Shifting(t, d0, d0, 1)
  {
  }

  /** The slot at `curr` does not probe through the hole: leave it. */
  lemma ShiftSkip(t: Table, d0: int, hole: int, curr: int, e: int)
    requires 0 <= d0 < |t| && Occ(t, hole) && Occ(t, curr) && 0 <= e < |t| && t[e].tag == 0
    requires Shifting(t, d0, hole, Dist(d0, curr, |t|))
    requires Dist(d0, hole, |t|) < Dist(d0, curr, |t|) < Dist(d0, e, |t|)
    requires Dist(Home(t[curr].tag, |t|), hole, |t|) > Dist(Home(t[curr].tag, |t|), curr, |t|)
    ensures Shifting(t, d0, hole, Dist(d0, curr, |t|) + 1)
  {
  }

  /** The slot at `curr` probes through the hole: move it there; its old place is the new hole. */
  lemma ShiftMove(t: Table, d0: int, hole: int, curr: int, e: int)
    requires 0 <= d0 < |t| && Occ(t, hole) && Occ(t, curr) && 0 <= e < |t| && t[e].tag == 0
    requires Shifting(t, d0, hole, Dist(d0, curr, |t|))
    requires Dist(d0, hole, |t|) < Dist(d0, curr, |t|) < Dist(d0, e, |t|)
    requires Dist(Home(t[curr].tag, |t|), hole, |t|) <= Dist(Home(t[curr].tag, |t|), curr, |t|)
    ensures Shifting(t[hole := t[curr]], d0, curr, Dist(d0, curr, |t|) + 1)
  {
    var t' := t[hole := t[curr]];
    forall i, j | Occ(t', i) && i != curr && 0 <= j < |t'| && OnPath(t', i, j)
      ensures Occ(t', j)
    {
      if i != hole {
        assert Occ(t, i) && OnPath(t, i, j);
      } else {
        assert OnPath(t, curr, j);
      }
    }
    forall i | Occ(t', i) && i != curr && OnPath(t', i, curr)
      ensures Dist(d0, curr, |t|) + 1 <= Dist(d0, i, |t|)
    {
      if i != hole && Dist(d0, i, |t|) < Dist(d0, curr, |t|) {
        // The path would wrap around through the empty slot e.
        PathWraps(t, d0, i, curr, e);
      }
    }
  }

  /** At the first empty slot nobody runs through the hole any more, so it can be cleared. */
  lemma ShiftEnd(t: Table, d0: int, hole: int, e: int)
    requires 0 <= d0 < |t| && Occ(t, hole) && 0 <= e < |t| && t[e].tag == 0
    requires Shifting(t, d0, hole, Dist(d0, e, |t|)) && Dist(d0, hole, |t|) < Dist(d0, e, |t|)
    ensures Chained(t[hole := EMPTY]) && OccSet(t[hole := EMPTY]) == OccSet(t) - {hole}
  {
    var t' := t[hole := EMPTY];
    forall i, j | Occ(t', i) && 0 <= j < |t'| && OnPath(t', i, j)
      ensures Occ(t', j)
    {
      assert Occ(t, i) && OnPath(t, i, j);
      if j == hole {
        PathPasses(t, d0, i, hole, e);
      }
    }
  }

  /** The entries of the table, leaving out position `hole`. */
  ghost function EntriesBut(t: Table, hole: int): set<Slot> {
    set i | 0 <= i < |t| && t[i].tag != 0 && i != hole :: t[i]
  }

  ghost function Entries(t: Table): set<Slot> {
    EntriesBut(t, -1)
  }

  /** No node is entered twice, leaving out position `hole`. */
  ghost predicate DistinctBut(t: Table, hole: int) {
    forall i, j :: Occ(t, i) && Occ(t, j) && i != j && i != hole && j != hole ==> t[i].id != t[j].id
  }

  ghost predicate Distinct(t: Table) {
    DistinctBut(t, -1)
  }

  lemma EntryAt(t: Table, hole: int, i: int)
    requires Occ(t, i) && i != hole
    ensures t[i] in EntriesBut(t, hole)
  {
  }

  lemma EntriesRemove(t: Table, hole: int)
    requires Occ(t, hole) && Distinct(t)
    ensures EntriesBut(t, hole) == Entries(t) - {t[hole]}
  {
    forall s | s in Entries(t) - {t[hole]}
      ensures s in EntriesBut(t, hole)
    {
      var i :| 0 <= i < |t| && t[i].tag != 0 && t[i] == s;
      EntryAt(t, hole, i);
    }
  }

  lemma EntriesMove(t: Table, hole: int, curr: int)
    requires Occ(t, hole) && Occ(t, curr) && curr != hole
    ensures EntriesBut(t[hole := t[curr]], curr) == EntriesBut(t, hole)
  {
    var t' := t[hole := t[curr]];
    forall s | s in EntriesBut(t, hole)
      ensures s in EntriesBut(t', curr)
    {
      var i :| 0 <= i < |t| && t[i].tag != 0 && i != hole && t[i] == s;
      EntryAt(t', curr, if i == curr then hole else i);
    }
    forall s | s in EntriesBut(t', curr)
      ensures s in EntriesBut(t, hole)
    {
      var i :| 0 <= i < |t'| && t'[i].tag != 0 && i != curr && t'[i] == s;
      EntryAt(t, hole, if i == hole then curr else i);
    }
  }

  lemma EntriesInsert(t: Table, e: int, s: Slot)
    requires 0 <= e < |t| && t[e].tag == 0 && s.tag != 0
    ensures Entries(t[e := s]) == Entries(t) + {s}
  {
    var t' := t[e := s];
    forall x | x in Entries(t) + {s}
      ensures x in Entries(t')
    {
      if x in Entries(t) {
        var i :| 0 <= i < |t| && t[i].tag != 0 && t[i] == x;
        EntryAt(t', -1, i);
      } else {
        EntryAt(t', -1, e);
      }
    }
  }

  /** Loop invariant of the back-shift: what is known with the scan at `curr`. */
  ghost predicate ShiftInv(t0: Table, t: Table, del: int, hole: int, curr: int, e: int) {
    && |t| == |t0| && 0 <= del < |t| && 0 <= e < |t| && t[e].tag == 0 && Occ(t, hole) && 0 <= curr < |t|
    && OccSet(t) == OccSet(t0)
    && Dist(del, hole, |t|) < Dist(del, curr, |t|) <= Dist(del, e, |t|)
    && Shifting(t, del, hole, Dist(del, curr, |t|))
    && DistinctBut(t, hole) && EntriesBut(t, hole) == EntriesBut(t0, del)
  }

  lemma ShiftInvStart(t: Table, del: int, e: int)
    requires Occ(t, del) && Chained(t) && Distinct(t) && 0 <= e < |t| && t[e].tag == 0
    ensures ShiftInv(t, t, del, del, Next(del, |t|), e)
  {
    ShiftStart(t, del);
  }

  lemma ShiftInvStep(t0: Table, t: Table, del: int, hole: int, curr: int, e: int)
    requires ShiftInv(t0, t, del, hole, curr, e) && t[curr].tag != 0
    ensures var home := Home(t[curr].tag, |t|); var next := Next(curr, |t|);
            if Dist(home, hole, |t|) <= Dist(home, curr, |t|)
            then ShiftInv(t0, t[hole := t[curr]], del, curr, next, e)
            else ShiftInv(t0, t, del, hole, next, e)
  {
    hide Shifting, EntriesBut, OccSet;
    assert Dist(del, Next(curr, |t|), |t|) == Dist(del, curr, |t|) + 1;
    if Dist(Home(t[curr].tag, |t|), hole, |t|) <= Dist(Home(t[curr].tag, |t|), curr, |t|) {
      ShiftMove(t, del, hole, curr, e);
      EntriesMove(t, hole, curr);
      OccMove(t, hole, curr);
    } else {
      ShiftSkip(t, del, hole, curr, e);
    }
  }

  lemma OccMove(t: Table, hole: int, curr: int)
    requires Occ(t, hole) && Occ(t, curr)
    ensures OccSet(t[hole := t[curr]]) == OccSet(t)
  {
  }

  /** backshiftDeleteSlot: removes exactly one entry and keeps all others reachable. */
  method Backshift(t: Table, del: nat, ghost count: int) returns (t': Table)
    requires Occ(t, del) && Chained(t) && Distinct(t)
    requires |OccSet(t)| == count && Loaded(count, |t|)
    ensures |t'| == |t| && Chained(t') && Distinct(t')
    ensures |OccSet(t')| == count - 1
    ensures Entries(t') == Entries(t) - {t[del]}
  {
    hide Shifting, Chained, EntriesBut, DistinctBut;
    ghost var e := EmptySlotExists(t, count);
    var n := |t|;
    t' := t;
    var hole := del;
    var curr := Next(hole, n);
    ShiftInvStart(t, del, e);
    while t'[curr].tag != 0
      invariant |t'| == n && 0 <= hole < n && 0 <= curr < n && ShiftInv(t, t', del, hole, curr, e)
      decreases Dist(del, e, n) - Dist(del, curr, n)
    {
      ShiftInvStep(t, t', del, hole, curr, e);
      var slot := t'[curr];
      var home := Home(slot.tag, n);
      if Dist(home, hole, n) <= Dist(home, curr, n) {
        t' := t'[hole := slot];
        hole := curr;
      }
      curr := Next(curr, n);
    }
    ShiftEnd(t', del, hole, curr);
    EntriesClear(t', hole);
    EntriesRemove(t, del);
    t' := t'[hole := EMPTY];
  }

  lemma EntriesClear(t: Table, hole: int)
    requires 0 <= hole < |t|
    ensures Entries(t[hole := EMPTY]) == EntriesBut(t, hole)
    ensures DistinctBut(t, hole) ==> Distinct(t[hole := EMPTY])
  {
    forall s | s in EntriesBut(t, hole)
      ensures s in Entries(t[hole := EMPTY])
    {
      var i :| 0 <= i < |t| && t[i].tag != 0 && i != hole && t[i] == s;
      EntryAt(t[hole := EMPTY], -1, i);
    }
  }

  /** Handing a slot to another node changes no probe chain. */
  lemma SwapNode(t: Table, i: int, id: nat)
    requires Occ(t, i) && Chained(t) && Distinct(t) && forall k :: Occ(t, k) && k != i ==> t[k].id != id
    ensures var t' := t[i := Slot(t[i].tag, id)];
            && Chained(t') && Distinct(t') && OccSet(t') == OccSet(t)
            && Entries(t') == Entries(t) - {t[i]} + {Slot(t[i].tag, id)}
  {
    var t' := t[i := Slot(t[i].tag, id)];
    assert forall k :: Occ(t', k) <==> Occ(t, k);
    forall a, b | Occ(t', a) && 0 <= b < |t'| && OnPath(t', a, b)
      ensures Occ(t', b)
    {
      assert OnPath(t, a, b);
    }
    forall s | s in Entries(t) - {t[i]} + {Slot(t[i].tag, id)}
      ensures s in Entries(t')
    {
      if s == Slot(t[i].tag, id) {
        EntryAt(t', -1, i);
      } else {
        var k :| 0 <= k < |t| && t[k].tag != 0 && t[k] == s;
        EntryAt(t', -1, k);
      }
    }
    forall s | s in Entries(t')
      ensures s in Entries(t) - {t[i]} + {Slot(t[i].tag, id)}
    {
      var k :| 0 <= k < |t'| && t'[k].tag != 0 && t'[k] == s;
      if k != i {
        EntryAt(t, -1, k);
        assert Occ(t, k) && t[k].id != t[i].id;
      }
    }
  }

  // ---------------------------------------------------------------------------------------------
  // Rehashing into a table of another size
  // ---------------------------------------------------------------------------------------------

  /** An entry after the nodes have been renumbered. */
  function Renamed(s: Slot, ren: map<nat, nat>): Slot {
    if s.id in ren then Slot(s.tag, ren[s.id]) else s
  }

  ghost function RenamedAll(es: set<Slot>, ren: map<nat, nat>): set<Slot> {
    set s | s in es :: Renamed(s, ren)
  }

  /** Renumbering keeps different entries apart. */
  ghost predicate KeepsApart(es: set<Slot>, ren: map<nat, nat>) {
    forall a, b :: a in es && b in es && Renamed(a, ren).id == Renamed(b, ren).id ==> a.id == b.id
  }

  lemma EntriesPrefix(t: Table, i: nat)
    requires i < |t|
    ensures Entries(t[..i + 1]) == if t[i].tag == 0 then Entries(t[..i]) else Entries(t[..i]) + {t[i]}
  {
    var t' := t[..i + 1];
    assert t'[..i] == t[..i];
    forall s | s in Entries(t')
      ensures s in (if t[i].tag == 0 then Entries(t[..i]) else Entries(t[..i]) + {t[i]})
    {
      var k :| 0 <= k < |t'| && t'[k].tag != 0 && t'[k] == s;
      if k < i {
        EntryAt(t[..i], -1, k);
      }
    }
    forall s | s in (if t[i].tag == 0 then Entries(t[..i]) else Entries(t[..i]) + {t[i]})
      ensures s in Entries(t')
    {
      if s in Entries(t[..i]) {
        var k :| 0 <= k < i && t[..i][k].tag != 0 && t[..i][k] == s;
        EntryAt(t', -1, k);
      } else {
        EntryAt(t', -1, i);
      }
    }
  }

  lemma OccPrefix(t: Table, i: nat)
    requires i < |t|
    ensures OccSet(t[..i + 1]) == if t[i].tag == 0 then OccSet(t[..i]) else OccSet(t[..i]) + {i}
  {
  }

  lemma OccPrefixBound(t: Table, i: nat)
    requires i <= |t|
    ensures |OccSet(t[..i])| <= |OccSet(t)|
  {
    assert OccSet(t) == OccSet(t[..i]) + (OccSet(t) - OccSet(t[..i]));
  }

  lemma NotYetCopied(t: Table, i: nat, ren: map<nat, nat>, t': Table)
    requires i < |t| && t[i].tag != 0 && Distinct(t) && KeepsApart(Entries(t), ren)
    requires Entries(t') == RenamedAll(Entries(t[..i]), ren)
    ensures forall k :: Occ(t', k) ==> t'[k].id != Renamed(t[i], ren).id
  {
    forall k | Occ(t', k)
      ensures t'[k].id != Renamed(t[i], ren).id
    {
      EntryAt(t', -1, k);
      var s :| s in Entries(t[..i]) && Renamed(s, ren) == t'[k];
      var j :| 0 <= j < i && t[..i][j].tag != 0 && t[..i][j] == s;
      assert Occ(t, j) && Occ(t, i);
      EntryAt(t, -1, j);
      EntryAt(t, -1, i);
    }
  }

  lemma InsertDistinct(t: Table, e: int, s: Slot)
    requires Distinct(t) && 0 <= e < |t| && t[e].tag == 0 && forall k :: Occ(t, k) ==> t[k].id != s.id
    ensures Distinct(t[e := s])
  {
    assert forall k :: Occ(t[e := s], k) && k != e ==> Occ(t, k);
  }

  lemma RenamedAdd(es: set<Slot>, s: Slot, ren: map<nat, nat>)
    ensures RenamedAll(es + {s}, ren) == RenamedAll(es, ren) + {Renamed(s, ren)}
  {
  }

  /** Put one entry into the first free slot of its probe chain. */
  method Place(t: Table, s: Slot) returns (t': Table)
    requires Chained(t) && Distinct(t) && Loaded(|OccSet(t)|, |t|) && 0 < |t|
    requires s.tag != 0 && forall k :: Occ(t, k) ==> t[k].id != s.id
    ensures |t'| == |t| && Chained(t') && Distinct(t')
    ensures |OccSet(t')| == |OccSet(t)| + 1 && Entries(t') == Entries(t) + {s}
  {
    ghost var e := EmptySlotExists(t, |OccSet(t)|);
    var idx := FreeSlotFor(t, s.tag, e);
    InsertChained(t, s, idx);
    EntriesInsert(t, idx, s);
    InsertDistinct(t, idx, s);
    assert idx !in OccSet(t);
    t' := t[idx := s];
  }

  /** The rehashing loops of resizeHashSlotsLocked and compactHashSlotsLocked. */
  method Rehash(t: Table, cap: nat, ren: map<nat, nat>) returns (t': Table)
    requires Distinct(t) && 0 < cap && Loaded(|OccSet(t)|, cap) && KeepsApart(Entries(t), ren)
    ensures |t'| == cap && Chained(t') && Distinct(t')
    ensures |OccSet(t')| == |OccSet(t)|
    ensures Entries(t') == RenamedAll(Entries(t), ren)
  {
    hide Chained, EntriesBut, DistinctBut, RenamedAll;
    t' := seq(cap, _ => EMPTY);
    assert OccSet(t') == {};
    EmptyTable(t');
    assert t[..0] == [];
    for i := 0 to |t|
      invariant |t'| == cap && Chained(t') && Distinct(t')
      invariant |OccSet(t')| == |OccSet(t[..i])|
      invariant Entries(t') == RenamedAll(Entries(t[..i]), ren)
    {
      OccPrefix(t, i);
      OccPrefixBound(t, i);
      EntriesPrefix(t, i);
      if t[i].tag != 0 {
        var s := Renamed(t[i], ren);
        NotYetCopied(t, i, ren, t');
        RenamedAdd(Entries(t[..i]), t[i], ren);
        t' := Place(t', s);
      }
    }
    assert t[..|t|] == t;
  }

  lemma EmptyTable(t: Table)
    requires forall i :: 0 <= i < |t| ==> t[i].tag == 0
    ensures Chained(t) && Distinct(t) && Entries(t) == {} && OccSet(t) == {}
    ensures forall ren :: RenamedAll(Entries([]), ren) == {}
  {
  }
}

/**
 What one pass of shedding does, stated on the sample and the list alone: it removes, again and again, the last entry
 that serves a goal missed at that moment, until no entry does.
 */
module ShedOutcomes {
  import opened Bytes
  import opened LruPolicy
  import MC = MapCache

  function Max(a: nat, b: nat): nat { if a < b then b else a }
  function Min(a: nat, b: nat): nat { if a < b then a else b }

  /** The weight to get down to: the target, or that of the protected entry. */
  function ByteGoal(p: MC.Sample, prot: Option<Entry>): nat {
    Max(p.target, if prot.Some? then prot.value.weight else 0)
  }

  /** The number of entries at which weightless ones are left alone; the watermark counts unless the protected entry
      alone exceeds the target. */
  function LenGoal(p: MC.Sample, prot: Option<Entry>): nat {
    if prot.Some? && prot.value.weight > p.target then p.keepLen else Max(p.keepLen, p.lastLen)
  }

  /** The number of weightless entries that may stay: the retained share or the watermark, and a weightless protected
      entry in any case. */
  function ZeroGoal(p: MC.Sample, prot: Option<Entry>): nat {
    Max(Max(p.keepZeros, p.lastZeros), if prot.Some? && prot.value.weight == 0 then 1 else 0)
  }

  /** Removing `v` from `now` serves a goal that is missed.  Retention zero asks for everything but the protected entry;
      otherwise an entry with weight serves the weight goal, and a weightless one the goal on weightless entries, as
      long as the weight or the number of entries is still too large. */
  predicate Needed(v: Entry, now: Order, p: MC.Sample, prot: Option<Entry>) {
    && !(prot.Some? && prot.value.key == v.key)
    && (p.retentionZero
        || if v.weight > 0 then Weight(now) > ByteGoal(p, prot)
           else Zeros(now) > ZeroGoal(p, prot) && (Weight(now) > ByteGoal(p, prot) || |now| > LenGoal(p, prot)))
  }

  predicate NoneNeeded(now: Order, from: nat, p: MC.Sample, prot: Option<Entry>) {
    forall j :: from <= j < |now| ==> !Needed(now[j], now, p, prot)
  }

  /** `chain` leads from its first order to its last, and each step removes the last needed entry, at `at`. */
  ghost predicate Greedy(chain: seq<Order>, at: seq<nat>, p: MC.Sample, prot: Option<Entry>) {
    && |chain| == |at| + 1
    && forall k :: 0 <= k < |at| ==>
         && at[k] < |chain[k]| && Needed(chain[k][at[k]], chain[k], p, prot) && NoneNeeded(chain[k], at[k] + 1, p, prot)
         && chain[k + 1] == Drop(chain[k], at[k])
  }

  /** What the goals of a pass stand for while it runs. */
  predicate Stands(g: Goals, now: Order, p: MC.Sample, prot: Option<Entry>) {
    && g.flush == p.retentionZero
    && (!g.flush ==> g.bytes == ByteGoal(p, prot))
    && (!g.flush && Zeros(now) > 0 ==> g.zeros == ZeroGoal(p, prot) && g.len == LenGoal(p, prot))
  }

  lemma GoalsStand(es: Order, p: MC.Sample, prot: Option<Entry>)
    ensures Stands(MC.GoalsOf(p, es, prot), es, p, prot)
  {
    hide Weight, Zeros;
    if es == [] {
      SumNone();
    }
  }

  /** The pass evicts exactly the needed entries. */
  lemma VictimNeeded(v: Entry, now: Order, g: Goals, p: MC.Sample, prot: Option<Entry>)
    requires Stands(g, now, p, prot) && v in now
    ensures (NeedBytes(now, g) || NeedZeros(now, g)) && Victim(v, now, g, prot) <==> Needed(v, now, p, prot)
  {
    HasZero(now, v);
    hide Weight, Zeros;
  }

  lemma {:induction false} HasZero(es: Order, v: Entry)
    requires v in es
    ensures v.weight == 0 ==> Zeros(es) > 0
  {
    var last := es[|es| - 1];
    if v != last {
      HasZero(es[..|es| - 1], v);
    }
  }

  /** With less in the list nothing becomes needed. */
  lemma NeededLess(v: Entry, now: Order, less: Order, p: MC.Sample, prot: Option<Entry>)
    requires Weight(less) <= Weight(now) && Zeros(less) <= Zeros(now) && |less| <= |now| && Needed(v, less, p, prot)
    ensures Needed(v, now, p, prot)
  {
  }

  lemma GreedyMore(now: Order, i: nat, chain: seq<Order>, at: seq<nat>, p: MC.Sample, prot: Option<Entry>)
    requires Greedy(chain, at, p, prot) && i < |now| && Needed(now[i], now, p, prot) && NoneNeeded(now, i + 1, p, prot)
    requires chain[0] == Drop(now, i)
    ensures Greedy([now] + chain, [i] + at, p, prot)
  {
    var more, ats := [now] + chain, [i] + at;
    forall k | 0 <= k < |ats|
      ensures ats[k] < |more[k]| && Needed(more[k][ats[k]], more[k], p, prot)
      ensures NoneNeeded(more[k], ats[k] + 1, p, prot) && more[k + 1] == Drop(more[k], ats[k])
    {
      if k > 0 {
        assert more[k] == chain[k - 1] && ats[k] == at[k - 1];
      }
    }
  }

  /** After a removal the entries passed over are still not needed. */
  lemma PassedOver(es: Order, kept: Order, p: MC.Sample, prot: Option<Entry>)
    requires es != [] && NoneNeeded(es + kept, |es|, p, prot)
    ensures NoneNeeded(es[..|es| - 1] + kept, |es| - 1, p, prot)
  {
    var rest := es[..|es| - 1];
    ShedStep(es, kept);
    forall j | |rest| <= j < |rest + kept|
      ensures !Needed((rest + kept)[j], rest + kept, p, prot)
    {
      assert (rest + kept)[j] == (es + kept)[j + 1];
      if Needed((rest + kept)[j], rest + kept, p, prot) {
        NeededLess((rest + kept)[j], es + kept, rest + kept, p, prot);
      }
    }
  }

  lemma StandsLess(g: Goals, es: Order, kept: Order, p: MC.Sample, prot: Option<Entry>)
    requires es != [] && Stands(g, es + kept, p, prot)
    ensures Stands(g, es[..|es| - 1] + kept, p, prot)
  {
    ShedStep(es, kept);
    hide Weight, Zeros;
  }

  /** With no goal missed nothing is needed. */
  lemma GoalsMet(now: Order, g: Goals, p: MC.Sample, prot: Option<Entry>)
    requires Stands(g, now, p, prot) && !NeedBytes(now, g) && !NeedZeros(now, g)
    ensures NoneNeeded(now, 0, p, prot)
  {
    hide Weight, Zeros, Victim, Needed;
    forall j | 0 <= j < |now|
      ensures !Needed(now[j], now, p, prot)
    {
      VictimNeeded(now[j], now, g, p, prot);
    }
  }

  /** The pass, from any point: it goes on removing the last needed entry until none is needed. */
  lemma {:induction false} PassIsGreedy(es: Order, kept: Order, g: Goals, p: MC.Sample, prot: Option<Entry>)
      returns (chain: seq<Order>, at: seq<nat>)
    requires Stands(g, es + kept, p, prot) && NoneNeeded(es + kept, |es|, p, prot)
    ensures Greedy(chain, at, p, prot) && chain[0] == es + kept && chain[|at|] == Shed(es, kept, g, prot)
    ensures NoneNeeded(Shed(es, kept, g, prot), 0, p, prot)
    decreases |es|
  {
    hide Weight, Zeros, Victim, Needed, Stands;
    if es == [] || !(NeedBytes(es + kept, g) || NeedZeros(es + kept, g)) {
      chain, at := [es + kept], [];
      if es != [] {
        GoalsMet(es + kept, g, p, prot);
      }
    } else {
      var v, rest := es[|es| - 1], es[..|es| - 1];
      assert (es + kept)[|rest|] == v;
      VictimNeeded(v, es + kept, g, p, prot);
      assert es + kept == rest + ([v] + kept);
      if Victim(v, es + kept, g, prot) {
        PassedOver(es, kept, p, prot);
        StandsLess(g, es, kept, p, prot);
        chain, at := PassIsGreedy(rest, kept, g, p, prot);
        assert Drop(es + kept, |rest|) == rest + kept;
        GreedyMore(es + kept, |rest|, chain, at, p, prot);
        chain, at := [es + kept] + chain, [|rest|] + at;
      } else {
        chain, at := PassIsGreedy(rest, [v] + kept, g, p, prot);
      }
    }
  }

  /** One pass of shedding. */
  lemma ShedIsGreedy(es: Order, p: MC.Sample, prot: Option<Entry>) returns (chain: seq<Order>, at: seq<nat>)
    ensures Greedy(chain, at, p, prot) && chain[0] == es && chain[|at|] == MC.After(es, Some(p), prot)
    ensures NoneNeeded(MC.After(es, Some(p), prot), 0, p, prot)
  {
    hide Needed, Stands;
    var g := MC.GoalsOf(p, es, prot);
    GoalsStand(es, p, prot);
    assert es + [] == es;
    chain, at := PassIsGreedy(es, [], g, p, prot);
  }

  /** No step takes a weightless entry that may stay. */
  lemma {:induction false} GreedyZeros(chain: seq<Order>, at: seq<nat>, p: MC.Sample, prot: Option<Entry>)
    requires Greedy(chain, at, p, prot) && !p.retentionZero
    ensures Zeros(chain[|at|]) >= Min(Zeros(chain[0]), ZeroGoal(p, prot))
    decreases |at|
  {
    if at != [] {
      var m := |at| - 1;
      assert Greedy(chain[..m + 1], at[..m], p, prot);
      GreedyZeros(chain[..m + 1], at[..m], p, prot);
      SumDrop(chain[m], at[m]);
      hide Weight, Zeros;
    }
  }

  /** What a pass achieves and what it leaves alone. */
  lemma ShedResult(es: Order, p: MC.Sample, prot: Option<Entry>)
    requires Distinct(es) && (prot.Some? ==> prot.value in es)
    ensures var r := MC.After(es, Some(p), prot);
            && Weight(r) <= ByteGoal(p, prot)
            && (prot.Some? ==> prot.value in r)
            && if p.retentionZero then r == if prot.Some? then [prot.value] else []
               else
                 && Zeros(r) >= Min(Zeros(es), ZeroGoal(p, prot))
                 && (Zeros(r) <= ZeroGoal(p, prot) || |r| <= LenGoal(p, prot))
  {
    hide Weight, Zeros, Shed, Needed;
    var r := MC.After(es, Some(p), prot);
    var chain, at := ShedIsGreedy(es, p, prot);
    ShedOutcome(es, prot, p.target, p.retentionZero, p.keepLen, p.keepZeros, p.lastLen, p.lastZeros);
    if !p.retentionZero {
      GreedyZeros(chain, at, p, prot);
      assert es + [] == es;
      ShedDistinct(es, [], MC.GoalsOf(p, es, prot), prot);
      FewLeft(r, p, prot);
    }
  }

  /** If weightless entries remain beyond their goal, the list is short enough. */
  lemma FewLeft(r: Order, p: MC.Sample, prot: Option<Entry>)
    requires Distinct(r) && NoneNeeded(r, 0, p, prot) && !p.retentionZero && (prot.Some? ==> prot.value in r)
    ensures Zeros(r) <= ZeroGoal(p, prot) || |r| <= LenGoal(p, prot)
  {
    hide Weight, Zeros;
    if Zeros(r) > ZeroGoal(p, prot) && |r| > LenGoal(p, prot) {
      forall i | 0 <= i < |r|
        ensures IsProt(r[i], prot) || r[i].weight > 0
      {
        assert !Needed(r[i], r, p, prot);
      }
      if prot.Some? {
        forall i | 0 <= i < |r| && IsProt(r[i], prot)
          ensures r[i] == prot.value
        {
          var j :| 0 <= j < |r| && r[j] == prot.value;
        }
      }
      FewZeros(r, prot);
    }
  }
}

/**
 The reasons of the notices, and the counters that go with them (notifyEvict, notifyReplaced and
 recordEviction of the three engines).
 */
module Reasons {
  import opened Bytes
  import opened LruPolicy
  import MC = MapCache

  type Notice = MC.Notice

  /** The notices with reason `r`, in order. */
  function With(log: seq<Notice>, r: MC.Reason): seq<Notice> {
    if log == [] then []
    else With(log[..|log| - 1], r) + if log[|log| - 1].reason == r then [log[|log| - 1]] else []
  }

  /** All notices have reason `r`. */
  predicate Only(log: seq<Notice>, r: MC.Reason) {
    forall i :: 0 <= i < |log| ==> log[i].reason == r
  }

  lemma {:induction false} WithConcat(a: seq<Notice>, b: seq<Notice>, r: MC.Reason)
    ensures With(a + b, r) == With(a, r) + With(b, r)
  {
    if b == [] {
      assert a + b == a;
    } else {
      WithConcat(a, b[..|b| - 1], r);
      assert (a + b)[..|a + b| - 1] == a + b[..|b| - 1];
    }
  }

  lemma {:induction false} WithOnly(log: seq<Notice>, q: MC.Reason, r: MC.Reason)
    requires Only(log, q)
    ensures With(log, r) == if r == q then log else []
  {
    if log != [] {
      WithOnly(log[..|log| - 1], q, r);
      assert log == log[..|log| - 1] + [log[|log| - 1]];
    }
  }

  /** Three parts with one reason each. */
  lemma WithThree(a: seq<Notice>, b: seq<Notice>, c: seq<Notice>, r: MC.Reason)
    requires Only(a, MC.Capacity) && Only(b, MC.Replaced) && Only(c, MC.Pressure)
    ensures With(a + b + c, r) == if r == MC.Capacity then a else if r == MC.Replaced then b
                                  else if r == MC.Pressure then c else []
  {
    hide With, Only;
    WithConcat(a + b, c, r);
    WithConcat(a, b, r);
    WithOnly(a, MC.Capacity, r);
    WithOnly(b, MC.Replaced, r);
    WithOnly(c, MC.Pressure, r);
  }

  // ---------------------------------------------------------------------------------------------
  // The reasons in the parts of an operation
  // ---------------------------------------------------------------------------------------------

  lemma PutCaps(es: Order, key: Bytes, w: nat, max: nat, named: bool)
    ensures Only(MC.PutLog(es, key, w, max, named), MC.Capacity)
  {
    hide MC.TailLog, Room, UpdateRoom, Find, Drop;
    var i := Find(es, key);
    if i == |es| {
      MC.TailReasons(es, |Room(es, w, max, false)|, named);
    } else {
      MC.TailReasons(Drop(es, i), |UpdateRoom(Drop(es, i), w, max, MC.Shrinks(es, i, w, max))|, named);
    }
  }

  lemma ReplaceCaps(es: Order, i: nat, w: nat, max: nat, named: bool)
    requires i < |es|
    ensures Only(MC.ReplaceLog(es, i, w, max, named), MC.Capacity)
  {
    hide MC.TailLog, UpdateRoom, Weight;
    MC.TailReasons(es[i + 1..], |UpdateRoom(es[i + 1..], w + Weight(es[..i]), max, false)|, named);
  }

  lemma Sheds(es: Order, shed: Option<MC.Sample>, prot: Option<Entry>, named: bool)
    ensures Only(MC.AfterLog(es, shed, prot, named), MC.Pressure)
  {
    hide MC.ShedLog;
    if shed.Some? {
      MC.ShedReasons(es, [], MC.GoalsOf(shed.value, es, prot), prot, named);
    }
  }

  /** An overwritten value is reported with reason Replaced, under the key of its entry. */
  function Overwritten(e: Entry, named: bool): Notice {
    MC.Notice(if named then Some(e.key) else None, e.value, MC.Replaced)
  }

  lemma PutOverIs(es: Order, key: Bytes, named: bool)
    ensures MC.PutOver(es, key, named)
            == if Find(es, key) == |es| then [] else [Overwritten(es[Find(es, key)], named)]
    ensures Only(MC.PutOver(es, key, named), MC.Replaced)
  {
  }

  lemma ReplaceOverIs(es: Order, i: nat, w: nat, max: nat, named: bool)
    requires i < |es|
    ensures MC.ReplaceOver(es, i, w, max, named)
            == if MC.Outgrown(es, i, w, max) then [] else [Overwritten(es[i], named)]
    ensures Only(MC.ReplaceOver(es, i, w, max, named), MC.Replaced)
  {
  }

  // ---------------------------------------------------------------------------------------------
  // The counters
  // ---------------------------------------------------------------------------------------------

  /** The counters grow by the numbers of notices of each reason; `gone` more are deletions. */
  predicate Booked(n: MC.Counters, n': MC.Counters, log: seq<Notice>, gone: nat) {
    && n'.capCount == n.capCount + |With(log, MC.Capacity)|
    && n'.presCount == n.presCount + |With(log, MC.Pressure)|
    && n'.delCount == n.delCount + |With(log, MC.Deleted)| + gone
    && n'.repCount == n.repCount + |With(log, MC.Replaced)|
  }

  /** What an operation does to the counters that tell operations apart. */
  datatype Tally = Tally(inserted: nat, updated: nat, replaced: nat, selfEvicted: nat, deleted: nat)

  function TallyOf(n: MC.Counters): Tally {
    Tally(n.inserted, n.updated, n.replaced, n.selfEvicted, n.deleted)
  }

  lemma PutBooked(es: Order, key: Bytes, w: nat, max: nat, named: bool, sheds: seq<Notice>, n: MC.Counters,
      n': MC.Counters)
    requires var caps := MC.PutLog(es, key, w, max, named);
             Only(sheds, MC.Pressure) && MC.Charged(MC.CountPut(n, es, key), n', |caps|, |sheds|)
    ensures Booked(n, n', MC.PutLog(es, key, w, max, named) + MC.PutOver(es, key, named) + sheds, 0)
    ensures var t := TallyOf(n);
            TallyOf(n') == if Find(es, key) == |es| then t.(inserted := t.inserted + 1)
                           else t.(updated := t.updated + 1)
  {
    hide With, Only, MC.PutLog, MC.PutOver, Find;
    var caps, over := MC.PutLog(es, key, w, max, named), MC.PutOver(es, key, named);
    PutCaps(es, key, w, max, named);
    PutOverIs(es, key, named);
    WithThree(caps, over, sheds, MC.Capacity);
    WithThree(caps, over, sheds, MC.Replaced);
    WithThree(caps, over, sheds, MC.Pressure);
    WithThree(caps, over, sheds, MC.Deleted);
  }

  lemma ReplaceBooked(es: Order, i: nat, w: nat, max: nat, named: bool, sheds: seq<Notice>, n: MC.Counters,
      n': MC.Counters)
    requires i < |es|
    requires var caps := MC.ReplaceLog(es, i, w, max, named);
             Only(sheds, MC.Pressure) && MC.Charged(MC.CountReplace(n, es, i, w, max), n', |caps|, |sheds|)
    ensures Booked(n, n', MC.ReplaceLog(es, i, w, max, named) + MC.ReplaceOver(es, i, w, max, named) + sheds, 0)
    ensures var t := TallyOf(n);
            TallyOf(n') == if MC.Outgrown(es, i, w, max) then t.(selfEvicted := t.selfEvicted + 1)
                           else t.(replaced := t.replaced + 1)
  {
    hide With, Only, MC.ReplaceLog, MC.ReplaceOver, MC.Outgrown;
    var caps, over := MC.ReplaceLog(es, i, w, max, named), MC.ReplaceOver(es, i, w, max, named);
    ReplaceCaps(es, i, w, max, named);
    ReplaceOverIs(es, i, w, max, named);
    WithThree(caps, over, sheds, MC.Capacity);
    WithThree(caps, over, sheds, MC.Replaced);
    WithThree(caps, over, sheds, MC.Pressure);
    WithThree(caps, over, sheds, MC.Deleted);
  }

  lemma DeleteBooked(e: Entry, named: bool, sheds: seq<Notice>, n: MC.Counters, n': MC.Counters)
    requires Only(sheds, MC.Pressure)
    requires MC.Charged(MC.Evicted(n.(deleted := n.deleted + 1), MC.Deleted, e.weight), n', 0, |sheds|)
    ensures Booked(n, n', [MC.NoticeOf(e, MC.Deleted, named)] + sheds, 0)
    ensures var t := TallyOf(n); TallyOf(n') == t.(deleted := t.deleted + 1)
  {
    hide With, Only;
    var one := [MC.NoticeOf(e, MC.Deleted, named)];
    OnlyItself(one[0]);
    forall r
      ensures With(one + sheds, r) == if r == MC.Deleted then one else if r == MC.Pressure then sheds else []
    {
      WithConcat(one, sheds, r);
      WithOnly(one, MC.Deleted, r);
      WithOnly(sheds, MC.Pressure, r);
    }
  }

  lemma OnlyItself(x: Notice)
    ensures Only([x], x.reason)
  {
  }

  lemma ShedBooked(sheds: seq<Notice>, n: MC.Counters, n': MC.Counters, gone: nat)
    requires Only(sheds, MC.Pressure)
    requires MC.Charged(n.(delCount := n.delCount + gone, delWeight := n'.delWeight), n', 0, |sheds|)
    ensures Booked(n, n', sheds, gone) && TallyOf(n') == TallyOf(n)
  {
    hide With, Only;
    forall r
      ensures With(sheds, r) == if r == MC.Pressure then sheds else []
    {
      WithOnly(sheds, MC.Pressure, r);
    }
  }

  lemma ClearBooked(es: Order, named: bool, size: nat, n: MC.Counters)
    ensures Booked(n, n.(delCount := n.delCount + |es|, delWeight := n.delWeight + size), MC.ClearLog(es, named), 0)
  {
    hide With;
    var log := MC.ClearLog(es, named);
    forall r
      ensures With(log, r) == if r == MC.Deleted then log else []
    {
      WithOnly(log, MC.Deleted, r);
    }
  }

  lemma NothingBooked(n: MC.Counters)
    ensures Booked(n, n, [], 0)
  {
  }
}

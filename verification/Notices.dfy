/**
 What the callbacks are told by each operation: which entries, under which reason, in which order.
 */
module Notices {
  import opened Bytes
  import opened LruPolicy
  import MC = MapCache
  import opened Reasons
  import opened Engines
  import opened Conservation
  import SO = ShedOutcomes

  /** The order an operation leaves before any shedding. */
  function Before(es: Order, max: nat, op: Op): Order {
    match op
    case Put(key, value, w, _) => if w > max then es else MC.PutOrder(es, key, value, w, max)
    case Delete(key, _) => if Find(es, key) < |es| then Drop(es, Find(es, key)) else es
    case Replace(key, value, w, _) => if Find(es, key) < |es| then Replaced(es, Find(es, key), value, w, max) else es
    case DeletePrefix(prefix, _) => MC.Unmatched(es, prefix)
    case _ => es
  }

  /** The entry that shedding after the operation spares: the one just written, if it is still there. */
  function Spared(es: Order, max: nat, op: Op): Option<Entry> {
    match op
    case Put(key, value, w, _) => Some(Entry(key, value, w))
    case Replace(key, value, w, _) =>
      var i := Find(es, key);
      if i < |es| && !(w > es[i].weight && w + Weight(es[..i]) > max) then Some(Entry(key, value, w)) else None
    case _ => None
  }

  /** The operation takes effect, and the sample `p` is above the threshold. */
  predicate Shedding(es: Order, max: nat, op: Op, p: MC.Sample) {
    match op
    case Put(_, _, w, shed) => w <= max && shed == Some(p)
    case Delete(key, shed) => Find(es, key) < |es| && shed == Some(p)
    case Replace(key, _, _, shed) => Find(es, key) < |es| && shed == Some(p)
    case DeletePrefix(prefix, shed) => prefix != [] && !NoMatch(es, prefix) && shed == Some(p)
    case Evaluate(sample) => sample == p
    case _ => false
  }

  function SampleOf(op: Op): Option<MC.Sample> {
    match op
    case Put(_, _, _, shed) => shed
    case Delete(_, shed) => shed
    case Replace(_, _, _, shed) => shed
    case DeletePrefix(_, shed) => shed
    case Evaluate(sample) => Some(sample)
    case _ => None
  }

  /** Every operation that takes effect under pressure sheds after its own change: greedily, sparing what it wrote. */
  lemma OpSheds(es: Order, max: nat, op: Op, p: MC.Sample) returns (chain: seq<Order>, at: seq<nat>)
    requires Shedding(es, max, op, p)
    ensures var r, prot := Next(es, max, op), Spared(es, max, op);
            && SO.Greedy(chain, at, p, prot) && chain[0] == Before(es, max, op) && chain[|at|] == r
            && SO.NoneNeeded(r, 0, p, prot)
  {
    hide Find, MC.PutOrder, MC.After, Replaced, Drop, MC.Unmatched, NoMatch, SO.Greedy, SO.NoneNeeded, Weight;
    if op.Replace? {
      SameKey(es, op);
    }
    chain, at := SO.ShedIsGreedy(Before(es, max, op), p, Spared(es, max, op));
  }

  lemma SameKey(es: Order, op: Op)
    requires op.Replace?
    ensures Find(es, op.key) < |es| ==> es[Find(es, op.key)].key == op.key
  {
  }

  /** Every other operation leaves just its own change. */
  lemma OpLeaves(es: Order, max: nat, op: Op)
    requires SampleOf(op).Some? ==> !Shedding(es, max, op, SampleOf(op).value)
    ensures op.Get? || Next(es, max, op) == Before(es, max, op)
  {
    hide Find, MC.PutOrder, Replaced, Drop, MC.Unmatched, NoMatch, Weight;
    if op.DeletePrefix? {
      if op.prefix == [] {
        AllMatch(es);
      } else if NoMatch(es, op.prefix) {
        NoMatchSame(es, op.prefix, false);
      }
    }
  }

  lemma {:induction false} AllMatch(es: Order)
    ensures MC.Unmatched(es, []) == []
  {
    if es != [] {
      AllMatch(es[1..]);
    }
  }

  /** The notice an entry gets for reason `r`. */
  function NoticeFor(e: Entry, r: MC.Reason, named: bool): MC.Notice {
    MC.Notice(if named then Some(e.key) else None, e.value, r)
  }

  /** The values overwritten in place by Put or Replace. */
  function OverwrittenBy(es: Order, max: nat, named: bool, op: Op): seq<MC.Notice> {
    match op
    case Put(key, _, w, _) =>
      var i := Find(es, key);
      if w <= max && i < |es| then [NoticeFor(es[i], MC.Replaced, named)] else []
    case Replace(key, _, w, _) =>
      var i := Find(es, key);
      if i < |es| && !MC.Outgrown(es, i, w, max) then [NoticeFor(es[i], MC.Replaced, named)] else []
    case _ => []
  }

  /** The entries deleted by key, or by the empty prefix. */
  function DeletedBy(es: Order, named: bool, op: Op): seq<MC.Notice> {
    match op
    case Delete(key, _) =>
      var i := Find(es, key);
      if i < |es| then [NoticeFor(es[i], MC.Deleted, named)] else []
    case DeletePrefix(prefix, _) =>
      if prefix == [] then seq(|es|, i requires 0 <= i < |es| => NoticeFor(es[i], MC.Deleted, named)) else []
    case _ => []
  }

  /** The parts of an answer's log, by reason. */
  lemma PutParts(es: Order, max: nat, named: bool, key: Bytes, value: Value, w: nat, shed: Option<MC.Sample>)
    requires w <= max
    ensures var log := PutNotices(es, key, value, w, max, shed, named);
            && With(log, MC.Capacity) == MC.PutLog(es, key, w, max, named)
            && With(log, MC.Replaced) == MC.PutOver(es, key, named) && With(log, MC.Deleted) == []
            && With(log, MC.Pressure) == PutSheds(es, key, value, w, max, shed, named)
  {
    hide With, Only, MC.PutLog, MC.PutOver, MC.PutOrder, MC.AfterLog, Find;
    var caps, over := MC.PutLog(es, key, w, max, named), MC.PutOver(es, key, named);
    var sheds := PutSheds(es, key, value, w, max, shed, named);
    PutCaps(es, key, w, max, named);
    PutOverIs(es, key, named);
    Sheds(MC.PutOrder(es, key, value, w, max), shed, Some(Entry(key, value, w)), named);
    WithThree(caps, over, sheds, MC.Capacity);
    WithThree(caps, over, sheds, MC.Replaced);
    WithThree(caps, over, sheds, MC.Pressure);
    WithThree(caps, over, sheds, MC.Deleted);
  }

  lemma ReplaceParts(es: Order, i: nat, max: nat, named: bool, value: Value, w: nat, shed: Option<MC.Sample>)
    requires i < |es|
    ensures var log := ReplaceNotices(es, i, value, w, max, shed, named);
            && With(log, MC.Capacity) == MC.ReplaceLog(es, i, w, max, named)
            && With(log, MC.Replaced) == MC.ReplaceOver(es, i, w, max, named) && With(log, MC.Deleted) == []
            && With(log, MC.Pressure)
               == MC.AfterLog(Replaced(es, i, value, w, max), shed, Kept(es, i, value, w, max), named)
  {
    hide With, Only, MC.ReplaceLog, MC.ReplaceOver, Replaced, MC.AfterLog, MC.Outgrown;
    var caps, over := MC.ReplaceLog(es, i, w, max, named), MC.ReplaceOver(es, i, w, max, named);
    var r, kept := Replaced(es, i, value, w, max), Kept(es, i, value, w, max);
    var sheds := MC.AfterLog(r, shed, kept, named);
    ReplaceCaps(es, i, w, max, named);
    ReplaceOverIs(es, i, w, max, named);
    Sheds(r, shed, kept, named);
    WithThree(caps, over, sheds, MC.Capacity);
    WithThree(caps, over, sheds, MC.Replaced);
    WithThree(caps, over, sheds, MC.Pressure);
    WithThree(caps, over, sheds, MC.Deleted);
  }

  lemma DeleteParts(e: Entry, named: bool, sheds: seq<MC.Notice>)
    requires Only(sheds, MC.Pressure)
    ensures var log := [NoticeFor(e, MC.Deleted, named)] + sheds;
            && With(log, MC.Deleted) == [NoticeFor(e, MC.Deleted, named)] && With(log, MC.Pressure) == sheds
            && With(log, MC.Capacity) == [] && With(log, MC.Replaced) == []
  {
    hide With, Only;
    var one := [NoticeFor(e, MC.Deleted, named)];
    OnlyItself(one[0]);
    forall r
      ensures With(one + sheds, r) == if r == MC.Deleted then one else if r == MC.Pressure then sheds else []
    {
      WithConcat(one, sheds, r);
      WithOnly(one, MC.Deleted, r);
      WithOnly(sheds, MC.Pressure, r);
    }
  }

  lemma OneReason(log: seq<MC.Notice>, q: MC.Reason)
    requires Only(log, q)
    ensures forall r :: With(log, r) == if r == q then log else []
  {
    forall r
      ensures With(log, r) == if r == q then log else []
    {
      WithOnly(log, q, r);
    }
  }

  lemma FromTailNone(es: Order, reason: MC.Reason, named: bool)
    ensures FromTail([], es, reason, named)
  {
  }

  lemma ClearIs(es: Order, named: bool)
    ensures MC.ClearLog(es, named) == seq(|es|, i requires 0 <= i < |es| => NoticeFor(es[i], MC.Deleted, named))
    ensures Only(MC.ClearLog(es, named), MC.Deleted)
  {
  }

  lemma {:induction false} MatchedAreDeleted(es: Order, prefix: Bytes, named: bool, x: MC.Notice)
    requires x in MC.MatchedLog(es, prefix, named)
    ensures exists i :: 0 <= i < |es| && prefix <= es[i].key && x == NoticeFor(es[i], MC.Deleted, named)
  {
    if es != [] {
      if x in MC.MatchedLog(es[1..], prefix, named) {
        MatchedAreDeleted(es[1..], prefix, named, x);
        var i :| 0 <= i < |es| - 1 && prefix <= es[1..][i].key && x == NoticeFor(es[1..][i], MC.Deleted, named);
        assert x == NoticeFor(es[i + 1], MC.Deleted, named);
      } else {
        assert x == NoticeFor(es[0], MC.Deleted, named);
      }
    }
  }

  /** Values overwritten in place are reported as replaced, and nothing else is; the same for deletions, which a prefix
      deletion reports apart. */
  lemma TellsReplaced(es: Order, max: nat, named: bool, op: Op)
    ensures var x := Reply(es, max, named, op);
            && With(LogOf(x), MC.Replaced) == OverwrittenBy(es, max, named, op)
            && With(LogOf(x), MC.Deleted) == DeletedBy(es, named, op)
    ensures var x := Reply(es, max, named, op);
            x.Dropped? ==>
              forall y :: y in x.gone ==>
                exists i :: 0 <= i < |es| && op.prefix <= es[i].key && y == NoticeFor(es[i], MC.Deleted, named)
  {
    hide With, Only, MC.PutLog, MC.PutOver, MC.PutOrder, MC.AfterLog, MC.ReplaceLog, MC.ReplaceOver, Replaced, Find,
      MC.Outgrown, MC.Unmatched, MC.MatchedLog, NoMatch, MC.Values, MC.ClearLog, Drop;
    OneReason([], MC.Deleted) by { OnlyNone(); }
    match op
    case Put(key, value, w, shed) =>
      if w <= max {
        PutParts(es, max, named, key, value, w, shed);
        PutOverIs(es, key, named);
      }
    case Get(key) =>
    case Delete(key, shed) =>
      var i := Find(es, key);
      if i < |es| {
        Sheds(Drop(es, i), shed, None, named);
        DeleteParts(es[i], named, MC.AfterLog(Drop(es, i), shed, None, named));
      }
    case Replace(key, value, w, shed) =>
      var i := Find(es, key);
      if i < |es| {
        ReplaceParts(es, i, max, named, value, w, shed);
        ReplaceOverIs(es, i, w, max, named);
      }
    case DeletePrefix(prefix, shed) =>
      if prefix == [] {
        ClearIs(es, named);
        OneReason(MC.ClearLog(es, named), MC.Deleted);
      } else {
        Sheds(MC.Unmatched(es, prefix), shed, None, named);
        OneReason(MC.AfterLog(MC.Unmatched(es, prefix), shed, None, named), MC.Pressure);
        forall y | y in MC.MatchedLog(es, prefix, named)
          ensures exists i :: 0 <= i < |es| && prefix <= es[i].key && y == NoticeFor(es[i], MC.Deleted, named)
        {
          MatchedAreDeleted(es, prefix, named, y);
        }
      }
    case Evaluate(sample) =>
      Sheds(es, Some(sample), None, named);
      OneReason(MC.AfterLog(es, Some(sample), None, named), MC.Pressure);
    case Compact =>
  }

  lemma OnlyNone()
    ensures forall r :: Only([], r)
  {
  }

  lemma {:induction false} FromTailAfter(log: seq<MC.Notice>, a: Order, b: Order, r: MC.Reason, named: bool)
    requires FromTail(log, b, r, named)
    ensures FromTail(log, a + b, r, named)
  {
    if log != [] {
      var front := b[..|b| - 1];
      assert (a + b)[..|a + b| - 1] == a + front;
      if FromTail(log, front, r, named) {
        FromTailAfter(log, a, front, r, named);
      } else {
        FromTailAfter(log[1..], a, front, r, named);
      }
    }
  }

  lemma {:induction false} FromTailDrop(log: seq<MC.Notice>, es: Order, i: nat, r: MC.Reason, named: bool)
    requires i < |es| && FromTail(log, Drop(es, i), r, named)
    ensures FromTail(log, es, r, named)
    decreases |es|
  {
    var front := es[..|es| - 1];
    if i == |es| - 1 {
      assert Drop(es, i) == front;
    } else if log != [] {
      assert Drop(es, i)[..|es| - 2] == Drop(front, i);
      if FromTail(log, Drop(front, i), r, named) {
        FromTailDrop(log, front, i, r, named);
      } else {
        FromTailDrop(log[1..], front, i, r, named);
      }
    }
  }

  lemma {:induction false} FromTailOne(es: Order, i: nat, r: MC.Reason, named: bool)
    requires i < |es|
    ensures FromTail([NoticeFor(es[i], r, named)], es, r, named)
  {
    var x := [NoticeFor(es[i], r, named)];
    var one := [es[i]];
    assert one[..0] == [] && x[1..] == [];
    assert FromTail(x, one, r, named);
    FromTailAfter(x, es[..i], one, r, named);
    assert es[..i + 1] == es[..i] + one && es == es[..i + 1] + es[i + 1..];
    FromTailBefore(x, es[..i + 1], es[i + 1..], r, named);
  }

  lemma {:induction false} FromTailBefore(log: seq<MC.Notice>, a: Order, b: Order, r: MC.Reason, named: bool)
    requires FromTail(log, a, r, named)
    ensures FromTail(log, a + b, r, named)
  {
    if b == [] {
      assert a + b == a;
    } else {
      var front := b[..|b| - 1];
      assert (a + b)[..|a + b| - 1] == a + front;
      FromTailBefore(log, a, front, r, named);
    }
  }

  lemma PutFromTail(es: Order, key: Bytes, w: nat, max: nat, named: bool)
    ensures FromTail(MC.PutLog(es, key, w, max, named), es, MC.Capacity, named)
  {
    hide FromTail, MC.TailLog, Find, Drop, Room, UpdateRoom, MC.Shrinks;
    var i := Find(es, key);
    if i == |es| {
      CapacityInOrder(es, |Room(es, w, max, false)|, named);
    } else {
      var others := Drop(es, i);
      CapacityInOrder(others, |UpdateRoom(others, w, max, MC.Shrinks(es, i, w, max))|, named);
      FromTailDrop(MC.PutLog(es, key, w, max, named), es, i, MC.Capacity, named);
    }
  }

  lemma ReplaceFromTail(es: Order, i: nat, w: nat, max: nat, named: bool)
    requires i < |es|
    ensures FromTail(MC.ReplaceLog(es, i, w, max, named), es, MC.Capacity, named)
  {
    hide FromTail, MC.TailLog, UpdateRoom, Weight;
    var older := es[i + 1..];
    CapacityInOrder(older, |UpdateRoom(older, w + Weight(es[..i]), max, false)|, named);
    assert es == es[..i + 1] + older;
    FromTailAfter(MC.TailLog(older, |UpdateRoom(older, w + Weight(es[..i]), max, false)|, named), es[..i + 1], older,
                  MC.Capacity, named);
    FromTailOne(es, i, MC.Capacity, named);
    FromTailOne(es, |es| - 1, MC.Capacity, named);
    FromTailNone(es, MC.Capacity, named);
  }

  lemma AfterFromTail(es: Order, shed: Option<MC.Sample>, prot: Option<Entry>, named: bool)
    ensures FromTail(MC.AfterLog(es, shed, prot, named), es, MC.Pressure, named)
  {
    hide FromTail, MC.ShedLog;
    FromTailNone(es, MC.Pressure, named);
    if shed.Some? {
      PressureInOrder(es, [], MC.GoalsOf(shed.value, es, prot), prot, named);
    }
  }

  /** Evictions for capacity are about entries held before, evictions under pressure about entries the operation itself
      leaves; both are reported from the least recently used entry on. */
  lemma TellsEvicted(es: Order, max: nat, named: bool, op: Op)
    ensures var x := Reply(es, max, named, op);
            && FromTail(With(LogOf(x), MC.Capacity), es, MC.Capacity, named)
            && FromTail(With(LogOf(x), MC.Pressure), Before(es, max, op), MC.Pressure, named)
  {
    hide With, Only, MC.PutLog, MC.PutOver, MC.PutOrder, MC.AfterLog, MC.ReplaceLog, MC.ReplaceOver, Replaced, Find,
      MC.Outgrown, MC.Unmatched, MC.MatchedLog, NoMatch, MC.Values, MC.ClearLog, Drop, FromTail;
    FromTailNone(es, MC.Capacity, named);
    FromTailNone(Before(es, max, op), MC.Pressure, named);
    OneReason([], MC.Deleted) by { OnlyNone(); }
    match op
    case Put(key, value, w, shed) =>
      if w <= max {
        PutParts(es, max, named, key, value, w, shed);
        PutFromTail(es, key, w, max, named);
        AfterFromTail(MC.PutOrder(es, key, value, w, max), shed, Some(Entry(key, value, w)), named);
      }
    case Get(key) =>
    case Delete(key, shed) =>
      var i := Find(es, key);
      if i < |es| {
        Sheds(Drop(es, i), shed, None, named);
        DeleteParts(es[i], named, MC.AfterLog(Drop(es, i), shed, None, named));
        AfterFromTail(Drop(es, i), shed, None, named);
      }
    case Replace(key, value, w, shed) =>
      var i := Find(es, key);
      if i < |es| {
        ReplaceParts(es, i, max, named, value, w, shed);
        ReplaceFromTail(es, i, w, max, named);
        AfterFromTail(Replaced(es, i, value, w, max), shed, Kept(es, i, value, w, max), named);
      }
    case DeletePrefix(prefix, shed) =>
      if prefix == [] {
        ClearIs(es, named);
        OneReason(MC.ClearLog(es, named), MC.Deleted);
      } else {
        Sheds(MC.Unmatched(es, prefix), shed, None, named);
        OneReason(MC.AfterLog(MC.Unmatched(es, prefix), shed, None, named), MC.Pressure);
        AfterFromTail(MC.Unmatched(es, prefix), shed, None, named);
      }
    case Evaluate(sample) =>
      Sheds(es, Some(sample), None, named);
      OneReason(MC.AfterLog(es, Some(sample), None, named), MC.Pressure);
      AfterFromTail(es, Some(sample), None, named);
    case Compact =>
  }

  // ---------------------------------------------------------------------------------------------
  // Keys
  // ---------------------------------------------------------------------------------------------

  lemma {:induction false} ToldIn(log: seq<MC.Notice>, y: MC.Notice, x: MC.Notice)
    requires y in log && y.key == x.key && y.value == x.value
    ensures Told(log, x) > 0
  {
    var last := log[|log| - 1];
    if y != last {
      ToldIn(log[..|log| - 1], y, x);
    }
  }

  lemma {:induction false} ReportedIn(xs: seq<Answer>, a: Answer, x: MC.Notice)
    requires a in xs && Reported(a, x) > 0
    ensures AllReported(xs, x) > 0
  {
    if a != xs[|xs| - 1] {
      ReportedIn(xs[..|xs| - 1], a, x);
    }
  }

  lemma {:induction false} NeverKeyless(es: Order, x: MC.Notice)
    requires x.key == None
    ensures Held(es, true, x) == 0
  {
    if es != [] {
      NeverKeyless(es[..|es| - 1], x);
    }
  }

  lemma {:induction false} NeverTaken(es: Order, max: nat, ops: seq<Op>, x: MC.Notice)
    requires x.key == None
    ensures AllTaken(es, max, true, ops, x) == 0
  {
    if ops != [] {
      NeverTaken(es, max, ops[..|ops| - 1], x);
    }
  }

  /** With an entry callback every notice of every run names a key. */
  lemma Named(es: Order, max: nat, ops: seq<Op>, a: Answer, y: MC.Notice)
    requires a in Replies(es, max, true, ops)
    requires y in LogOf(a) || (a.Dropped? && y in a.gone && y.reason == MC.Deleted)
    ensures y.key.Some?
  {
    if y.key == None {
      var x := y.(reason := MC.Deleted);
      if y in LogOf(a) {
        ToldIn(LogOf(a), y, x);
      }
      assert Reported(a, x) > 0;
      ReportedIn(Replies(es, max, true, ops), a, x);
      RunConserves(es, max, true, ops, x);
      NeverKeyless(es, x);
      NeverKeyless(Final(es, max, ops), x);
      NeverTaken(es, max, ops, x);
    }
  }
}

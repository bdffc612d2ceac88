/**
 What goes into a cache comes out of it: over any run of operations, every value that was stored is still
 held, or the callbacks were told of it exactly once, with its key where an entry callback is registered.
 Each fact counts the occurrences of one key and value `x`; the reason in `x` is that of a deletion.
 */
module Conservation {
  import opened Bytes
  import opened LruPolicy
  import MC = MapCache
  import opened Engines

  type Notice = MC.Notice

  /** The notice `y` is about the key and the value of `x`. */
  function One(y: Notice, x: Notice): nat {
    if y.key == x.key && y.value == x.value then 1 else 0
  }

  /** The entry is the one `x` is about, with its key where the callbacks get keys. */
  function OneOf(e: Entry, named: bool, x: Notice): nat {
    if x.key == (if named then Some(e.key) else None) && x.value == e.value then 1 else 0
  }

  /** How often `x` is held. */
  function Held(es: Order, named: bool, x: Notice): nat {
    if es == [] then 0 else Held(es[..|es| - 1], named, x) + OneOf(es[|es| - 1], named, x)
  }

  /** How often the callbacks are told of `x`. */
  function Told(log: seq<Notice>, x: Notice): nat {
    if log == [] then 0 else Told(log[..|log| - 1], x) + One(log[|log| - 1], x)
  }

  function Reported(a: Answer, x: Notice): nat {
    match a
    case Stored(_, _, log) => Told(log, x)
    case Found(_, log) => Told(log, x)
    case Changed(_, log) => Told(log, x)
    case Dropped(gone, log) => gone[x] + Told(log, x)
    case Reduced(_, log) => Told(log, x)
    case Done => 0
  }

  /** What an operation stores: Put unless the entry is too heavy, Replace if the key is there and its entry stays. */
  function Taken(es: Order, max: nat, named: bool, op: Op, x: Notice): nat {
    match op
    case Put(key, value, w, _) => if w > max then 0 else OneOf(Entry(key, value, w), named, x)
    case Replace(key, value, w, _) =>
      var i := Find(es, key);
      if i < |es| && !MC.Outgrown(es, i, w, max) then OneOf(Entry(es[i].key, value, w), named, x) else 0
    case _ => 0
  }

  lemma {:induction false} HeldConcat(a: Order, b: Order, named: bool, x: Notice)
    ensures Held(a + b, named, x) == Held(a, named, x) + Held(b, named, x)
  {
    if b == [] {
      assert a + b == a;
    } else {
      HeldConcat(a, b[..|b| - 1], named, x);
      assert (a + b)[..|a + b| - 1] == a + b[..|b| - 1];
    }
  }

  lemma {:induction false} ToldConcat(a: seq<Notice>, b: seq<Notice>, x: Notice)
    ensures Told(a + b, x) == Told(a, x) + Told(b, x)
  {
    if b == [] {
      assert a + b == a;
    } else {
      ToldConcat(a, b[..|b| - 1], x);
      assert (a + b)[..|a + b| - 1] == a + b[..|b| - 1];
    }
  }

  lemma HeldOne(e: Entry, named: bool, x: Notice)
    ensures Held([e], named, x) == OneOf(e, named, x)
  {
    assert [e][..0] == [];
  }

  lemma ToldOne(e: Entry, reason: MC.Reason, named: bool, x: Notice)
    ensures Told([MC.NoticeOf(e, reason, named)], x) == OneOf(e, named, x)
  {
    assert [MC.NoticeOf(e, reason, named)][..0] == [];
  }

  lemma HeldFront(e: Entry, es: Order, named: bool, x: Notice)
    ensures Held([e] + es, named, x) == OneOf(e, named, x) + Held(es, named, x)
  {
    HeldConcat([e], es, named, x);
    HeldOne(e, named, x);
  }

  /** An entry and the others. */
  lemma HeldDrop(es: Order, i: nat, named: bool, x: Notice)
    requires i < |es|
    ensures Held(es, named, x) == Held(Drop(es, i), named, x) + OneOf(es[i], named, x)
  {
    hide Held, OneOf;
    assert es == es[..i] + ([es[i]] + es[i + 1..]);
    HeldConcat(es[..i], [es[i]] + es[i + 1..], named, x);
    HeldFront(es[i], es[i + 1..], named, x);
    HeldConcat(es[..i], es[i + 1..], named, x);
  }

  lemma HeldSet(es: Order, i: nat, e: Entry, named: bool, x: Notice)
    requires i < |es|
    ensures Held(es[i := e], named, x) + OneOf(es[i], named, x) == Held(es, named, x) + OneOf(e, named, x)
  {
    hide Held, OneOf;
    HeldDrop(es, i, named, x);
    HeldDrop(es[i := e], i, named, x);
    assert Drop(es[i := e], i) == Drop(es, i);
  }

  // ---------------------------------------------------------------------------------------------
  // The parts of an operation
  // ---------------------------------------------------------------------------------------------

  /** Capacity evictions. */
  lemma {:induction false} TailConserves(es: Order, n: nat, named: bool, x: Notice)
    requires n <= |es|
    ensures Held(es, named, x) == Held(es[..n], named, x) + Told(MC.TailLog(es, n, named), x)
    decreases |es| - n
  {
    if n == |es| {
      assert es[..n] == es;
    } else {
      TailConserves(es, n + 1, named, x);
      assert es[..n + 1][..n] == es[..n];
      MC.TailNext(es, n, named);
      ToldConcat(MC.TailLog(es, n + 1, named), [MC.NoticeOf(es[n], MC.Capacity, named)], x);
      ToldOne(es[n], MC.Capacity, named, x);
    }
  }

  lemma TailGoes(es: Order, room: Order, named: bool, x: Notice)
    requires room <= es
    ensures Held(es, named, x) == Held(room, named, x) + Told(MC.TailLog(es, |room|, named), x)
  {
    hide Held, Told, MC.TailLog;
    assert es[..|room|] == room;
    TailConserves(es, |room|, named, x);
  }

  /** One pass of shedding. */
  lemma {:induction false} ShedConserves(es: Order, kept: Order, g: Goals, prot: Option<Entry>, named: bool, x: Notice)
    ensures Held(es, named, x) + Held(kept, named, x)
            == Held(Shed(es, kept, g, prot), named, x) + Told(MC.ShedLog(es, kept, g, prot, named), x)
    decreases |es|
  {
    hide OneOf, Victim, NeedBytes, NeedZeros;
    if es == [] || !(NeedBytes(es + kept, g) || NeedZeros(es + kept, g)) {
      HeldConcat(es, kept, named, x);
    } else {
      var e, rest := es[|es| - 1], es[..|es| - 1];
      if Victim(e, es + kept, g, prot) {
        ShedConserves(rest, kept, g, prot, named, x);
        ToldConcat([MC.NoticeOf(e, MC.Pressure, named)], MC.ShedLog(rest, kept, g, prot, named), x);
        ToldOne(e, MC.Pressure, named, x);
      } else {
        ShedConserves(rest, [e] + kept, g, prot, named, x);
        HeldFront(e, kept, named, x);
      }
    }
  }

  lemma AfterConserves(es: Order, shed: Option<MC.Sample>, prot: Option<Entry>, named: bool, x: Notice)
    ensures Held(es, named, x) == Held(MC.After(es, shed, prot), named, x) + Told(MC.AfterLog(es, shed, prot, named), x)
  {
    if shed.Some? {
      ShedConserves(es, [], MC.GoalsOf(shed.value, es, prot), prot, named, x);
    }
  }

  /** Clearing reports every entry. */
  lemma {:induction false} ClearConserves(es: Order, named: bool, x: Notice)
    ensures Told(MC.ClearLog(es, named), x) == Held(es, named, x)
  {
    if es != [] {
      var m := |es| - 1;
      ClearConserves(es[..m], named, x);
      assert MC.ClearLog(es, named)[..m] == MC.ClearLog(es[..m], named);
    }
  }

  /** The matching entries are reported, the others stay. */
  lemma {:induction false} MatchConserves(es: Order, prefix: Bytes, named: bool, x: Notice)
    requires x.reason == MC.Deleted
    ensures Held(es, named, x) == Held(MC.Unmatched(es, prefix), named, x) + MC.MatchedLog(es, prefix, named)[x]
  {
    hide Held;
    HeldNone(named, x);
    if es != [] {
      MatchConserves(es[1..], prefix, named, x);
      assert es == [es[0]] + es[1..];
      HeldFront(es[0], es[1..], named, x);
      if !(prefix <= es[0].key) {
        HeldFront(es[0], MC.Unmatched(es[1..], prefix), named, x);
      } else {
        assert [] + MC.Unmatched(es[1..], prefix) == MC.Unmatched(es[1..], prefix);
      }
    }
  }

  /** Put before any shedding: capacity evictions, and the overwritten value. */
  lemma StoreConserves(es: Order, key: Bytes, value: Value, w: nat, max: nat, named: bool, x: Notice)
    ensures Held(es, named, x) + OneOf(Entry(key, value, w), named, x)
            == Held(MC.PutOrder(es, key, value, w, max), named, x)
               + Told(MC.PutLog(es, key, w, max, named) + MC.PutOver(es, key, named), x)
  {
    hide Held, OneOf, Room, UpdateRoom, Drop, MC.TailLog, Find, MC.Shrinks;
    var i := Find(es, key);
    ToldConcat(MC.PutLog(es, key, w, max, named), MC.PutOver(es, key, named), x);
    if i == |es| {
      var room := Room(es, w, max, false);
      TailGoes(es, room, named, x);
      HeldFront(Entry(key, value, w), room, named, x);
    } else {
      var others := Drop(es, i);
      var room := UpdateRoom(others, w, max, MC.Shrinks(es, i, w, max));
      FoundKey(es, key);
      TailGoes(others, room, named, x);
      HeldDrop(es, i, named, x);
      HeldFront(Entry(key, value, w), room, named, x);
      ToldOne(es[i], MC.Replaced, named, x);
    }
  }

  /** Replace before any shedding. */
  lemma ReplaceConserves(es: Order, i: nat, value: Value, w: nat, max: nat, named: bool, x: Notice)
    requires i < |es|
    ensures Held(es, named, x) + (if MC.Outgrown(es, i, w, max) then 0 else OneOf(Entry(es[i].key, value, w), named, x))
            == Held(Replaced(es, i, value, w, max), named, x)
               + Told(MC.ReplaceLog(es, i, w, max, named) + MC.ReplaceOver(es, i, w, max, named), x)
  {
    hide Held, OneOf, Told, Replaced, MC.ReplaceLog, MC.ReplaceOver, FitsInPlace;
    ToldConcat(MC.ReplaceLog(es, i, w, max, named), MC.ReplaceOver(es, i, w, max, named), x);
    OverTold(es, i, w, max, named, x);
    if MC.Outgrown(es, i, w, max) {
      OutgrownConserves(es, i, value, w, max, named, x);
    } else if w > es[i].weight {
      GrowConserves(es, i, value, w, max, named, x);
    } else {
      HeldSet(es, i, Entry(es[i].key, value, w), named, x);
      ShrinkConserves(es, i, value, w, max, named, x);
    }
  }

  lemma OverTold(es: Order, i: nat, w: nat, max: nat, named: bool, x: Notice)
    requires i < |es|
    ensures Told(MC.ReplaceOver(es, i, w, max, named), x)
            == if MC.Outgrown(es, i, w, max) then 0 else OneOf(es[i], named, x)
  {
    ToldOne(es[i], MC.Replaced, named, x);
  }

  lemma OutgrownConserves(es: Order, i: nat, value: Value, w: nat, max: nat, named: bool, x: Notice)
    requires i < |es| && MC.Outgrown(es, i, w, max)
    ensures Held(es, named, x)
            == Held(Replaced(es, i, value, w, max), named, x) + Told(MC.ReplaceLog(es, i, w, max, named), x)
  {
    hide Held, OneOf, Weight;
    HeldDrop(es, i, named, x);
    ToldOne(es[i], MC.Capacity, named, x);
  }

  lemma ShrinkConserves(es: Order, i: nat, value: Value, w: nat, max: nat, named: bool, x: Notice)
    requires i < |es| && w <= es[i].weight
    ensures Held(es[i := Entry(es[i].key, value, w)], named, x)
            == Held(Replaced(es, i, value, w, max), named, x) + Told(MC.ReplaceLog(es, i, w, max, named), x)
  {
    hide Held, OneOf, Weight, Zeros;
    if MC.Shrinks(es, i, w, max) && i < |es| - 1 {
      LastGoes(es, i, Entry(es[i].key, value, w), named, x);
    }
  }

  lemma GrowConserves(es: Order, i: nat, value: Value, w: nat, max: nat, named: bool, x: Notice)
    requires i < |es| && w > es[i].weight && FitsInPlace(es, i, w, max)
    ensures Held(es, named, x) + OneOf(Entry(es[i].key, value, w), named, x)
            == Held(Replaced(es, i, value, w, max), named, x) + Told(MC.ReplaceLog(es, i, w, max, named), x)
               + OneOf(es[i], named, x)
  {
    hide Held, OneOf, UpdateRoom, MC.TailLog, Weight, Told;
    var e, room := Entry(es[i].key, value, w), UpdateRoom(es[i + 1..], w + Weight(es[..i]), max, false);
    TailGoes(es[i + 1..], room, named, x);
    HeldDrop(es, i, named, x);
    HeldConcat(es[..i], es[i + 1..], named, x);
    HeldConcat(es[..i] + [e], room, named, x);
    HeldConcat(es[..i], [e], named, x);
    HeldOne(e, named, x);
  }

  lemma LastGoes(es: Order, i: nat, e: Entry, named: bool, x: Notice)
    requires i < |es| - 1
    ensures Held(es[i := e], named, x)
            == Held(es[i := e][..|es| - 1], named, x) + Told([MC.NoticeOf(es[|es| - 1], MC.Capacity, named)], x)
  {
    ToldOne(es[|es| - 1], MC.Capacity, named, x);
  }

  // ---------------------------------------------------------------------------------------------
  // Operations and runs
  // ---------------------------------------------------------------------------------------------

  /** Every operation: what was held or is stored is still held, or is reported. */
  lemma StepConserves(es: Order, max: nat, named: bool, op: Op, x: Notice)
    requires x.reason == MC.Deleted
    ensures Held(es, named, x) + Taken(es, max, named, op, x)
            == Held(Next(es, max, op), named, x) + Reported(Reply(es, max, named, op), x)
  {
    hide Held, OneOf, MC.PutOrder, MC.PutLog, MC.PutOver, MC.ReplaceLog, MC.ReplaceOver, MC.After, MC.AfterLog,
      Replaced, Drop, Find, MC.Unmatched, MC.MatchedLog, MC.Outgrown, MC.NoticeOf, NoMatch, MC.Values;
    match op
    case Put(key, value, w, shed) =>
      if w <= max {
        PutConserves(es, key, value, w, max, shed, named, x);
      }
    case Get(key) =>
      var i := Find(es, key);
      if i < |es| {
        HeldDrop(es, i, named, x);
        HeldFront(es[i], Drop(es, i), named, x);
      }
    case Delete(key, shed) =>
      var i := Find(es, key);
      if i < |es| {
        HeldDrop(es, i, named, x);
        AfterConserves(Drop(es, i), shed, None, named, x);
        ToldConcat([MC.NoticeOf(es[i], MC.Deleted, named)], MC.AfterLog(Drop(es, i), shed, None, named), x);
        ToldOne(es[i], MC.Deleted, named, x);
      }
    case Replace(key, value, w, shed) =>
      var i := Find(es, key);
      if i < |es| {
        ChangeConserves(es, i, value, w, max, shed, named, x);
      }
    case DeletePrefix(prefix, shed) =>
      if prefix == [] {
        ClearConserves(es, named, x);
        HeldNone(named, x);
      } else {
        MatchConserves(es, prefix, named, x);
        AfterConserves(MC.Unmatched(es, prefix), shed, None, named, x);
        NoMatchSame(es, prefix, named);
      }
    case Evaluate(sample) =>
      AfterConserves(es, Some(sample), None, named, x);
    case Compact =>
  }

  lemma HeldNone(named: bool, x: Notice)
    ensures Held([], named, x) == 0
  {
  }

  lemma NoMatchSame(es: Order, prefix: Bytes, named: bool)
    ensures NoMatch(es, prefix) ==> MC.Unmatched(es, prefix) == es
  {
    if NoMatch(es, prefix) {
      MC.UnmatchedAll(es, prefix, named);
    }
  }

  lemma PutConserves(es: Order, key: Bytes, value: Value, w: nat, max: nat, shed: Option<MC.Sample>, named: bool,
      x: Notice)
    ensures var put, e := MC.PutOrder(es, key, value, w, max), Entry(key, value, w);
            Held(es, named, x) + OneOf(e, named, x)
            == Held(MC.After(put, shed, Some(e)), named, x) + Told(PutNotices(es, key, value, w, max, shed, named), x)
  {
    hide Held, OneOf, MC.PutOrder, MC.PutLog, MC.PutOver, MC.After, MC.AfterLog;
    StoreConserves(es, key, value, w, max, named, x);
    AfterConserves(MC.PutOrder(es, key, value, w, max), shed, Some(Entry(key, value, w)), named, x);
    ToldConcat(MC.PutLog(es, key, w, max, named) + MC.PutOver(es, key, named),
               PutSheds(es, key, value, w, max, shed, named), x);
  }

  lemma ChangeConserves(es: Order, i: nat, value: Value, w: nat, max: nat, shed: Option<MC.Sample>, named: bool,
      x: Notice)
    requires i < |es|
    ensures var r, kept := Replaced(es, i, value, w, max), Kept(es, i, value, w, max);
            Held(es, named, x) + (if MC.Outgrown(es, i, w, max) then 0 else OneOf(Entry(es[i].key, value, w), named, x))
            == Held(MC.After(r, shed, kept), named, x) + Told(ReplaceNotices(es, i, value, w, max, shed, named), x)
  {
    hide Held, OneOf, MC.ReplaceLog, MC.ReplaceOver, MC.After, MC.AfterLog, Replaced, MC.Outgrown;
    var r, kept := Replaced(es, i, value, w, max), Kept(es, i, value, w, max);
    ReplaceConserves(es, i, value, w, max, named, x);
    AfterConserves(r, shed, kept, named, x);
    ToldConcat(MC.ReplaceLog(es, i, w, max, named) + MC.ReplaceOver(es, i, w, max, named),
               MC.AfterLog(r, shed, kept, named), x);
  }

  /** How often a run stores `x`. */
  function AllTaken(es: Order, max: nat, named: bool, ops: seq<Op>, x: Notice): nat {
    if ops == [] then 0
    else
      var before := ops[..|ops| - 1];
      AllTaken(es, max, named, before, x) + Taken(Final(es, max, before), max, named, ops[|ops| - 1], x)
  }

  /** How often a run reports `x`. */
  function AllReported(answers: seq<Answer>, x: Notice): nat {
    if answers == [] then 0 else AllReported(answers[..|answers| - 1], x) + Reported(answers[|answers| - 1], x)
  }

  /** Over every run, from every state, a value stored is held at the end or was reported, and never both or twice. */
  lemma {:induction false} RunConserves(es: Order, max: nat, named: bool, ops: seq<Op>, x: Notice)
    requires x.reason == MC.Deleted
    ensures Held(es, named, x) + AllTaken(es, max, named, ops, x)
            == Held(Final(es, max, ops), named, x) + AllReported(Replies(es, max, named, ops), x)
  {
    hide Held, Taken, Reported, Next, Reply;
    if ops != [] {
      var before, op := ops[..|ops| - 1], ops[|ops| - 1];
      RunConserves(es, max, named, before, x);
      StepConserves(Final(es, max, before), max, named, op, x);
      var rs := Replies(es, max, named, ops);
      assert rs[..|rs| - 1] == Replies(es, max, named, before);
    }
  }

  // ---------------------------------------------------------------------------------------------
  // The order of the notices
  // ---------------------------------------------------------------------------------------------

  /** The notices are about entries of `es`, in order from the least recently used on, each at most once. */
  predicate FromTail(log: seq<Notice>, es: Order, reason: MC.Reason, named: bool) {
    if log == [] then true
    else if es == [] then false
    else
      var front := es[..|es| - 1];
      || (log[0] == MC.NoticeOf(es[|es| - 1], reason, named) && FromTail(log[1..], front, reason, named))
      || FromTail(log, front, reason, named)
  }

  lemma {:induction false} TailFront(es: Order, n: nat, named: bool)
    requires n < |es|
    ensures MC.TailLog(es, n, named)
            == [MC.NoticeOf(es[|es| - 1], MC.Capacity, named)] + MC.TailLog(es[..|es| - 1], n, named)
    decreases |es| - n
  {
    if n + 1 < |es| {
      TailFront(es, n + 1, named);
    }
  }

  /** Capacity evictions are reported from the least recently used entry on. */
  lemma {:induction false} CapacityInOrder(es: Order, n: nat, named: bool)
    requires n <= |es|
    ensures FromTail(MC.TailLog(es, n, named), es, MC.Capacity, named)
  {
    hide MC.TailLog, MC.NoticeOf;
    if n == |es| {
      MC.NoTail(es, named);
    } else {
      TailFront(es, n, named);
      CapacityInOrder(es[..|es| - 1], n, named);
    }
  }

  /** So are the entries shed under pressure. */
  lemma {:induction false} PressureInOrder(es: Order, kept: Order, g: Goals, prot: Option<Entry>, named: bool)
    ensures FromTail(MC.ShedLog(es, kept, g, prot, named), es, MC.Pressure, named)
    decreases |es|
  {
    hide Victim, NeedBytes, NeedZeros, MC.NoticeOf;
    if es != [] && (NeedBytes(es + kept, g) || NeedZeros(es + kept, g)) {
      var e, rest := es[|es| - 1], es[..|es| - 1];
      if Victim(e, es + kept, g, prot) {
        PressureInOrder(rest, kept, g, prot, named);
      } else {
        PressureInOrder(rest, [e] + kept, g, prot, named);
      }
    }
  }
}

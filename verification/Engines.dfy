/**
 The recency-list specification and the three engines that implement it.  Given the same pressure
 samples, the map, pointer and arena engines answer every sequence of operations as the specification
 does: the same results, the same notices to the callbacks in the same order, the same recency order.
 With no samples this is their behaviour below both pressure thresholds.  Over a whole run every stored
 value is still held or was reported once.
 */
module Engines {
  import opened Bytes
  import opened LruPolicy
  import MC = MapCache
  import TC = TrieCache
  import opened Reasons

  /** An operation, with the sample that is above the eviction threshold when it runs, if any. */
  datatype Op =
    | Put(key: Bytes, value: Value, weight: nat, shed: Option<MC.Sample>)
    | Get(key: Bytes)
    | Delete(key: Bytes, shed: Option<MC.Sample>)
    | Replace(key: Bytes, value: Value, weight: nat, shed: Option<MC.Sample>)
    | DeletePrefix(prefix: Bytes, shed: Option<MC.Sample>)
    | Evaluate(sample: MC.Sample)
    | Compact

  /** What a caller sees of one operation, and the notices the eviction callbacks get, in order.  A prefix deletion
      reports the matching entries in an order of the engine's own. */
  datatype Answer =
    | Stored(ok: bool, evicted: seq<Value>, log: seq<MC.Notice>)
    | Found(value: Option<Value>, log: seq<MC.Notice>)
    | Changed(found: bool, log: seq<MC.Notice>)
    | Dropped(gone: multiset<MC.Notice>, log: seq<MC.Notice>)
    | Reduced(evicted: seq<Value>, log: seq<MC.Notice>)
    | Done

  /** The recency order after an operation. */
  function Next(es: Order, max: nat, op: Op): Order {
    match op
    case Put(key, value, w, shed) =>
      if w > max then es else MC.After(MC.PutOrder(es, key, value, w, max), shed, Some(Entry(key, value, w)))
    case Get(key) =>
      var i := Find(es, key);
      if i < |es| then [es[i]] + Drop(es, i) else es
    case Delete(key, shed) =>
      var i := Find(es, key);
      if i < |es| then MC.After(Drop(es, i), shed, None) else es
    case Replace(key, value, w, shed) =>
      var i := Find(es, key);
      if i < |es| then MC.After(Replaced(es, i, value, w, max), shed, Kept(es, i, value, w, max)) else es
    case DeletePrefix(prefix, shed) =>
      if prefix == [] then []
      else if NoMatch(es, prefix) then es
      else MC.After(MC.Unmatched(es, prefix), shed, None)
    case Evaluate(sample) => MC.After(es, Some(sample), None)
    case Compact => es
  }

  /** The entry a Replace protects from shedding: the new one, unless it was evicted itself. */
  function Kept(es: Order, i: nat, value: Value, w: nat, max: nat): Option<Entry>
    requires i < |es|
  {
    if MC.Outgrown(es, i, w, max) then None else Some(Entry(es[i].key, value, w))
  }

  predicate NoMatch(es: Order, prefix: Bytes) {
    forall i :: 0 <= i < |es| ==> !(prefix <= es[i].key)
  }

  /** The notices of a Put: capacity evictions, then the overwritten value, then the entries shed. */
  function PutNotices(es: Order, key: Bytes, value: Value, w: nat, max: nat, shed: Option<MC.Sample>,
                      named: bool): seq<MC.Notice> {
    MC.PutLog(es, key, w, max, named) + MC.PutOver(es, key, named) + PutSheds(es, key, value, w, max, shed, named)
  }

  function PutSheds(es: Order, key: Bytes, value: Value, w: nat, max: nat, shed: Option<MC.Sample>,
                    named: bool): seq<MC.Notice> {
    MC.AfterLog(MC.PutOrder(es, key, value, w, max), shed, Some(Entry(key, value, w)), named)
  }

  /** The notices of a Replace, in the same order. */
  function ReplaceNotices(es: Order, i: nat, value: Value, w: nat, max: nat, shed: Option<MC.Sample>,
                          named: bool): seq<MC.Notice>
    requires i < |es|
  {
    MC.ReplaceLog(es, i, w, max, named) + MC.ReplaceOver(es, i, w, max, named)
    + MC.AfterLog(Replaced(es, i, value, w, max), shed, Kept(es, i, value, w, max), named)
  }

  /** The answer of an operation.  The values handed back are those of the evicted entries, not the overwritten one. */
  function Reply(es: Order, max: nat, named: bool, op: Op): Answer {
    match op
    case Put(key, value, w, shed) =>
      if w > max then Stored(false, [], [])
      else
        Stored(true,
               MC.Values(MC.PutLog(es, key, w, max, named)) + MC.Values(PutSheds(es, key, value, w, max, shed, named)),
               PutNotices(es, key, value, w, max, shed, named))
    case Get(key) =>
      var i := Find(es, key);
      Found(if i < |es| then Some(es[i].value) else None, [])
    case Delete(key, shed) =>
      var i := Find(es, key);
      if i < |es| then
        Found(Some(es[i].value), [MC.NoticeOf(es[i], MC.Deleted, named)] + MC.AfterLog(Drop(es, i), shed, None, named))
      else Found(None, [])
    case Replace(key, value, w, shed) =>
      var i := Find(es, key);
      if i < |es| then Changed(true, ReplaceNotices(es, i, value, w, max, shed, named)) else Changed(false, [])
    case DeletePrefix(prefix, shed) =>
      if prefix == [] then Reduced([], MC.ClearLog(es, named))
      else
        Dropped(MC.MatchedLog(es, prefix, named),
                if NoMatch(es, prefix) then [] else MC.AfterLog(MC.Unmatched(es, prefix), shed, None, named))
    case Evaluate(sample) =>
      var log := MC.AfterLog(es, Some(sample), None, named);
      Reduced(MC.Values(log), log)
    case Compact => Done
  }

  // ---------------------------------------------------------------------------------------------
  // Counters
  // ---------------------------------------------------------------------------------------------

  function LogOf(x: Answer): seq<MC.Notice> {
    match x
    case Stored(_, _, log) => log
    case Found(_, log) => log
    case Changed(_, log) => log
    case Dropped(_, log) => log
    case Reduced(_, log) => log
    case Done => []
  }

  /** How many entries a prefix deletion reports in an order of its own. */
  function GoneOf(x: Answer): nat {
    if x.Dropped? then |x.gone| else 0
  }

  /** What an operation does to the cache's account of its operations. */
  function Tallied(t: Tally, es: Order, max: nat, op: Op): Tally {
    match op
    case Put(key, _, w, _) =>
      if w > max then t
      else if Find(es, key) == |es| then t.(inserted := t.inserted + 1)
      else t.(updated := t.updated + 1)
    case Delete(key, _) => if Find(es, key) == |es| then t else t.(deleted := t.deleted + 1)
    case Replace(key, _, w, _) =>
      var i := Find(es, key);
      if i == |es| then t
      else if MC.Outgrown(es, i, w, max) then t.(selfEvicted := t.selfEvicted + 1)
      else t.(replaced := t.replaced + 1)
    case _ => t
  }

  /** The counters after an operation on `es` that was answered with `x`. */
  predicate Counted(n: MC.Counters, n': MC.Counters, es: Order, max: nat, op: Op, x: Answer) {
    Booked(n, n', LogOf(x), GoneOf(x)) && TallyOf(n') == Tallied(TallyOf(n), es, max, op)
  }

  /** The map engine performs one operation. */
  method StepMap(m: MC.Cache, op: Op) returns (x: Answer)
    requires m.Valid()
    modifies m
    ensures m.Valid() && m.order == Next(old(m.order), m.maxSize, op)
    ensures x == Reply(old(m.order), m.maxSize, m.named, op)
    ensures Counted(old(m.n), m.n, old(m.order), m.maxSize, op, x)
  {
    hide Weight, Zeros, MC.Cache.ValidBut, Find, Drop, Replaced, MC.PutOrder, MC.PutLog, MC.PutOver, MC.ReplaceLog,
      MC.ReplaceOver, MC.After, MC.AfterLog, MC.Unmatched, MC.MatchedLog, MC.Charged, MC.CountPut, MC.CountReplace,
      MC.Outgrown, MC.NoticeOf, MC.Values, MC.Returned, NoMatch, Booked, TallyOf,
      With, Only, MC.Evicted, MC.ClearLog;
    ghost var es, n, max, named := m.order, m.n, m.maxSize, m.named;
    NothingBooked(n);
    match op
    case Put(key, value, w, shed) =>
      PutReturns(m.order, key, value, w, m.maxSize, shed, m.named);
      var ok, log := m.Put(key, value, w, shed);
      x := Stored(ok, MC.Returned(log), log);
      if ok {
        Sheds(MC.PutOrder(es, key, value, w, max), shed, Some(Entry(key, value, w)), named);
        PutBooked(es, key, w, max, named, PutSheds(es, key, value, w, max, shed, named), n, m.n);
      }
    case Get(key) =>
      var r := m.Get(key);
      x := Found(r, []);
    case Delete(key, shed) =>
      var r, log := m.Delete(key, shed);
      x := Found(r, log);
      ghost var i := Find(es, key);
      if i < |es| {
        Sheds(Drop(es, i), shed, None, named);
        DeleteBooked(es[i], named, MC.AfterLog(Drop(es, i), shed, None, named), n, m.n);
      }
    case Replace(key, value, w, shed) =>
      FoundKey(m.order, key);
      var f, log := m.Replace(key, value, w, shed);
      x := Changed(f, log);
      ghost var i := Find(es, key);
      if i < |es| {
        ghost var r, kept := Replaced(es, i, value, w, max), Kept(es, i, value, w, max);
        Sheds(r, shed, kept, named);
        ReplaceBooked(es, i, w, max, named, MC.AfterLog(r, shed, kept, named), n, m.n);
      }
    case DeletePrefix(prefix, shed) =>
      if prefix == [] {
        var log := m.Clear();
        x := Reduced([], log);
        ClearBooked(es, named, m.n.delWeight - n.delWeight, n);
        SameTally(n, m.n);
      } else {
        Emptiness(m.order, prefix, m.named);
        var gone, log := m.DeletePrefix(prefix, shed);
        NoneGone(gone);
        x := Dropped(multiset(gone), log);
        DropSheds(es, prefix, shed, named);
        ShedBooked(log, n, m.n, |gone|);
      }
    case Evaluate(sample) =>
      ShedReturns(m.order, Some(sample), None, m.named);
      var log := m.ShedPass(sample, None);
      x := Reduced(MC.Returned(log), log);
      Sheds(es, Some(sample), None, named);
      PlainBooked(log, n, m.n);
    case Compact =>
      x := Done;
  }

  lemma SameTally(n: MC.Counters, n': MC.Counters)
    requires n' == n.(delCount := n'.delCount, delWeight := n'.delWeight)
    ensures TallyOf(n') == TallyOf(n)
  {
  }

  lemma DropSheds(es: Order, prefix: Bytes, shed: Option<MC.Sample>, named: bool)
    ensures Only(MC.AfterLog(MC.Unmatched(es, prefix), shed, None, named), MC.Pressure) && Only([], MC.Pressure)
  {
    Sheds(MC.Unmatched(es, prefix), shed, None, named);
  }

  lemma PlainBooked(log: seq<MC.Notice>, n: MC.Counters, n': MC.Counters)
    requires Only(log, MC.Pressure) && MC.Charged(n, n', 0, |log|)
    ensures Booked(n, n', log, 0) && TallyOf(n') == TallyOf(n)
  {
    ShedBooked(log, n, n', 0);
  }

  lemma FoundKey(es: Order, key: Bytes)
    ensures Find(es, key) < |es| ==> es[Find(es, key)].key == key
  {
  }

  lemma NoneGone(s: seq<MC.Notice>)
    ensures s == [] <==> multiset(s) == multiset{}
  {
    if s != [] {
      assert s[0] in multiset(s);
    }
  }

  /** Something is reported exactly when something matches. */
  lemma Emptiness(es: Order, prefix: Bytes, named: bool)
    ensures MC.MatchedLog(es, prefix, named) == multiset{} <==> NoMatch(es, prefix)
  {
    if i :| 0 <= i < |es| && prefix <= es[i].key {
      MC.MatchedDrop(es, prefix, named, i);
      assert MC.NoticeOf(es[i], MC.Deleted, named) in MC.MatchedLog(es, prefix, named);
    } else {
      MC.UnmatchedAll(es, prefix, named);
    }
  }

  /** Put hands back the values evicted for capacity, then those shed. */
  lemma PutReturns(es: Order, key: Bytes, value: Value, w: nat, max: nat, shed: Option<MC.Sample>, named: bool)
    ensures MC.Returned(PutNotices(es, key, value, w, max, shed, named))
         == MC.Values(MC.PutLog(es, key, w, max, named)) + MC.Values(PutSheds(es, key, value, w, max, shed, named))
    ensures MC.Returned([]) == []
  {
    hide MC.AfterLog, MC.PutOrder, MC.PutLog, MC.PutOver, MC.Returned, MC.Values, Find;
    var caps, over := MC.PutLog(es, key, w, max, named), MC.PutOver(es, key, named);
    var sheds := PutSheds(es, key, value, w, max, shed, named);
    MC.PutEvicts(es, key, w, max, named);
    MC.ReturnedConcat(caps + over, sheds);
    MC.ReturnedConcat(caps, over);
    ShedReturns(MC.PutOrder(es, key, value, w, max), shed, Some(Entry(key, value, w)), named);
    MC.OverKept(es, key, named);
    Between(MC.Values(caps), MC.Values(sheds));
  }

  lemma Between(a: seq<Value>, b: seq<Value>)
    ensures (a + []) + b == a + b
  {
  }

  lemma ShedReturns(es: Order, shed: Option<MC.Sample>, prot: Option<Entry>, named: bool)
    ensures MC.Returned(MC.AfterLog(es, shed, prot, named)) == MC.Values(MC.AfterLog(es, shed, prot, named))
  {
    if shed.Some? {
      MC.ShedEvicts(es, [], MC.GoalsOf(shed.value, es, prot), prot, named);
    }
  }

  /** A trie engine, with or without the index, performs one operation. */
  method StepTrie(t: TC.Cache, op: Op) returns (x: Answer)
    requires t.Valid()
    modifies t.Repr()
    ensures t.Valid() && t.Order() == Next(old(t.Order()), t.maxSize, op)
    ensures x == Reply(old(t.Order()), t.maxSize, t.named, op)
    ensures Counted(old(t.n), t.n, old(t.Order()), t.maxSize, op, x)
  {
    hide Weight, Zeros, TC.Cache.ValidBut, TC.Cache.Order, Find, Drop, Replaced, MC.PutOrder, MC.PutLog, MC.PutOver,
      MC.ReplaceLog, MC.ReplaceOver, MC.After, MC.AfterLog, MC.Unmatched, MC.MatchedLog, MC.Charged, MC.CountPut,
      MC.CountReplace, MC.Outgrown, MC.NoticeOf, MC.Values, MC.Returned, NoMatch, Booked, TallyOf,
      With, Only, MC.Evicted, MC.ClearLog;
    ghost var es, n, max, named := t.Order(), t.n, t.maxSize, t.named;
    NothingBooked(n);
    match op
    case Put(key, value, w, shed) =>
      PutReturns(t.Order(), key, value, w, t.maxSize, shed, t.named);
      var ok, log := t.Put(key, value, w, shed);
      x := Stored(ok, MC.Returned(log), log);
      if ok {
        Sheds(MC.PutOrder(es, key, value, w, max), shed, Some(Entry(key, value, w)), named);
        PutBooked(es, key, w, max, named, PutSheds(es, key, value, w, max, shed, named), n, t.n);
      }
    case Get(key) =>
      var r := t.Get(key);
      x := Found(r, []);
    case Delete(key, shed) =>
      var r, log := t.Delete(key, shed);
      x := Found(r, log);
      ghost var i := Find(es, key);
      if i < |es| {
        Sheds(Drop(es, i), shed, None, named);
        DeleteBooked(es[i], named, MC.AfterLog(Drop(es, i), shed, None, named), n, t.n);
      }
    case Replace(key, value, w, shed) =>
      FoundKey(t.Order(), key);
      var f, log := t.Replace(key, value, w, shed);
      x := Changed(f, log);
      ghost var i := Find(es, key);
      if i < |es| {
        ghost var r, kept := Replaced(es, i, value, w, max), Kept(es, i, value, w, max);
        Sheds(r, shed, kept, named);
        ReplaceBooked(es, i, w, max, named, MC.AfterLog(r, shed, kept, named), n, t.n);
      }
    case DeletePrefix(prefix, shed) =>
      if prefix == [] {
        var log := t.Clear();
        x := Reduced([], log);
        ClearBooked(es, named, t.n.delWeight - n.delWeight, n);
        SameTally(n, t.n);
      } else {
        Emptiness(t.Order(), prefix, t.named);
        var gone, log := t.DeletePrefix(prefix, shed);
        NoneGone(gone);
        x := Dropped(multiset(gone), log);
        DropSheds(es, prefix, shed, named);
        ShedBooked(log, n, t.n, |gone|);
      }
    case Evaluate(sample) =>
      ShedReturns(t.Order(), Some(sample), None, t.named);
      TC.NoProtection(t);
      var log := t.ShedPass(sample, TC.RL.NIL, None);
      x := Reduced(MC.Returned(log), log);
      Sheds(es, Some(sample), None, named);
      PlainBooked(log, n, t.n);
    case Compact =>
      if t.indexed {
        t.Compact();
      }
      x := Done;
  }

  /** The recency order and the answers of a whole run. */
  function Final(es: Order, max: nat, ops: seq<Op>): Order {
    if ops == [] then es else Next(Final(es, max, ops[..|ops| - 1]), max, ops[|ops| - 1])
  }

  function Replies(es: Order, max: nat, named: bool, ops: seq<Op>): seq<Answer> {
    if ops == [] then []
    else Replies(es, max, named, ops[..|ops| - 1])
         + [Reply(Final(es, max, ops[..|ops| - 1]), max, named, ops[|ops| - 1])]
  }

  /** How many notices of a run have reason `r`. */
  function CountWith(xs: seq<Answer>, r: MC.Reason): nat {
    if xs == [] then 0
    else
      var x := xs[|xs| - 1];
      CountWith(xs[..|xs| - 1], r) + |With(LogOf(x), r)| + if r == MC.Deleted then GoneOf(x) else 0
  }

  function TalliedRun(t: Tally, es: Order, max: nat, ops: seq<Op>): Tally {
    if ops == [] then t
    else
      var before := ops[..|ops| - 1];
      Tallied(TalliedRun(t, es, max, before), Final(es, max, before), max, ops[|ops| - 1])
  }

  /** Over a run each counter of removals grows by the number of notices with its reason, and the others tell how
      many operations of each kind there were. */
  predicate CountedRun(n: MC.Counters, n': MC.Counters, es: Order, max: nat, ops: seq<Op>, xs: seq<Answer>) {
    && n'.capCount == n.capCount + CountWith(xs, MC.Capacity)
    && n'.presCount == n.presCount + CountWith(xs, MC.Pressure)
    && n'.delCount == n.delCount + CountWith(xs, MC.Deleted)
    && n'.repCount == n.repCount + CountWith(xs, MC.Replaced)
    && TallyOf(n') == TalliedRun(TallyOf(n), es, max, ops)
  }

  lemma CountedMore(n: MC.Counters, n1: MC.Counters, n2: MC.Counters, es: Order, max: nat, ops: seq<Op>,
      xs: seq<Answer>, op: Op, x: Answer)
    requires CountedRun(n, n1, es, max, ops, xs) && Counted(n1, n2, Final(es, max, ops), max, op, x)
    ensures CountedRun(n, n2, es, max, ops + [op], xs + [x])
  {
    hide Tallied, TallyOf, With, Final, CountWith, TalliedRun, LogOf, GoneOf;
    CountMore(xs, x, MC.Capacity);
    CountMore(xs, x, MC.Pressure);
    CountMore(xs, x, MC.Deleted);
    CountMore(xs, x, MC.Replaced);
    TalliedMore(TallyOf(n), es, max, ops, op);
  }

  lemma CountMore(xs: seq<Answer>, x: Answer, r: MC.Reason)
    ensures CountWith(xs + [x], r)
            == CountWith(xs, r) + |With(LogOf(x), r)| + if r == MC.Deleted then GoneOf(x) else 0
  {
    hide With, LogOf, GoneOf;
    assert (xs + [x])[..|xs|] == xs;
  }

  lemma TalliedMore(t: Tally, es: Order, max: nat, ops: seq<Op>, op: Op)
    ensures TalliedRun(t, es, max, ops + [op]) == Tallied(TalliedRun(t, es, max, ops), Final(es, max, ops), max, op)
  {
    hide Tallied, Final;
    assert (ops + [op])[..|ops|] == ops;
  }

  lemma NoReplies(es: Order, max: nat, named: bool)
    ensures Final(es, max, []) == es && Replies(es, max, named, []) == []
  {
  }

  lemma MoreReplies(es: Order, max: nat, named: bool, ops: seq<Op>, op: Op)
    ensures Final(es, max, ops + [op]) == Next(Final(es, max, ops), max, op)
    ensures Replies(es, max, named, ops + [op])
            == Replies(es, max, named, ops) + [Reply(Final(es, max, ops), max, named, op)]
  {
    hide Next, Reply;
    assert (ops + [op])[..|ops|] == ops;
  }

  lemma NoneCounted(n: MC.Counters, es: Order, max: nat)
    ensures CountedRun(n, n, es, max, [], [])
  {
  }

  method RunMap(m: MC.Cache, ops: seq<Op>) returns (xs: seq<Answer>)
    requires m.Valid()
    modifies m
    ensures m.Valid() && m.order == Final(old(m.order), m.maxSize, ops)
    ensures xs == Replies(old(m.order), m.maxSize, m.named, ops)
    ensures CountedRun(old(m.n), m.n, old(m.order), m.maxSize, ops, xs)
  {
    hide MC.Cache.ValidBut, Next, Reply, Counted, CountedRun, Final, Replies;
    xs := [];
    NoneCounted(m.n, m.order, m.maxSize);
    NoReplies(m.order, m.maxSize, m.named);
    for i := 0 to |ops|
      invariant m.Valid() && m.order == Final(old(m.order), m.maxSize, ops[..i])
      invariant xs == Replies(old(m.order), m.maxSize, m.named, ops[..i])
      invariant CountedRun(old(m.n), m.n, old(m.order), m.maxSize, ops[..i], xs)
    {
      assert ops[..i + 1] == ops[..i] + [ops[i]];
      MoreReplies(old(m.order), m.maxSize, m.named, ops[..i], ops[i]);
      ghost var n := m.n;
      var x := StepMap(m, ops[i]);
      CountedMore(old(m.n), n, m.n, old(m.order), m.maxSize, ops[..i], xs, ops[i], x);
      xs := xs + [x];
    }
    assert ops[..|ops|] == ops;
  }

  method RunTrie(t: TC.Cache, ops: seq<Op>) returns (xs: seq<Answer>)
    requires t.Valid()
    modifies t.Repr()
    ensures t.Valid() && t.Order() == Final(old(t.Order()), t.maxSize, ops)
    ensures xs == Replies(old(t.Order()), t.maxSize, t.named, ops)
    ensures CountedRun(old(t.n), t.n, old(t.Order()), t.maxSize, ops, xs)
  {
    hide TC.Cache.ValidBut, TC.Cache.Order, Next, Reply, Counted, CountedRun, Final, Replies;
    xs := [];
    NoneCounted(t.n, t.Order(), t.maxSize);
    NoReplies(t.Order(), t.maxSize, t.named);
    for i := 0 to |ops|
      invariant t.Valid() && t.Order() == Final(old(t.Order()), t.maxSize, ops[..i])
      invariant xs == Replies(old(t.Order()), t.maxSize, t.named, ops[..i])
      invariant CountedRun(old(t.n), t.n, old(t.Order()), t.maxSize, ops[..i], xs)
    {
      assert ops[..i + 1] == ops[..i] + [ops[i]];
      MoreReplies(old(t.Order()), t.maxSize, t.named, ops[..i], ops[i]);
      ghost var n := t.n;
      var x := StepTrie(t, ops[i]);
      CountedMore(old(t.n), n, t.n, old(t.Order()), t.maxSize, ops[..i], xs, ops[i], x);
      xs := xs + [x];
    }
    assert ops[..|ops|] == ops;
  }

  /** The three engines, started empty with the same capacity, cannot be told apart by any run. */
  method Lockstep(max: U64, entryCallback: bool, hash: Bytes -> nat, ops: seq<Op>)
    returns (m: MC.Cache, r: TC.Cache, a: TC.Cache, xs: seq<Answer>, ys: seq<Answer>, zs: seq<Answer>)
    requires 0 < max
    ensures m.Valid() && r.Valid() && a.Valid() && !r.indexed && a.indexed && a.index.hash == hash
    ensures xs == ys == zs == Replies([], max, entryCallback, ops)
    ensures m.order == r.Order() == a.Order() == Final([], max, ops)
    ensures CountedRun(MC.ZERO, m.n, [], max, ops, xs)
    ensures CountedRun(MC.ZERO, r.n, [], max, ops, xs) && CountedRun(MC.ZERO, a.n, [], max, ops, xs)
  {
    hide MC.Cache.ValidBut, TC.Cache.ValidBut, TC.Cache.Order, Final, Replies, CountedRun;
    m := new MC.Cache(max, entryCallback);
    r := new TC.Cache(max, false, entryCallback, hash);
    a := new TC.Cache(max, true, entryCallback, hash);
    xs := RunMap(m, ops);
    ys := RunTrie(r, ops);
    zs := RunTrie(a, ops);
  }
}

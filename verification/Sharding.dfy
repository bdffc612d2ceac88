/**
 A sharded cache (sharded_lru.go): the capacity and the shedding target are divided among the shards
 without loss, so the entry bound of the shards adds up to that of the whole.
 */
module Sharding {
  import opened Bytes
  import opened LruPolicy
  import MC = MapCache
  import TC = TrieCache
  import NI = NodeIndex

  function Sum(xs: seq<nat>): nat {
    if xs == [] then 0 else xs[0] + Sum(xs[1..])
  }

  lemma {:induction false} SumAppend(xs: seq<nat>, x: nat)
    ensures Sum(xs + [x]) == Sum(xs) + x
  {
    if xs == [] {
      assert xs + [x] == [x];
    } else {
      SumAppend(xs[1..], x);
      assert (xs + [x])[1..] == xs[1..] + [x];
    }
  }

  /** The loop of newShardedCacheWithOptions: the first shards take the remainder. */
  method Divide(total: nat, shards: nat) returns (parts: seq<nat>)
    requires 0 < shards
    ensures |parts| == shards && Sum(parts) == total && forall i :: 0 <= i < shards ==> parts[i] <= total
    ensures forall i, j :: 0 <= i < j < shards ==> parts[j] <= parts[i] <= parts[j] + 1
    ensures shards <= total ==> forall i :: 0 <= i < shards ==> 0 < parts[i]
  {
    var base, rem := total / shards, total % shards;
    assert total == shards * base + rem;
    parts := [];
    for i := 0 to shards
      invariant |parts| == i && Sum(parts) == i * base + (if i < rem then i else rem)
      invariant forall k :: 0 <= k < i ==> parts[k] == base + if k < rem then 1 else 0
    {
      var part := base;
      if i < rem {
        part := part + 1;
      }
      SumAppend(parts, part);
      parts := parts + [part];
      assert (i + 1) * base == i * base + base;
    }
    if shards <= total {
      AtLeastOne(total, shards);
    }
  }

  lemma AtLeastOne(total: nat, shards: nat)
    requires 0 < shards <= total
    ensures 1 <= total / shards
  {
    assert total == shards * (total / shards) + total % shards;
  }

  /** newShard: one of the three engines. */
  datatype Engine = Map | Pointer | Arena

  datatype Shard = MapShard(m: MC.Cache) | TrieShard(t: TC.Cache)

  function Objects(s: Shard): set<object> {
    match s
    case MapShard(m) => {m}
    case TrieShard(t) => {t, t.trie, t.list, t.index}
  }

  ghost predicate ShardValid(s: Shard)
    reads Objects(s)
  {
    match s
    case MapShard(m) => m.Valid()
    case TrieShard(t) => t.Valid()
  }

  ghost function Entries(s: Shard): Order
    reads Objects(s)
  {
    match s
    case MapShard(m) => m.order
    case TrieShard(t) => t.Order()
  }

  function Cap(s: Shard): nat {
    match s
    case MapShard(m) => m.maxSize
    case TrieShard(t) => t.maxSize
  }

  ghost predicate Runs(s: Shard, engine: Engine) {
    match s
    case MapShard(_) => engine == Map
    case TrieShard(t) => engine == if t.indexed then Arena else Pointer
  }

  ghost function AllObjects(shards: seq<Shard>): set<object> {
    if shards == [] then {} else Objects(shards[0]) + AllObjects(shards[1..])
  }

  ghost function Lens(shards: seq<Shard>): seq<nat>
    reads AllObjects(shards)
  {
    if shards == [] then [] else [|Entries(shards[0])|] + Lens(shards[1..])
  }

  function Caps(shards: seq<Shard>): seq<nat> {
    if shards == [] then [] else [Cap(shards[0])] + Caps(shards[1..])
  }

  /** Whatever the shards hold, and whichever engines they run, together they hold at most twice the capacity. */
  lemma {:induction false} TotalBound(shards: seq<Shard>)
    requires forall s :: s in shards ==> ShardValid(s)
    ensures Sum(Lens(shards)) <= 2 * Sum(Caps(shards))
  {
    hide MC.Cache.ValidBut, TC.Cache.ValidBut;
    if shards != [] {
      assert shards[0] in shards;
      ShardBound(shards[0]);
      TotalBound(shards[1..]);
    }
  }

  lemma ShardBound(s: Shard)
    requires ShardValid(s)
    ensures |Entries(s)| <= 2 * Cap(s)
  {
    hide TC.Cache.ValidBut, Weight, Zeros, Distinct;
  }

  lemma {:induction false} CapsAppend(shards: seq<Shard>, s: Shard)
    ensures Caps(shards + [s]) == Caps(shards) + [Cap(s)]
  {
    if shards == [] {
      assert shards + [s] == [s];
    } else {
      CapsAppend(shards[1..], s);
      assert (shards + [s])[1..] == shards[1..] + [s];
    }
  }

  lemma NoCaps()
    ensures Caps([]) == []
  {
  }

  method NewShard(engine: Engine, max: U64, entryCallback: bool, hash: Bytes -> NI.Hash) returns (s: Shard)
    requires 0 < max
    ensures ShardValid(s) && Entries(s) == [] && Cap(s) == max && Runs(s, engine) && fresh(Objects(s))
  {
    hide MC.Cache.ValidBut, TC.Cache.ValidBut;
    if engine == Map {
      var m := new MC.Cache(max, entryCallback);
      s := MapShard(m);
    } else {
      var t := new TC.Cache(max, engine == Arena, entryCallback, hash);
      s := TrieShard(t);
    }
  }

  /** newShardedCacheWithOptions.  More shards than capacity, or none, is refused by the caller. */
  method NewShards(engine: Engine, maxSize: U64, count: nat, entryCallback: bool, hash: Bytes -> NI.Hash)
    returns (shards: seq<Shard>)
    requires 0 < count <= maxSize
    ensures |shards| == count && Sum(Caps(shards)) == maxSize
    ensures forall s :: s in shards ==> fresh(Objects(s)) && ShardValid(s) && Entries(s) == [] && Runs(s, engine)
    ensures forall i, j :: 0 <= i < j < count ==> Objects(shards[i]) !! Objects(shards[j])
  {
    hide ShardValid, Entries, Runs, Objects, Caps, Cap, Sum;
    var parts := Divide(maxSize, count);
    shards := [];
    ghost var owned: set<object> := {};
    NoCaps();
    for i := 0 to count
      invariant |shards| == i && Caps(shards) == parts[..i] && fresh(owned)
      invariant forall s :: s in shards ==> Objects(s) <= owned
      invariant forall s :: s in shards ==> ShardValid(s) && Entries(s) == [] && Runs(s, engine)
      invariant forall j, k :: 0 <= j < k < i ==> Objects(shards[j]) !! Objects(shards[k])
    {
      var s := NewShard(engine, parts[i], entryCallback, hash);
      CapsAppend(shards, s);
      shards, owned := shards + [s], owned + Objects(s);
      assert parts[..i + 1] == parts[..i] + [parts[i]];
    }
    assert parts[..count] == parts;
  }
}

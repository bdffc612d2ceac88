/**
 The hash index over the radix trie (arena_radix.go): an open-addressed table holding one node per
 64-bit key hash, and `collisionPeers` for further live nodes with the same hash.  The hash is an
 arbitrary function, so total collision is included.

 `keys` stands for the live value-bearing nodes of the trie with the key each of them spells; `hashes`
 stands for hashNodeKey.
 */
module NodeIndex {
  import opened Bytes
  import opened ProbeTable
  import RT = RadixTrie
  import TK = TrieKeys
  import TS = TrieSweep

  // ---------------------------------------------------------------------------------------------
  // Tags and capacities
  // ---------------------------------------------------------------------------------------------

  const TWO32: nat := 0x1_0000_0000
  const TWO21: nat := 0x20_0000
  const MIN_CAP: nat := 16

  function Pow2(k: nat): (p: nat)
    ensures p > 0
  {
    if k == 0 then 1 else 2 * Pow2(k - 1)
  }

  /** Bitwise exclusive or of the low `n` bits. */
  function Xor(a: nat, b: nat, n: nat): (x: nat)
    ensures x < Pow2(n)
  {
    if n == 0 then 0 else (a % 2 + b % 2) % 2 + 2 * Xor(a / 2, b / 2, n - 1)
  }

  lemma Pow2Of32()
    ensures Pow2(32) == TWO32
  {
    assert Pow2(8) == 256;
    assert Pow2(16) == 65536;
    assert Pow2(24) == 0x100_0000;
  }

  lemma Pow2Of21()
    ensures Pow2(21) == TWO21 && Pow2(22) == 2 * TWO21
  {
    assert Pow2(8) == 256;
    assert Pow2(16) == 65536;
    assert Pow2(21) == TWO21;
  }

  /** arenaHashTag: the two halves of the hash folded together, never 0. */
  function Tag(h: nat): (t: nat)
    ensures 0 < t < TWO32
  {
    Pow2Of32();
    var t := Xor(h % TWO32, (h / TWO32) % TWO32, 32);
    if t == 0 then 1 else t
  }

  /** The smallest power of two that is at least `n`: `1 << bits.Len(n - 1)`. */
  function CeilPow2(n: nat, k: nat): (p: nat)
    ensures n <= p
    ensures exists j: nat :: p == Pow2(j)
    decreases n - Pow2(k)
  {
    if n <= Pow2(k) then Pow2(k) else CeilPow2(n, k + 1)
  }

  /** hashSlotsCapFor. */
  function CapFor(entries: nat): (c: nat)
    ensures MIN_CAP <= c && Loaded(entries, c)
    ensures exists j: nat :: c == Pow2(j)
  {
    assert Pow2(4) == MIN_CAP;
    if entries <= 12 then MIN_CAP
    else CeilPow2((entries * 5 + 3) / 4, 0)
  }

  /** With at most 2^21 slots the low 21 bits of a tag determine the home position. */
  lemma HomeOfTag21(tag: nat, k: nat)
    requires k <= 21
    ensures Home(tag % TWO21, Pow2(k)) == Home(tag, Pow2(k))
  {
    Pow2Split(k, 21 - k);
    Pow2Of21();
    ModMod(tag, Pow2(k), Pow2(21 - k));
  }

  lemma {:induction false} Pow2Split(a: nat, b: nat)
    ensures Pow2(a + b) == Pow2(a) * Pow2(b)
  {
    if a > 0 {
      Pow2Split(a - 1, b);
    }
  }

  lemma ModMod(x: nat, n: nat, m: nat)
    requires 0 < n && 0 < m
    ensures n * m > 0 && (x % (n * m)) % n == x % n
  {
    var q, r := x / (n * m), x % (n * m);
    assert n * m > 0;
    assert x == n * m * q + r == r + n * (m * q);
    ModAdd(r, n, m * q);
  }

  lemma {:induction false} ModAdd(r: nat, n: nat, c: nat)
    requires 0 < n
    ensures (r + n * c) % n == r % n
  {
    if c > 0 {
      ModAdd(r, n, c - 1);
      assert r + n * c == (r + n * (c - 1)) + n;
      ModOnce(r + n * (c - 1), n);
    }
  }

  lemma ModOnce(a: nat, n: nat)
    requires 0 < n
    ensures (a + n) % n == a % n
  {
    var q, r := a / n, a % n;
    assert a == n * q + r;
    assert a + n == n * (q + 1) + r;
    DivUnique(a + n, n, q + 1, r);
  }

  lemma MulAtLeast(n: nat, k: nat)
    requires 0 < k
    ensures n <= n * k
  {
  }

  lemma DivUnique(a: nat, n: nat, q: nat, r: nat)
    requires 0 < n && a == n * q + r && r < n
    ensures a % n == r
  {
    var q', r' := a / n, a % n;
    assert a == n * q' + r';
    if q' < q {
      MulAtLeast(n, q - q');
    } else if q < q' {
      MulAtLeast(n, q' - q);
    }
  }

  // ---------------------------------------------------------------------------------------------
  // The index invariant, on values
  // ---------------------------------------------------------------------------------------------

  type Id = nat
  type Hash = nat

  /** A slot names a live node and carries the tag of that node's hash. */
  predicate SlotOk(s: Slot, hs: map<Id, Hash>, tags: map<Id, nat>) {
    s.id in hs && s.tag == Tag(hs[s.id]) && s.id in tags && tags[s.id] == s.tag % TWO21
  }

  /** The entries of the table: live nodes, at most one per 64-bit hash. */
  ghost predicate EntriesOk(es: set<Slot>, hs: map<Id, Hash>, tags: map<Id, nat>) {
    && (forall s :: s in es ==> SlotOk(s, hs, tags))
    && (forall a, b :: a in es && b in es && a != b ==> hs[a.id] != hs[b.id])
  }

  ghost predicate HasHash(es: set<Slot>, hs: map<Id, Hash>, h: Hash) {
    exists s :: s in es && s.id in hs && hs[s.id] == h
  }

  ghost predicate InTable(es: set<Slot>, id: Id) {
    exists s :: s in es && s.id == id
  }

  ghost predicate NoDup(s: seq<Id>) {
    forall i, j :: 0 <= i < j < |s| ==> s[i] != s[j]
  }

  /** A bucket of collision peers: live nodes of that hash, none of them in the table. */
  ghost predicate BucketOk(h: Hash, ps: seq<Id>, es: set<Slot>, hs: map<Id, Hash>) {
    && ps != [] && NoDup(ps)
    && (forall p :: p in ps ==> p in hs && hs[p] == h && !InTable(es, p))
    && HasHash(es, hs, h)
  }

  ghost predicate PeersOk(peers: map<Hash, seq<Id>>, es: set<Slot>, hs: map<Id, Hash>) {
    forall h :: h in peers ==> BucketOk(h, peers[h], es, hs)
  }

  predicate IsPeer(peers: map<Hash, seq<Id>>, h: Hash, id: Id) {
    h in peers && id in peers[h]
  }

  /** Every live node is in its slot or among the peers of its hash. */
  ghost predicate Covered(peers: map<Hash, seq<Id>>, es: set<Slot>, hs: map<Id, Hash>) {
    forall id :: id in hs ==> InTable(es, id) || IsPeer(peers, hs[id], id)
  }

  /** All collision peers; a node is listed at most once, so its size is `collisionCount`. */
  ghost function PeerIds(peers: map<Hash, seq<Id>>): set<Id> {
    set h, k | h in peers && 0 <= k < |peers[h]| :: peers[h][k]
  }

  /** The whole index invariant about who is where. */
  ghost predicate IndexOk(peers: map<Hash, seq<Id>>, es: set<Slot>, hs: map<Id, Hash>, tags: map<Id, nat>) {
    EntriesOk(es, hs, tags) && PeersOk(peers, es, hs) && Covered(peers, es, hs)
  }

  // ---------------------------------------------------------------------------------------------
  // hashCount + collisionCount == len
  // ---------------------------------------------------------------------------------------------

  lemma {:induction false} InjectiveValues<A(!new), B>(m: map<A, B>)
    requires forall a, b :: a in m && b in m && a != b ==> m[a] != m[b]
    ensures |m.Values| == |m|
    decreases |m|
  {
    if m.Keys == {} {
      assert m.Values == {};
    } else {
      var a :| a in m;
      var m' := m - {a};
      InjectiveValues(m');
      forall v | v in m.Values
        ensures v in m'.Values + {m[a]}
      {
        var k :| k in m && m[k] == v;
        assert k == a || (k in m' && m'[k] == v);
      }
      forall v | v in m'.Values
        ensures v in m.Values && v != m[a]
      {
        var k :| k in m' && m'[k] == v;
        assert k in m && m[k] == v;
      }
      assert m.Values == m'.Values + {m[a]};
      assert m.Keys == m'.Keys + {a};
    }
  }

  ghost function SlotIds(t: Table): set<Id> {
    set i | 0 <= i < |t| && t[i].tag != 0 :: t[i].id
  }

  lemma SlotIdsCount(t: Table)
    requires Distinct(t)
    ensures |SlotIds(t)| == |OccSet(t)|
  {
    var m := map i | 0 <= i < |t| && t[i].tag != 0 :: t[i].id;
    forall i, j | i in m && j in m && i != j
      ensures m[i] != m[j]
    {
      assert Occ(t, i) && Occ(t, j);
    }
    InjectiveValues(m);
    forall v | v in SlotIds(t)
      ensures v in m.Values
    {
      var i :| 0 <= i < |t| && t[i].tag != 0 && t[i].id == v;
      assert i in m && m[i] == v;
    }
    assert m.Values == SlotIds(t);
    assert m.Keys == OccSet(t);
  }

  lemma PeerIdsIff(peers: map<Hash, seq<Id>>, id: Id)
    ensures id in PeerIds(peers) <==> exists h :: IsPeer(peers, h, id)
  {
    if h :| IsPeer(peers, h, id) {
      var k :| 0 <= k < |peers[h]| && peers[h][k] == id;
    }
    if id in PeerIds(peers) {
      var h, k :| h in peers && 0 <= k < |peers[h]| && peers[h][k] == id;
      assert IsPeer(peers, h, id);
    }
  }

  lemma SlotIdsIff(t: Table, id: Id)
    ensures id in SlotIds(t) <==> InTable(Entries(t), id)
  {
    if InTable(Entries(t), id) {
      var s :| s in Entries(t) && s.id == id;
      var i :| 0 <= i < |t| && t[i].tag != 0 && t[i] == s;
      assert t[i].id == id;
    }
    if id in SlotIds(t) {
      var i :| 0 <= i < |t| && t[i].tag != 0 && t[i].id == id;
      EntryAt(t, -1, i);
    }
  }

  lemma LiveIff(peers: map<Hash, seq<Id>>, t: Table, hs: map<Id, Hash>, tags: map<Id, nat>, id: Id)
    requires IndexOk(peers, Entries(t), hs, tags)
    ensures id in hs <==> id in SlotIds(t) || id in PeerIds(peers)
    ensures !(id in SlotIds(t) && id in PeerIds(peers))
  {
    SlotIdsIff(t, id);
    PeerIdsIff(peers, id);
    hide SlotIds, PeerIds;
    if h :| IsPeer(peers, h, id) {
      assert BucketOk(h, peers[h], Entries(t), hs);
    }
  }

  lemma DisjointSum(a: set<Id>, b: set<Id>, c: set<Id>)
    requires forall id :: id in c <==> id in a || id in b
    requires forall id :: !(id in a && id in b)
    ensures |a| + |b| == |c|
  {
    assert c == a + b && a !! b;
  }

  /** The counters of the table and of the peers together count every live node exactly once. */
  lemma CountsAddUp(peers: map<Hash, seq<Id>>, t: Table, hs: map<Id, Hash>, tags: map<Id, nat>)
    requires Distinct(t) && IndexOk(peers, Entries(t), hs, tags)
    ensures |OccSet(t)| + |PeerIds(peers)| == |hs|
  {
    hide *;
    SlotIdsCount(t);
    forall id
      ensures id in hs.Keys <==> id in SlotIds(t) || id in PeerIds(peers)
      ensures !(id in SlotIds(t) && id in PeerIds(peers))
    {
      LiveIff(peers, t, hs, tags, id);
    }
    DisjointSum(SlotIds(t), PeerIds(peers), hs.Keys);
  }

  // ---------------------------------------------------------------------------------------------
  // What the four kinds of update do to the invariant
  // ---------------------------------------------------------------------------------------------

  /** A new node with a hash that no slot has gets its own slot. */
  lemma AddSlot(peers: map<Hash, seq<Id>>, es: set<Slot>, hs: map<Id, Hash>, tags: map<Id, nat>, id: Id, h: Hash)
    requires IndexOk(peers, es, hs, tags) && id !in hs && !HasHash(es, hs, h)
    ensures var tag := Tag(h); IndexOk(peers, es + {Slot(tag, id)}, hs[id := h], tags[id := tag % TWO21])
  {
    var es', hs' := es + {Slot(Tag(h), id)}, hs[id := h];
    assert Slot(Tag(h), id) in es';
    forall h' | h' in peers
      ensures BucketOk(h', peers[h'], es', hs')
    {
      assert BucketOk(h', peers[h'], es, hs);
      var s :| s in es && s.id in hs && hs[s.id] == h';
      assert s in es' && hs'[s.id] == h';
    }
    forall x | x in hs'
      ensures InTable(es', x) || IsPeer(peers, hs'[x], x)
    {
      if x != id && InTable(es, x) {
        var s :| s in es && s.id == x;
        assert s in es';
      }
    }
  }

  /** A node whose hash has no peers leaves together with its slot. */
  lemma DropSlot(peers: map<Hash, seq<Id>>, es: set<Slot>, hs: map<Id, Hash>, tags: map<Id, nat>, s: Slot)
    requires IndexOk(peers, es, hs, tags) && s in es && hs[s.id] !in peers
    ensures IndexOk(peers, es - {s}, hs - {s.id}, tags)
  {
    var es', hs' := es - {s}, hs - {s.id};
    forall h' | h' in peers
      ensures BucketOk(h', peers[h'], es', hs')
    {
      assert BucketOk(h', peers[h'], es, hs);
      var r :| r in es && r.id in hs && hs[r.id] == h';
      assert r in es' && r.id in hs';
    }
    forall x | x in hs'
      ensures InTable(es', x) || IsPeer(peers, hs'[x], x)
    {
      if InTable(es, x) {
        var r :| r in es && r.id == x;
        assert r in es';
      }
    }
  }

  /** The peers of `h`, possibly none. */
  function Bucket(peers: map<Hash, seq<Id>>, h: Hash): seq<Id> {
    if h in peers then peers[h] else []
  }

  /** Store a bucket; an empty one is deleted. */
  function WithBucket(peers: map<Hash, seq<Id>>, h: Hash, ps: seq<Id>): map<Hash, seq<Id>> {
    if ps == [] then peers - {h} else peers[h := ps]
  }

  /** The live nodes may change only among those of hash `h`, which become the node of the new slot
      `s'` and the peers `ps`. */
  ghost predicate Regroups(es: set<Slot>, hs: map<Id, Hash>, h: Hash, s: Slot, s': Slot, ps: seq<Id>,
                           hs': map<Id, Hash>) {
    && s in es && s.id in hs && hs[s.id] == h && s'.tag == s.tag && s'.id in hs' && hs'[s'.id] == h
    && (forall x :: x in hs && hs[x] != h ==> x in hs' && hs'[x] == hs[x])
    && (forall x :: x in hs' && hs'[x] != h ==> x in hs && hs'[x] == hs[x])
    && (s'.id in hs ==> hs[s'.id] == h)
    && NoDup(ps) && s'.id !in ps
    && (forall x :: x in hs' && hs'[x] == h <==> x == s'.id || x in ps)
  }

  lemma RegroupEntries(es: set<Slot>, hs: map<Id, Hash>, tags: map<Id, nat>,
                       h: Hash, s: Slot, s': Slot, ps: seq<Id>, hs': map<Id, Hash>)
    requires EntriesOk(es, hs, tags) && Regroups(es, hs, h, s, s', ps, hs')
    ensures EntriesOk(es - {s} + {s'}, hs', tags[s'.id := s'.tag % TWO21])
  {
    assert SlotOk(s, hs, tags);
  }

  lemma RegroupPeers(peers: map<Hash, seq<Id>>, es: set<Slot>, hs: map<Id, Hash>, tags: map<Id, nat>,
                     h: Hash, s: Slot, s': Slot, ps: seq<Id>, hs': map<Id, Hash>)
    requires EntriesOk(es, hs, tags) && PeersOk(peers, es, hs) && Regroups(es, hs, h, s, s', ps, hs')
    ensures PeersOk(WithBucket(peers, h, ps), es - {s} + {s'}, hs')
  {
    var es' := es - {s} + {s'};
    var peers' := WithBucket(peers, h, ps);
    forall h' | h' in peers'
      ensures BucketOk(h', peers'[h'], es', hs')
    {
      if h' != h {
        assert BucketOk(h', peers[h'], es, hs);
        var r :| r in es && r.id in hs && hs[r.id] == h';
        assert r in es';
      } else {
        assert s' in es';
      }
    }
  }

  lemma RegroupCovered(peers: map<Hash, seq<Id>>, es: set<Slot>, hs: map<Id, Hash>,
                       h: Hash, s: Slot, s': Slot, ps: seq<Id>, hs': map<Id, Hash>)
    requires Covered(peers, es, hs) && Regroups(es, hs, h, s, s', ps, hs')
    ensures Covered(WithBucket(peers, h, ps), es - {s} + {s'}, hs')
  {
    var es' := es - {s} + {s'};
    assert s' in es';
    forall x | x in hs'
      ensures InTable(es', x) || IsPeer(WithBucket(peers, h, ps), hs'[x], x)
    {
      if hs'[x] != h && InTable(es, x) {
        var r :| r in es && r.id == x;
        assert r in es';
      }
    }
  }

  /** Giving the slot of one hash to another of its nodes, with a new bucket, keeps the invariant. */
  lemma Regroup(peers: map<Hash, seq<Id>>, es: set<Slot>, hs: map<Id, Hash>, tags: map<Id, nat>,
                h: Hash, s: Slot, s': Slot, ps: seq<Id>, hs': map<Id, Hash>)
    requires IndexOk(peers, es, hs, tags) && Regroups(es, hs, h, s, s', ps, hs')
    ensures IndexOk(WithBucket(peers, h, ps), es - {s} + {s'}, hs', tags[s'.id := s'.tag % TWO21])
  {
    hide EntriesOk, PeersOk, Covered, Regroups;
    RegroupEntries(es, hs, tags, h, s, s', ps, hs');
    RegroupPeers(peers, es, hs, tags, h, s, s', ps, hs');
    RegroupCovered(peers, es, hs, h, s, s', ps, hs');
  }

  /** The nodes of one hash: the one in the table and the peers. */
  lemma BucketMembers(peers: map<Hash, seq<Id>>, es: set<Slot>, hs: map<Id, Hash>, tags: map<Id, nat>, s: Slot)
    requires IndexOk(peers, es, hs, tags) && s in es
    ensures var ps := Bucket(peers, hs[s.id]);
            NoDup(ps) && s.id !in ps && forall x :: x in hs && hs[x] == hs[s.id] <==> x == s.id || x in ps
  {
    var h := hs[s.id];
    if h in peers {
      assert BucketOk(h, peers[h], es, hs);
    }
  }

  ghost function SetOf(ps: seq<Id>): set<Id> { set x | x in ps }

  /** How the set of all peers follows a bucket update. */
  lemma PeerIdsUpdate(peers: map<Hash, seq<Id>>, es: set<Slot>, hs: map<Id, Hash>, h: Hash, ps: seq<Id>)
    requires PeersOk(peers, es, hs)
    ensures PeerIds(WithBucket(peers, h, ps)) == (PeerIds(peers) - SetOf(Bucket(peers, h))) + SetOf(ps)
  {
    var peers' := WithBucket(peers, h, ps);
    forall x
      ensures x in PeerIds(peers') <==> x in (PeerIds(peers) - SetOf(Bucket(peers, h))) + SetOf(ps)
    {
      PeerIdsIff(peers, x);
      PeerIdsIff(peers', x);
      if h' :| IsPeer(peers, h', x) && h' != h {
        assert BucketOk(h', peers[h'], es, hs);
        assert IsPeer(peers', h', x);
        if h in peers { assert BucketOk(h, peers[h], es, hs); }
      }
      if x in ps { assert IsPeer(peers', h, x); }
      if h' :| IsPeer(peers', h', x) && h' != h { assert IsPeer(peers, h', x); }
    }
  }

  lemma {:induction false} NoDupCard(ps: seq<Id>)
    requires NoDup(ps)
    ensures |SetOf(ps)| == |ps|
  {
    if ps != [] {
      var n := |ps| - 1;
      NoDupCard(ps[..n]);
      assert ps == ps[..n] + [ps[n]];
      assert SetOf(ps) == SetOf(ps[..n]) + {ps[n]};
    }
  }

  lemma SetExchange(all: set<Id>, out: set<Id>, into: set<Id>)
    requires out <= all && into !! (all - out)
    ensures |(all - out) + into| == |all| - |out| + |into|
  {
    assert all == (all - out) + out;
  }

  /** `collisionCount` follows the length of the one bucket that changes. */
  lemma RegroupCount(peers: map<Hash, seq<Id>>, es: set<Slot>, hs: map<Id, Hash>, tags: map<Id, nat>,
                     h: Hash, s: Slot, s': Slot, ps: seq<Id>, hs': map<Id, Hash>)
    requires IndexOk(peers, es, hs, tags) && Regroups(es, hs, h, s, s', ps, hs')
    ensures |PeerIds(WithBucket(peers, h, ps))| == |PeerIds(peers)| - |Bucket(peers, h)| + |ps|
  {
    var ps0 := Bucket(peers, h);
    BucketMembers(peers, es, hs, tags, s);
    PeerIdsUpdate(peers, es, hs, h, ps);
    NoDupCard(ps0);
    NoDupCard(ps);
    var out, into := SetOf(ps0), SetOf(ps);
    forall x | x in PeerIds(peers)
      ensures x in out || x !in into
    {
      PeerIdsIff(peers, x);
      var h' :| IsPeer(peers, h', x);
      assert BucketOk(h', peers[h'], es, hs);
    }
    forall x | x in out
      ensures x in PeerIds(peers)
    {
      assert IsPeer(peers, h, x);
      PeerIdsIff(peers, x);
    }
    SetExchange(PeerIds(peers), out, into);
  }

  // ---------------------------------------------------------------------------------------------
  // Scanning a probe chain
  // ---------------------------------------------------------------------------------------------

  /** Position `j` has been passed by a scan from `h` that is now at `idx`. */
  predicate Passed(t: Table, h: int, idx: int, j: int) {
    0 <= j < |t| && Dist(h, j, |t|) < Dist(h, idx, |t|)
  }

  /** slotBelongsToOtherHash: the same 32-bit tag, but a live node with another 64-bit hash. */
  predicate OtherHash(s: Slot, hs: map<Id, Hash>, h: Hash) {
    s.id in hs && hs[s.id] != h && Tag(hs[s.id]) == s.tag
  }

  /** No position passed so far is empty or belongs to `key`. */
  ghost predicate NotSeen(t: Table, keys: map<Id, Bytes>, h: int, idx: int, key: Bytes) {
    forall j :: Passed(t, h, idx, j) ==> t[j].tag != 0 && !(t[j].id in keys && keys[t[j].id] == key)
  }

  /** Some position passed so far belongs to a live node with hash `hk`. */
  ghost predicate SeenHash(t: Table, hs: map<Id, Hash>, h: int, idx: int, hk: Hash) {
    exists j :: Passed(t, h, idx, j) && t[j].id in hs && hs[t[j].id] == hk
  }

  lemma PassOne(t: Table, h: int, idx: int, j: int)
    requires 0 <= h < |t| && 0 <= idx < |t| && Next(idx, |t|) != h
    ensures Passed(t, h, Next(idx, |t|), j) <==> Passed(t, h, idx, j) || j == idx
  {
  }

  lemma ScanStep(t: Table, keys: map<Id, Bytes>, hs: map<Id, Hash>, h: int, idx: int, key: Bytes, hk: Hash)
    requires 0 <= h < |t| && 0 <= idx < |t| && Next(idx, |t|) != h
    requires NotSeen(t, keys, h, idx, key) && t[idx].tag != 0 && !(t[idx].id in keys && keys[t[idx].id] == key)
    ensures NotSeen(t, keys, h, Next(idx, |t|), key)
    ensures SeenHash(t, hs, h, Next(idx, |t|), hk) <==>
            SeenHash(t, hs, h, idx, hk) || (t[idx].id in hs && hs[t[idx].id] == hk)
  {
    forall j ensures Passed(t, h, Next(idx, |t|), j) <==> Passed(t, h, idx, j) || j == idx {
      PassOne(t, h, idx, j);
    }
    if SeenHash(t, hs, h, idx, hk) {
      var j :| Passed(t, h, idx, j) && t[j].id in hs && hs[t[j].id] == hk;
      assert Passed(t, h, Next(idx, |t|), j);
    }
    if t[idx].id in hs && hs[t[idx].id] == hk {
      assert Passed(t, h, Next(idx, |t|), idx);
    }
  }

  /** An empty slot ends the scan: everything with that hash has been passed. */
  lemma HashPassed(t: Table, hs: map<Id, Hash>, tags: map<Id, nat>, idx: int, hk: Hash, j: int)
    requires Chained(t) && EntriesOk(Entries(t), hs, tags) && 0 <= idx < |t| && t[idx].tag == 0
    requires Occ(t, j)
    ensures SlotOk(t[j], hs, tags)
    ensures hs[t[j].id] == hk ==> Passed(t, Home(Tag(hk), |t|), idx, j)
  {
    EntryAt(t, -1, j);
    if hs[t[j].id] == hk {
      NothingBehindEmpty(t, Tag(hk), idx, j);
    }
  }

  lemma ScanEnd(t: Table, keys: map<Id, Bytes>, hs: map<Id, Hash>, tags: map<Id, nat>, idx: int, key: Bytes, hk: Hash)
    requires Chained(t) && EntriesOk(Entries(t), hs, tags)
    requires hs.Keys == keys.Keys && 0 <= idx < |t| && t[idx].tag == 0
    requires forall id :: id in keys && keys[id] == key ==> hs[id] == hk
    requires NotSeen(t, keys, Home(Tag(hk), |t|), idx, key)
    ensures forall s :: s in Entries(t) ==> s.id in keys && keys[s.id] != key
    ensures SeenHash(t, hs, Home(Tag(hk), |t|), idx, hk) <==> HasHash(Entries(t), hs, hk)
  {
    var h := Home(Tag(hk), |t|);
    forall s | s in Entries(t)
      ensures s.id in keys && keys[s.id] != key
      ensures hs[s.id] == hk ==> SeenHash(t, hs, h, idx, hk)
    {
      var j :| 0 <= j < |t| && t[j].tag != 0 && t[j] == s;
      HashPassed(t, hs, tags, idx, hk, j);
    }
    if SeenHash(t, hs, h, idx, hk) {
      var j :| Passed(t, h, idx, j) && t[j].id in hs && hs[t[j].id] == hk;
      EntryAt(t, -1, j);
    }
  }

  // ---------------------------------------------------------------------------------------------
  // The index
  // ---------------------------------------------------------------------------------------------

  /** The keys and their hashes: distinct nodes spell distinct keys. */
  ghost predicate KeysAgree(hash: Bytes -> Hash, keys: map<Id, Bytes>, hashes: map<Id, Hash>) {
    && hashes.Keys == keys.Keys
    && (forall id :: id in keys ==> hashes[id] == hash(keys[id]))
    && (forall a, b :: a in keys && b in keys && a != b ==> keys[a] != keys[b])
  }

  lemma KeysAgreeAdd(hash: Bytes -> Hash, keys: map<Id, Bytes>, hashes: map<Id, Hash>, id: Id, key: Bytes)
    requires KeysAgree(hash, keys, hashes) && forall x :: x in keys ==> keys[x] != key
    ensures KeysAgree(hash, keys[id := key], hashes[id := hash(key)]) && hashes.Keys == keys.Keys
  {
  }

  lemma SameCount(hash: Bytes -> Hash, keys: map<Id, Bytes>, hashes: map<Id, Hash>)
    requires KeysAgree(hash, keys, hashes)
    ensures |hashes| == |keys|
  {
    assert |hashes| == |hashes.Keys| && |keys| == |keys.Keys|;
  }

  lemma KeysAgreeDrop(hash: Bytes -> Hash, keys: map<Id, Bytes>, hashes: map<Id, Hash>, id: Id)
    requires KeysAgree(hash, keys, hashes)
    ensures KeysAgree(hash, keys - {id}, hashes - {id}) && hashes.Keys == keys.Keys
  {
  }

  class Index {
    const hash: Bytes -> Hash            // maphash with the cache's seed
    var slots: Table                     // hashSlots
    var count: nat                       // hashCount
    var peers: map<Hash, seq<Id>>        // collisionPeers
    var peerCount: nat                   // collisionCount
    var tags: map<Id, nat>               // the 21-bit tag kept in each node
    ghost var keys: map<Id, Bytes>       // live nodes and the keys they spell
    var hashes: map<Id, Hash>            // hashNodeKey of each live node

    ghost predicate TableOk()
      reads this
    {
      && MIN_CAP <= |slots| && (exists k: nat :: |slots| == Pow2(k))
      && Chained(slots) && Distinct(slots)
      && count == |OccSet(slots)| && Loaded(count, |slots|)
    }

    ghost predicate Valid()
      reads this
    {
      KeysAgree(hash, keys, hashes) && TableOk() && IndexOk(peers, Entries(slots), hashes, tags)
        && peerCount == |PeerIds(peers)|
    }

    /** The nodes spell the keys of the index. */
    ghost predicate Reads(ns: RT.Nodes, pt: RT.Paths)
      reads this`keys
    {
      TS.Spelled(ns, pt) && TK.KeyLensOk(ns, pt) && forall id :: id in keys ==> id in pt && pt[id] == keys[id]
    }

    constructor (h: Bytes -> Hash)
      ensures Valid() && keys == map[] && hash == h
    {
      hash := h;
      slots := seq(MIN_CAP, _ => EMPTY);
      count, peers, peerCount, tags, keys, hashes := 0, map[], 0, map[], map[], map[];
      new;
      assert Pow2(4) == MIN_CAP;
      EmptyTable(slots);
      assert PeerIds(peers) == {};
    }

    /** The shortcut in every lookup tests exactly this. */
    lemma Total()
      requires Valid()
      ensures count + peerCount == |keys|
    {
      CountsAddUp(peers, slots, hashes, tags);
      assert |hashes| == |hashes.Keys| && |keys| == |keys.Keys|;
    }

    lemma SlotFacts(i: int)
      requires Valid() && 0 <= i < |slots| && slots[i].tag != 0
      ensures Occ(slots, i) && slots[i] in Entries(slots) && SlotOk(slots[i], hashes, tags) && slots[i].id in keys
    {
      EntryAt(slots, -1, i);
    }

    /** lookupHashSlotAt: scan the probe chain of the key's tag. */
    method LookupAt(key: Bytes, ns: RT.Nodes, ghost pt: RT.Paths)
      returns (id: Id, idx: nat, matched: bool, verified: bool)
      requires Valid() && Reads(ns, pt)
      ensures verified ==> Occ(slots, idx) && slots[idx].id == id && id in keys && keys[id] == key
      ensures !verified ==> forall s :: s in Entries(slots) ==> s.id in keys && keys[s.id] != key
      ensures !verified ==> (matched <==> HasHash(Entries(slots), hashes, hash(key)))
    {
      hide IndexOk, Chained, DistinctBut, TS.Spelled, TK.KeyLensOk;
      var n := |slots|;
      var tag := Tag(hash(key));
      var h := Home(tag, n);
      ghost var e := EmptySlotExists(slots, count);
      idx, matched, verified, id := h, false, false, 0;
      while slots[idx].tag != 0
        invariant idx < n && Dist(h, idx, n) <= Dist(h, e, n)
        invariant NotSeen(slots, keys, h, idx, key)
        invariant matched <==> SeenHash(slots, hashes, h, idx, hash(key))
        decreases Dist(h, e, n) - Dist(h, idx, n)
      {
        var slot := slots[idx];
        SlotFacts(idx);
        if slot.tag == tag {
          var same := TK.VerifyKey(ns, pt, slot.id, key);
          if same {
            return slot.id, idx, true, true;
          }
          if !OtherHash(slot, hashes, hash(key)) {
            matched := true;
          }
        }
        ScanStep(slots, keys, hashes, h, idx, key, hash(key));
        idx := Next(idx, n);
      }
      EntriesFacts();
      ScanEnd(slots, keys, hashes, tags, idx, key, hash(key));
    }

    lemma EntriesFacts()
      requires Valid()
      ensures EntriesOk(Entries(slots), hashes, tags) && PeersOk(peers, Entries(slots), hashes)
      ensures Covered(peers, Entries(slots), hashes)
    {
    }

    /** The part of every lookup before the walk of the trie.  The shortcut is taken exactly when no live key has
        the hash, and then the key is not there; a walk is needed exactly when another key took the slot. */
    method Probe(key: Bytes, len: nat, ns: RT.Nodes, ghost pt: RT.Paths) returns (hit: Option<Id>, missed: bool)
      requires Valid() && Reads(ns, pt) && len == |keys|
      ensures hit.Some? ==> hit.value in keys && keys[hit.value] == key && !missed
      ensures missed <==> !HasHash(Entries(slots), hashes, hash(key))
      ensures missed ==> forall id :: id in keys ==> keys[id] != key
    {
      hide IndexOk, TableOk, PeerIds;
      Total();
      var id, idx, matched, verified := LookupAt(key, ns, pt);
      if verified {
        PresentHash(id);
        return Some(id), false;
      }
      hit, missed := None, !matched && count + peerCount == len;
      if missed {
        AbsentKey(key);
      }
    }

    /** The hash of every live node has a slot. */
    lemma PresentHash(id: Id)
      requires Valid() && id in keys
      ensures HasHash(Entries(slots), hashes, hashes[id])
    {
      if IsPeer(peers, hashes[id], id) {
        assert BucketOk(hashes[id], peers[hashes[id]], Entries(slots), hashes);
      } else {
        var s :| s in Entries(slots) && s.id == id;
      }
    }

    /** A hash without a slot has no live node at all. */
    lemma AbsentKey(key: Bytes)
      requires Valid() && !HasHash(Entries(slots), hashes, hash(key))
      ensures forall id :: id in keys ==> keys[id] != key
    {
      forall id | id in keys
        ensures hashes[id] != hash(key)
      {
        PresentHash(id);
      }
    }

    /** findHashSlotIndex, and the scans of promoteCollisionPeerLocked and
        removeOrPromoteNodeMapLocked: the slot of a hash, if there is one. */
    method FindSlot(hk: Hash) returns (idx: nat, found: bool)
      requires Valid()
      ensures found ==>
                && Occ(slots, idx) && slots[idx] in Entries(slots) && slots[idx].id in hashes
                && hashes[slots[idx].id] == hk
      ensures !found ==> !HasHash(Entries(slots), hashes, hk)
    {
      hide IndexOk, Chained, DistinctBut;
      var n := |slots|;
      var tag := Tag(hk);
      var h := Home(tag, n);
      ghost var e := EmptySlotExists(slots, count);
      idx := h;
      while slots[idx].tag != 0
        invariant idx < n && Dist(h, idx, n) <= Dist(h, e, n)
        invariant forall j :: Passed(slots, h, idx, j) ==> slots[j].tag != 0
        invariant !SeenHash(slots, hashes, h, idx, hk)
        decreases Dist(h, e, n) - Dist(h, idx, n)
      {
        SlotFacts(idx);
        if slots[idx].tag == tag && !OtherHash(slots[idx], hashes, hk) {
          return idx, true;
        }
        forall j ensures Passed(slots, h, Next(idx, n), j) <==> Passed(slots, h, idx, j) || j == idx {
          PassOne(slots, h, idx, j);
        }
        idx := Next(idx, n);
      }
      EntriesFacts();
      if HasHash(Entries(slots), hashes, hk) {
        var s :| s in Entries(slots) && s.id in hashes && hashes[s.id] == hk;
        var j :| 0 <= j < n && slots[j].tag != 0 && slots[j] == s;
        HashPassed(slots, hashes, tags, idx, hk, j);
        assert false;
      }
      found := false;
    }

    /** resizeHashSlotsLocked. */
    method Resize(cap: nat)
      requires Valid() && MIN_CAP <= cap && Loaded(count, cap) && exists k: nat :: cap == Pow2(k)
      modifies this`slots
      ensures Valid() && |slots| == cap && Entries(slots) == old(Entries(slots))
    {
      hide IndexOk, Chained, EntriesBut;
      RenamedNone(Entries(slots));
      slots := Rehash(slots, cap, map[]);
    }

    /** Grow before an insertion would break the load rule. */
    method EnsureRoom()
      requires Valid()
      modifies this`slots
      ensures Valid() && Loaded(count + 1, |slots|) && Entries(slots) == old(Entries(slots))
    {
      hide IndexOk, EntriesBut, Chained;
      if (count + 1) * 5 > |slots| * 4 {
        Resize(CapFor(count + 1));
      }
    }

    /** insertNewHashSlotLocked, and nodeMapSet for a hash without a slot. */
    method InsertNew(h: Hash, id: Id, ghost key: Bytes)
      requires Valid() && id !in keys && (forall x :: x in keys ==> keys[x] != key) && h == hash(key)
      requires !HasHash(Entries(slots), hashes, h)
      modifies this
      ensures Valid() && keys == old(keys)[id := key] && InTable(Entries(slots), id)
    {
      hide Chained, DistinctBut, IndexOk, EntriesBut, HasHash, PeerIds, KeysAgree;
      var tag := Tag(h);
      EnsureRoom();
      KeysAgreeAdd(hash, keys, hashes, id, key);
      AddSlot(peers, Entries(slots), hashes, tags, id, h);
      NotInTable(id);
      slots := Place(slots, Slot(tag, id));
      tags := tags[id := tag % TWO21];
      count := count + 1;
      keys := keys[id := key];
      hashes := hashes[id := h];
      assert Slot(tag, id) in Entries(slots);
    }

    lemma NotInTable(id: Id)
      requires Valid() && (id in keys ==> !InTable(Entries(slots), id))
      ensures forall k :: Occ(slots, k) ==> slots[k].id != id
    {
      forall k | Occ(slots, k)
        ensures slots[k].id != id
      {
        SlotFacts(k);
      }
    }

    /** The live nodes of a slot's hash. */
    lemma GroupOf(idx: nat)
      requires Valid() && Occ(slots, idx)
      ensures slots[idx] in Entries(slots) && slots[idx].id in hashes
      ensures var h := hashes[slots[idx].id]; Group(Entries(slots), hashes, h, slots[idx], Bucket(peers, h))
    {
      SlotFacts(idx);
      BucketMembers(peers, Entries(slots), hashes, tags, slots[idx]);
    }

    /** No other slot names a node of this slot's hash. */
    lemma OnlySlotOf(idx: nat, id: Id)
      requires Valid() && Occ(slots, idx) && slots[idx].id in hashes
      requires id in keys ==> hashes[id] == hashes[slots[idx].id]
      ensures forall k :: Occ(slots, k) && k != idx ==> slots[k].id != id
    {
      SlotFacts(idx);
      forall k | Occ(slots, k) && k != idx
        ensures slots[k].id != id
      {
        SlotFacts(k);
        assert slots[k].id != slots[idx].id;
      }
    }

    /** Give slot `idx` to node `id` with a new bucket of peers: the common part of all updates of an
        occupied slot. */
    method Reassign(idx: nat, id: Id, ps: seq<Id>, total: nat, ghost newKeys: map<Id, Bytes>, newHashes: map<Id, Hash>)
      requires Valid() && Occ(slots, idx) && slots[idx].id in hashes
      requires Regroups(Entries(slots), hashes, hashes[slots[idx].id], slots[idx], Slot(slots[idx].tag, id), ps,
                        newHashes)
      requires forall k :: Occ(slots, k) && k != idx ==> slots[k].id != id
      requires total == peerCount - |Bucket(peers, hashes[slots[idx].id])| + |ps|
      requires KeysAgree(hash, newKeys, newHashes)
      modifies this
      ensures Valid() && keys == newKeys
      ensures Entries(slots) == old(Entries(slots)) - {old(slots[idx])} + {Slot(old(slots[idx].tag), id)}
    {
      hide Chained, DistinctBut, EntriesBut, PeerIds, KeysAgree, Regroups, IndexOk, OccSet, Bucket, WithBucket;
      var s := slots[idx];
      var s' := Slot(s.tag, id);
      var h := hashes[s.id];
      SwapNode(slots, idx, id);
      Regroup(peers, Entries(slots), hashes, tags, h, s, s', ps, newHashes);
      RegroupCount(peers, Entries(slots), hashes, tags, h, s, s', ps, newHashes);
      slots := slots[idx := s'];
      tags := tags[id := s.tag % TWO21];
      peers := WithBucket(peers, h, ps);
      hashes := newHashes;
      keys := newKeys;
      peerCount := total;
    }

    /** promoteNodeIntoHashSlotAtLocked: node `id` takes over an occupied slot of its hash; the
        displaced node becomes a peer, in the place of `id` if `id` was one. */
    method Displace(idx: nat, h: Hash, id: Id, ghost key: Bytes)
      requires Valid() && Occ(slots, idx) && slots[idx].id in hashes && hashes[slots[idx].id] == h == hash(key)
      requires slots[idx].id != id
      requires if id in keys then keys[id] == key else forall x :: x in keys ==> keys[x] != key
      modifies this
      ensures Valid() && keys == old(keys)[id := key] && InTable(Entries(slots), id)
    {
      hide Chained, DistinctBut, EntriesBut, PeerIds, Regroups, IndexOk, OccSet;
      var s := slots[idx];
      var ps := Bucket(peers, h);
      GroupOf(idx);
      OnlySlotOf(idx, id);
      var k := IndexOf(ps, id);
      ghost var s' := Slot(s.tag, id);
      if k < |ps| {
        RegroupsSwap(Entries(slots), hashes, h, s, s', ps, k);
        assert keys[id := key] == keys;
        Reassign(idx, id, ps[k := s.id], peerCount, keys, hashes);
      } else {
        RegroupsPush(Entries(slots), hashes, h, s, s', ps);
        KeysAgreeAdd(hash, keys, hashes, id, key);
        Reassign(idx, id, ps + [s.id], peerCount + 1, keys[id := key], hashes[id := h]);
      }
      assert s' in Entries(slots);
    }

    /** promoteCollisionPeerLocked: put a live or just inserted node into the slot of its hash. */
    method Promote(h: Hash, id: Id, ghost key: Bytes)
      requires Valid() && h == hash(key)
      requires if id in keys then keys[id] == key else forall x :: x in keys ==> keys[x] != key
      modifies this
      ensures Valid() && keys == old(keys)[id := key] && InTable(Entries(slots), id)
    {
      hide IndexOk, EntriesBut;
      if id in keys {
        PresentHash(id);
      }
      var idx, found := FindSlot(h);
      if !found {
        InsertNew(h, id, key);
      } else if slots[idx].id == id {
        assert keys[id := key] == keys;
      } else {
        Displace(idx, h, id, key);
      }
    }

    /** removeCollisionPeerLocked, for a peer that leaves the cache. */
    method RemovePeer(idx: nat, id: Id)
      requires Valid() && Occ(slots, idx) && slots[idx].id in hashes && slots[idx].id != id
      requires id in keys && hashes[id] == hashes[slots[idx].id]
      modifies this
      ensures Valid() && keys == old(keys) - {id}
    {
      hide Chained, DistinctBut, EntriesBut, PeerIds, Regroups, IndexOk, OccSet;
      var h := hashes[id];
      var ps := Bucket(peers, h);
      GroupOf(idx);
      var k := IndexOf(ps, id);
      var ps' := ps[..k] + ps[k + 1..];
      var s := slots[idx];
      SlotFacts(idx);
      RegroupsDrop(Entries(slots), hashes, h, s, ps, k);
      KeysAgreeDrop(hash, keys, hashes, id);
      Regroup(peers, Entries(slots), hashes, tags, h, s, s, ps', hashes - {id});
      RegroupCount(peers, Entries(slots), hashes, tags, h, s, s, ps', hashes - {id});
      assert Entries(slots) - {s} + {s} == Entries(slots);
      assert tags[s.id := s.tag % TWO21] == tags;
      peers := WithBucket(peers, h, ps');
      peerCount := peerCount - 1;
      keys := keys - {id};
      hashes := hashes - {id};
    }

    /** The peer is live, has hash `h` and is not the node that leaves. */
    predicate Usable(h: Hash, excluded: Id, p: Id)
      reads this
    {
      p != excluded && p in hashes && hashes[p] == h
    }

    /** popValidCollisionPeerLocked: the last usable peer of `h`, skipping stale ones. */
    method PopPeer(h: Hash, excluded: Id) returns (k: nat, left: nat, found: bool)
      ensures var ps := Bucket(peers, h);
              if found then
                && k < |ps| && Usable(h, excluded, ps[k])
                && left == (if peerCount < |ps| - k then 0 else peerCount - (|ps| - k))
              else k == 0
      ensures forall i :: k < i < |Bucket(peers, h)| ==> !Usable(h, excluded, Bucket(peers, h)[i])
      ensures !found && Bucket(peers, h) != [] ==> !Usable(h, excluded, Bucket(peers, h)[0])
    {
      var ps := Bucket(peers, h);
      k, left := |ps|, peerCount;
      while k > 0
        invariant k <= |ps| && left == (if peerCount < |ps| - k then 0 else peerCount - (|ps| - k))
        invariant forall i :: k <= i < |ps| ==> !Usable(h, excluded, ps[i])
      {
        k := k - 1;
        if left > 0 {
          left := left - 1;
        }
        if Usable(h, excluded, ps[k]) {
          return k, left, true;
        }
      }
      found := false;
    }

    /** Under the invariant the last peer is always usable. */
    lemma LastUsable(idx: nat)
      requires Valid() && Occ(slots, idx) && slots[idx].id in hashes
      ensures var h := hashes[slots[idx].id]; var ps := Bucket(peers, h);
              && (h in peers ==> ps != [] && Usable(h, slots[idx].id, ps[|ps| - 1]))
              && |ps| <= peerCount
    {
      GroupOf(idx);
      var h := hashes[slots[idx].id];
      var ps := Bucket(peers, h);
      if h in peers {
        assert BucketOk(h, peers[h], Entries(slots), hashes);
        assert ps[|ps| - 1] in ps;
      }
      NoDupCard(ps);
      forall x | x in SetOf(ps)
        ensures x in PeerIds(peers)
      {
        assert IsPeer(peers, h, x);
        PeerIdsIff(peers, x);
      }
      assert PeerIds(peers) == SetOf(ps) + (PeerIds(peers) - SetOf(ps));
    }

    /** removeOrPromoteHashSlotAtLocked: the node of slot `idx` leaves the cache. */
    method RemoveAt(idx: nat)
      requires Valid() && Occ(slots, idx)
      modifies this
      ensures Valid() && keys == old(keys) - {old(slots[idx].id)}
    {
      hide Chained, DistinctBut, EntriesBut, PeerIds, Regroups, IndexOk, OccSet, KeysAgree;
      var s := slots[idx];
      GroupOf(idx);
      KeysAgreeDrop(hash, keys, hashes, s.id);
      var h := hashes[s.id];
      LastUsable(idx);
      var k, left, found := PopPeer(h, s.id);
      if found {
        var ps := peers[h];
        RegroupsPop(Entries(slots), hashes, h, s, Slot(s.tag, ps[k]), ps);
        OnlySlotOf(idx, ps[k]);
        Reassign(idx, ps[k], ps[..k], left, keys - {s.id}, hashes - {s.id});
      } else {
        DropSlot(peers, Entries(slots), hashes, tags, s);
        slots := Backshift(slots, idx, count);
        count := count - 1;
        keys := keys - {s.id};
        hashes := hashes - {s.id};
      }
    }

    /** removeOrPromoteNodeMapLocked: a live node leaves the cache. */
    method Remove(id: Id)
      requires Valid() && id in keys
      modifies this
      ensures Valid() && keys == old(keys) - {id}
    {
      hide IndexOk, EntriesBut;
      PresentHash(id);
      var idx, found := FindSlot(hashes[id]);
      if slots[idx].id == id {
        RemoveAt(idx);
      } else {
        RemovePeer(idx, id);
      }
    }

    /** Without collision peers, and with at most 2^21 slots, the chain of the 21-bit tag kept in the
        node leads to the node's own slot, and to no other slot of that node before it. */
    lemma FastProbeHits(id: Id) returns (p: nat)
      requires Valid() && id in keys && peerCount == 0 && |slots| <= TWO21
      ensures id in tags && Occ(slots, p) && slots[p].id == id && slots[p].tag % TWO21 == tags[id]
      ensures var h := Home(tags[id], |slots|);
              forall j :: 0 <= j < |slots| && Dist(h, j, |slots|) < Dist(h, p, |slots|) ==>
                  Occ(slots, j) && slots[j].id != id
    {
      assert PeerIds(peers) == {};
      PeerIdsIff(peers, id);
      assert !IsPeer(peers, hashes[id], id);
      var s :| s in Entries(slots) && s.id == id;
      p :| 0 <= p < |slots| && slots[p].tag != 0 && slots[p] == s;
      SlotFacts(p);
      var k: nat :| |slots| == Pow2(k);
      SmallPow2(k);
      HomeOfTag21(s.tag, k);
      var h := Home(tags[id], |slots|);
      forall j | 0 <= j < |slots| && Dist(h, j, |slots|) < Dist(h, p, |slots|)
        ensures Occ(slots, j) && slots[j].id != id
      {
        assert OnPath(slots, p, j);
      }
    }

    /** deleteNodeFromHashSlotsFastLocked: delete by the 21-bit tag, without hashing the key. */
    method RemoveFast(id: Id) returns (ok: bool)
      requires Valid() && id in keys && peerCount == 0 && |slots| <= TWO21
      modifies this
      ensures Valid()
      ensures ok ==> keys == old(keys) - {id}
      ensures !ok ==> unchanged(this)
      ensures ok || old(id in tags && tags[id] == 0)
    {
      hide IndexOk, EntriesBut, Chained, DistinctBut, KeysAgree, PeerIds;
      ghost var p := FastProbeHits(id);
      if tags[id] == 0 {
        return false;
      }
      var idx := ScanFast(slots, id, tags[id], p);
      RemoveAt(idx);
      ok := true;
    }

    /** rebuildHashSlotsLocked: index all live nodes again, in the order of their numbers. */
    method Rebuild(order: seq<Id>)
      requires KeysAgree(hash, keys, hashes) && NoDup(order) && SetOf(order) == keys.Keys
      modifies this
      ensures Valid() && keys == old(keys)
    {
      ghost var ks := keys;
      var hs := hashes;
      Reset(CapFor(|hashes|));
      for i := 0 to |order|
        invariant Valid() && keys == Only(ks, order[..i]) && KeysAgree(hash, ks, hs)
      {
        hide IndexOk, EntriesBut, Chained, DistinctBut, PeerIds;
        assert order[i] in SetOf(order);
        OnlyNext(ks, order, i);
        Promote(hs[order[i]], order[i], ks[order[i]]);
      }
      assert order[..|order|] == order;
      OnlyAll(ks, order);
    }

    /** compactHashSlotsLocked after the nodes have been renumbered by `ren`: remap in place, rehash
        into a table of the right size, or rebuild when there are collisions.  `order` lists the new
        numbers of the live nodes. */
    method Renumber(ren: map<Id, Id>, order: seq<Id>)
      requires Valid() && keys.Keys <= ren.Keys && Injective(ren)
      requires NoDup(order) && SetOf(order) == Relabel(keys, ren).Keys
      modifies this
      ensures Valid() && keys == Relabel(old(keys), ren)
    {
      hide IndexOk, EntriesBut, Chained, DistinctBut, OccSet, PeerIds, KeysAgree, Relabel;
      SameCount(hash, keys, hashes);
      if peerCount != 0 || count != |hashes| {
        KeysAgreeRelabel(hash, keys, hashes, ren);
        keys, hashes := Relabel(keys, ren), Relabel(hashes, ren);
        Rebuild(order);
      } else {
        Remap(ren);
      }
    }

    /** The branches of the compaction that only move entries around. */
    method Remap(ren: map<Id, Id>)
      requires Valid() && keys.Keys <= ren.Keys && Injective(ren) && peerCount == 0 && count == |keys|
      modifies this
      ensures Valid() && keys == Relabel(old(keys), ren)
    {
      hide IndexOk, EntriesBut, Chained, DistinctBut, OccSet, KeysAgree, Relabel;
      KeysAgreeRelabel(hash, keys, hashes, ren);
      assert PeerIds(peers) == {};
      IndexOkRelabel(peers, Entries(slots), hashes, tags, ren);
      SameCount(hash, keys, hashes);
      var cap := CapFor(|hashes|);
      if |slots| == cap {
        slots := RemapInPlace(slots, ren);
      } else {
        slots := Rehash(slots, cap, ren);
      }
      keys, hashes, tags := Relabel(keys, ren), Relabel(hashes, ren), Relabel(tags, ren);
    }

    /** An empty index of the given capacity. */
    method Reset(cap: nat)
      requires MIN_CAP <= cap && exists k: nat :: cap == Pow2(k)
      modifies this
      ensures Valid() && keys == map[] && |slots| == cap
    {
      slots := seq(cap, _ => EMPTY);
      count, peers, peerCount, tags, keys, hashes := 0, map[], 0, map[], map[], map[];
      EmptyTable(slots);
      assert PeerIds(peers) == {};
    }
  }

  ghost predicate Injective(ren: map<Id, Id>) {
    forall a, b :: a in ren && b in ren && a != b ==> ren[a] != ren[b]
  }

  /** The same table under new node numbers; nodes without a new number are gone. */
  function Relabel<T>(m: map<Id, T>, ren: map<Id, Id>): map<Id, T>
    requires forall a, b :: a in ren && b in ren && a != b ==> ren[a] != ren[b]
  {
    map x | x in m && x in ren :: ren[x] := m[x]
  }

  lemma RelabelAt<T>(m: map<Id, T>, ren: map<Id, Id>, x: Id)
    requires Injective(ren) && x in m && x in ren
    ensures ren[x] in Relabel(m, ren) && Relabel(m, ren)[ren[x]] == m[x]
  {
  }

  lemma KeysAgreeRelabel(hash: Bytes -> Hash, keys: map<Id, Bytes>, hashes: map<Id, Hash>, ren: map<Id, Id>)
    requires KeysAgree(hash, keys, hashes) && Injective(ren)
    ensures KeysAgree(hash, Relabel(keys, ren), Relabel(hashes, ren)) && hashes.Keys == keys.Keys
  {
    var ks, hs := Relabel(keys, ren), Relabel(hashes, ren);
    forall y | y in ks
      ensures y in hs && hs[y] == hash(ks[y])
    {
      var x :| x in keys && x in ren && ren[x] == y;
      RelabelAt(keys, ren, x);
      RelabelAt(hashes, ren, x);
    }
  }

  lemma NoBuckets(peers: map<Hash, seq<Id>>, es: set<Slot>, hs: map<Id, Hash>)
    requires PeersOk(peers, es, hs)
    ensures PeerIds(peers) == {} ==> peers == map[]
  {
    if peers != map[] {
      var h :| h in peers;
      assert BucketOk(h, peers[h], es, hs);
      assert peers[h][0] in PeerIds(peers);
    }
  }

  /** With no peers, renumbering all live nodes keeps the invariant. */
  lemma IndexOkRelabel(peers: map<Hash, seq<Id>>, es: set<Slot>, hs: map<Id, Hash>, tags: map<Id, nat>,
                       ren: map<Id, Id>)
    requires IndexOk(peers, es, hs, tags) && hs.Keys <= ren.Keys && Injective(ren) && PeerIds(peers) == {}
    ensures peers == map[] && KeepsApart(es, ren)
    ensures IndexOk(map[], RenamedAll(es, ren), Relabel(hs, ren), Relabel(tags, ren))
  {
    var es', hs', tags' := RenamedAll(es, ren), Relabel(hs, ren), Relabel(tags, ren);
    NoBuckets(peers, es, hs);
    forall s' | s' in es'
      ensures SlotOk(s', hs', tags')
    {
      var s :| s in es && Renamed(s, ren) == s';
      RelabelAt(hs, ren, s.id);
      RelabelAt(tags, ren, s.id);
    }
    forall a', b' | a' in es' && b' in es' && a' != b'
      ensures hs'[a'.id] != hs'[b'.id]
    {
      var a :| a in es && Renamed(a, ren) == a';
      var b :| b in es && Renamed(b, ren) == b';
      RelabelAt(hs, ren, a.id);
      RelabelAt(hs, ren, b.id);
    }
    forall y | y in hs'
      ensures InTable(es', y)
    {
      var x :| x in hs && x in ren && ren[x] == y;
      var s :| s in es && s.id == x;
      assert Renamed(s, ren) in es';
    }
  }

  /** The in-place branch of the compaction: every occupied slot gets the new node number. */
  method RemapInPlace(t: Table, ren: map<Id, Id>) returns (t': Table)
    requires Chained(t) && Distinct(t) && KeepsApart(Entries(t), ren)
    ensures |t'| == |t| && Chained(t') && Distinct(t') && |OccSet(t')| == |OccSet(t)|
    ensures Entries(t') == RenamedAll(Entries(t), ren)
  {
    t' := t;
    for i := 0 to |t|
      invariant |t'| == |t|
      invariant forall j :: 0 <= j < |t| ==> t'[j] == if j < i && t[j].tag != 0 then Renamed(t[j], ren) else t[j]
    {
      if t'[i].tag != 0 {
        t' := t'[i := Renamed(t'[i], ren)];
      }
    }
    RemappedTable(t, t', ren);
  }

  lemma RemappedTable(t: Table, t': Table, ren: map<Id, Id>)
    requires |t'| == |t| && Chained(t) && Distinct(t) && KeepsApart(Entries(t), ren)
    requires forall j :: 0 <= j < |t| ==> t'[j] == if t[j].tag != 0 then Renamed(t[j], ren) else t[j]
    ensures Chained(t') && Distinct(t') && OccSet(t') == OccSet(t)
    ensures Entries(t') == RenamedAll(Entries(t), ren)
  {
    assert forall i :: Occ(t', i) <==> Occ(t, i);
    forall i, j | Occ(t', i) && 0 <= j < |t'| && OnPath(t', i, j)
      ensures Occ(t', j)
    {
      assert OnPath(t, i, j);
    }
    forall i, j | Occ(t', i) && Occ(t', j) && i != j
      ensures t'[i].id != t'[j].id
    {
      EntryAt(t, -1, i);
      EntryAt(t, -1, j);
    }
    forall s | s in RenamedAll(Entries(t), ren)
      ensures s in Entries(t')
    {
      var r :| r in Entries(t) && Renamed(r, ren) == s;
      var i :| 0 <= i < |t| && t[i].tag != 0 && t[i] == r;
      EntryAt(t', -1, i);
    }
    forall s | s in Entries(t')
      ensures s in RenamedAll(Entries(t), ren)
    {
      var i :| 0 <= i < |t'| && t'[i].tag != 0 && t'[i] == s;
      EntryAt(t, -1, i);
    }
  }

  lemma {:induction false} Pow2Mono(a: nat, b: nat)
    requires a <= b
    ensures Pow2(a) <= Pow2(b)
  {
    if a < b {
      Pow2Mono(a, b - 1);
    }
  }

  lemma SmallPow2(k: nat)
    ensures Pow2(k) <= TWO21 ==> k <= 21
  {
    if k >= 22 {
      Pow2Mono(22, k);
      Pow2Of21();
    }
  }

  /** The probe loop of the fast deletion; no empty slot precedes position `p`, so the exit at an
      empty slot is never taken. */
  method ScanFast(t: Table, id: Id, tag21: nat, ghost p: int) returns (idx: nat)
    requires Occ(t, p) && t[p].id == id && t[p].tag % TWO21 == tag21
    requires var h := Home(tag21, |t|);
             forall j :: 0 <= j < |t| && Dist(h, j, |t|) < Dist(h, p, |t|) ==> Occ(t, j) && t[j].id != id
    ensures Occ(t, idx) && t[idx].id == id
  {
    var h := Home(tag21, |t|);
    idx := h;
    while !(t[idx].id == id && t[idx].tag % TWO21 == tag21)
      invariant idx < |t| && Dist(h, idx, |t|) <= Dist(h, p, |t|)
      decreases Dist(h, p, |t|) - Dist(h, idx, |t|)
    {
      idx := Next(idx, |t|);
    }
  }

  /** The part of `ks` that belongs to the nodes listed. */
  ghost function Only(ks: map<Id, Bytes>, ids: seq<Id>): map<Id, Bytes> {
    map x | x in ks && x in ids :: ks[x]
  }

  lemma OnlyNext(ks: map<Id, Bytes>, order: seq<Id>, i: nat)
    requires i < |order| && NoDup(order) && order[i] in ks
    requires forall a, b :: a in ks && b in ks && a != b ==> ks[a] != ks[b]
    ensures order[i] !in Only(ks, order[..i])
    ensures Only(ks, order[..i + 1]) == Only(ks, order[..i])[order[i] := ks[order[i]]]
    ensures forall x :: x in Only(ks, order[..i]) ==> Only(ks, order[..i])[x] != ks[order[i]]
  {
    assert order[..i + 1] == order[..i] + [order[i]];
  }

  lemma OnlyAll(ks: map<Id, Bytes>, order: seq<Id>)
    requires SetOf(order) == ks.Keys
    ensures Only(ks, order) == ks
  {
    forall x | x in ks
      ensures x in order
    {
      assert x in SetOf(order);
    }
  }

  lemma RenamedNone(es: set<Slot>)
    ensures RenamedAll(es, map[]) == es && KeepsApart(es, map[])
  {
    forall s | s in es
      ensures s in RenamedAll(es, map[])
    {
      assert Renamed(s, map[]) == s;
    }
  }

  /** The live nodes of hash `h` are the node of slot `s` and the peers `ps`. */
  ghost predicate Group(es: set<Slot>, hs: map<Id, Hash>, h: Hash, s: Slot, ps: seq<Id>) {
    && s in es && s.id in hs && hs[s.id] == h && NoDup(ps) && s.id !in ps
    && (forall x :: x in hs && hs[x] == h <==> x == s.id || x in ps)
  }

  /** A peer and the node of the slot change places. */
  lemma RegroupsSwap(es: set<Slot>, hs: map<Id, Hash>, h: Hash, s: Slot, s': Slot, ps: seq<Id>, k: nat)
    requires Group(es, hs, h, s, ps) && k < |ps| && ps[k] == s'.id && s'.tag == s.tag
    ensures Regroups(es, hs, h, s, s', ps[k := s.id], hs)
  {
    var ps' := ps[k := s.id];
    forall x
      ensures x in ps' <==> x == s.id || (x in ps && x != s'.id)
    {
      if x in ps && x != s'.id {
        var i :| 0 <= i < |ps| && ps[i] == x;
        assert ps'[i] == x;
      }
      assert ps'[k] == s.id;
    }
  }

  /** A new node takes the slot and its former node becomes a peer. */
  lemma RegroupsPush(es: set<Slot>, hs: map<Id, Hash>, h: Hash, s: Slot, s': Slot, ps: seq<Id>)
    requires Group(es, hs, h, s, ps) && s'.id !in hs && s'.tag == s.tag
    ensures Regroups(es, hs, h, s, s', ps + [s.id], hs[s'.id := h])
  {
  }

  /** The node of the slot leaves and the last peer takes its place. */
  lemma RegroupsPop(es: set<Slot>, hs: map<Id, Hash>, h: Hash, s: Slot, s': Slot, ps: seq<Id>)
    requires Group(es, hs, h, s, ps) && ps != [] && ps[|ps| - 1] == s'.id && s'.tag == s.tag
    ensures Regroups(es, hs, h, s, s', ps[..|ps| - 1], hs - {s.id})
  {
    var n := |ps| - 1;
    assert ps == ps[..n] + [ps[n]];
  }

  /** The peer at `k` leaves. */
  lemma RegroupsDrop(es: set<Slot>, hs: map<Id, Hash>, h: Hash, s: Slot, ps: seq<Id>, k: nat)
    requires Group(es, hs, h, s, ps) && k < |ps|
    ensures Regroups(es, hs, h, s, s, ps[..k] + ps[k + 1..], hs - {ps[k]})
  {
    var ps' := ps[..k] + ps[k + 1..];
    forall x
      ensures x in ps' <==> x in ps && x != ps[k]
    {
      if x in ps && x != ps[k] {
        var i :| 0 <= i < |ps| && ps[i] == x;
        assert ps'[if i < k then i else i - 1] == x;
      }
      if x in ps' {
        var i :| 0 <= i < |ps'| && ps'[i] == x;
        assert ps[if i < k then i else i + 1] == x;
      }
    }
  }

  /** slices.Index: the first position of `id`, or the length when absent. */
  method IndexOf(ps: seq<Id>, id: Id) returns (k: nat)
    ensures k <= |ps| && (k < |ps| ==> ps[k] == id) && (k == |ps| <==> id !in ps)
  {
    k := 0;
    while k < |ps| && ps[k] != id
      invariant k <= |ps| && id !in ps[..k]
    {
      k := k + 1;
    }
    assert k == |ps| ==> ps[..k] == ps;
  }
}

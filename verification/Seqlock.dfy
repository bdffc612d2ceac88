/**
 The seqlock that publishes pressure samples (pressure.go): writers hold pressureWriteMu and change one
 atomic field per step; readers take no lock and load one field per step.  The model keeps a history of
 what every even sequence number stood for.
 */
module Seqlock {

  /** The published fields. */
  datatype Sample = Sample(epoch: nat, bits: nat, tier1: nat, tier2: nat, invoke: nat)

  /** Who made a sequence number even: a publisher whose sample may be used or is to be refreshed at once, an
      invalidation, or a writer of newer recovery epochs. */
  datatype Origin = Fresh | Elevated | Invalidated | Republished

  /** What an even sequence number stands for, the reclaim epoch when its sample was stored, and who committed it. */
  datatype Publication = Publication(sample: Sample, born: nat, origin: Origin)

  /** The holder of the write mutex, with the number of its finished stores and the odd number it works under. */
  datatype Writer =
    | NoWriter
    | Publish(done: nat, under: nat, sample: Sample, elevated: bool)
    | Invalidate(step: nat, odd: nat)
    | Republish(pos: nat, own: nat, tier1: nat, tier2: nat)
    | Reclaim(stage: nat)

  /** A reader after `k` loads, or its outcome; `now` is the reclaim epoch at its last load. */
  datatype Reader =
    | Reading(k: nat, want: nat, num: nat, got: Sample)
    | Failed
    | Succeeded(asked: nat, from: nat, value: Sample, now: nat)

  datatype State = State(num: nat, initialized: bool, needsRefresh: bool, fields: Sample, reclaims: nat, writer: Writer,
                         readers: map<int, Reader>, born: nat, history: map<nat, Publication>)

  datatype Action =
    | StartWriter(w: Writer)
    | WriterStep
    | RefreshStore
    | StartReader(id: int, want: nat)
    | ReaderStep(id: int)

  function Odd(n: nat): nat {
    if n % 2 == 0 then n + 1 else n
  }

  // ---------------------------------------------------------------------------------------------
  // Writers
  // ---------------------------------------------------------------------------------------------

  /** The store that makes the sequence number even again. */
  function Commit(s: State, num: nat, origin: Origin): State {
    s.(num := num + 1, writer := NoWriter, history := s.history[num + 1 := Publication(s.fields, s.born, origin)])
  }

  /** publishCachedPressureLocked, one store at a time. */
  function PublishStep(s: State, k: nat, under: nat, x: Sample, elevated: bool): State {
    if k == 0 then s.(num := Odd(s.num), writer := Publish(1, Odd(s.num), x, elevated))
    else
      var t := s.(writer := Publish(k + 1, under, x, elevated));
      if k == 1 then t.(fields := s.fields.(epoch := x.epoch), born := s.reclaims)
      else if k == 2 then t.(fields := s.fields.(tier1 := x.tier1))
      else if k == 3 then t.(fields := s.fields.(tier2 := x.tier2))
      else if k == 4 then t.(fields := s.fields.(invoke := x.invoke))
      else if k == 5 then t.(fields := s.fields.(bits := x.bits))
      else if k == 6 then t.(initialized := true)
      else if k == 7 then t.(needsRefresh := elevated)
      else Commit(s, under, if elevated then Elevated else Fresh)
  }

  /** invalidateCachedPressureLocked. */
  function InvalidateStep(s: State, k: nat, under: nat): State {
    if k == 0 then s.(num := Odd(s.num), writer := Invalidate(1, Odd(s.num)))
    else if k == 1 then s.(needsRefresh := true, writer := Invalidate(2, under))
    else Commit(s, under, Invalidated)
  }

  /** republishCachedRecoveryEpochsLocked: the recovery epochs only grow. */
  function RepublishStep(s: State, k: nat, under: nat, tier1: nat, tier2: nat): State {
    if k == 0 then
      if tier1 <= s.fields.tier1 && tier2 <= s.fields.tier2 then s.(writer := NoWriter)
      else s.(num := Odd(s.num), writer := Republish(1, Odd(s.num), tier1, tier2))
    else if k == 1 then
      s.(fields := if tier1 > s.fields.tier1 then s.fields.(tier1 := tier1) else s.fields,
         writer := Republish(2, under, tier1, tier2))
    else if k == 2 then
      s.(fields := if tier2 > s.fields.tier2 then s.fields.(tier2 := tier2) else s.fields,
         writer := Republish(3, under, tier1, tier2))
    else Commit(s, under, Republished)
  }

  /** markReclaimedFromShard: the number stays odd, the cached value is wiped, then the epoch advances. */
  function ReclaimStep(s: State, k: nat): State {
    if k == 0 then s.(num := Odd(s.num), writer := Reclaim(1))
    else if k == 1 then s.(needsRefresh := true, writer := Reclaim(2))
    else if k == 2 then s.(initialized := false, writer := Reclaim(3))
    else if k == 3 then s.(fields := s.fields.(bits := 0), writer := Reclaim(4))
    else s.(reclaims := s.reclaims + 1, writer := NoWriter)
  }

  function WriterMove(s: State): State {
    match s.writer
    case NoWriter => s
    case Publish(k, under, x, elevated) => PublishStep(s, k, under, x, elevated)
    case Invalidate(k, under) => InvalidateStep(s, k, under)
    case Republish(k, under, tier1, tier2) => RepublishStep(s, k, under, tier1, tier2)
    case Reclaim(k) => ReclaimStep(s, k)
  }

  /** Who may take the mutex: a publisher brings an epoch it read before, the others the guards of their callers. */
  predicate MayStart(s: State, w: Writer) {
    match w
    case NoWriter => false
    case Publish(k, _, sample, _) => k == 0 && sample.epoch <= s.reclaims
    case Invalidate(k, _) => k == 0 && s.initialized && !s.needsRefresh
    case Republish(k, _, _, _) => k == 0 && s.initialized && !s.needsRefresh
    case Reclaim(k) => k == 0
  }

  // ---------------------------------------------------------------------------------------------
  // Readers
  // ---------------------------------------------------------------------------------------------

  /** readValidCachedSampleWithPubSeq and isCachedSampleStillValid, one load at a time. */
  function ReaderMove(s: State, r: Reader): Reader
    requires r.Reading?
  {
    var k, want, num, got := r.k, r.want, r.num, r.got;
    var next := Reading(k + 1, want, num, got);
    if k == 0 then (if s.num == 0 || s.num % 2 == 1 then Failed else Reading(1, want, s.num, got))
    else if k == 1 then (if s.initialized then next else Failed)
    else if k == 2 then (if s.needsRefresh then Failed else next)
    else if k == 3 then (if s.fields.epoch == want then Reading(4, want, num, got.(epoch := want)) else Failed)
    else if k == 4 then Reading(5, want, num, got.(bits := s.fields.bits))
    else if k == 5 then Reading(6, want, num, got.(tier1 := s.fields.tier1))
    else if k == 6 then Reading(7, want, num, got.(tier2 := s.fields.tier2))
    else if k == 7 then Reading(8, want, num, got.(invoke := s.fields.invoke))
    else if k == 8 then (if s.num == num then next else Failed)
    else if k == 9 then (if s.initialized then next else Failed)
    else if k == 10 then (if s.needsRefresh then Failed else next)
    else if k == 11 then (if s.fields.epoch == want then next else Failed)
    else if s.reclaims == want then Succeeded(want, num, got, s.reclaims)
    else Failed
  }

  predicate Enabled(s: State, a: Action) {
    match a
    case StartWriter(w) => s.writer.NoWriter? && MayStart(s, w)
    case WriterStep => !s.writer.NoWriter?
    case RefreshStore => true
    case StartReader(id, _) => id !in s.readers
    case ReaderStep(id) => id in s.readers && s.readers[id].Reading?
  }

  function Apply(s: State, a: Action): State
    requires Enabled(s, a)
  {
    match a
    case StartWriter(w) => s.(writer := w)
    case WriterStep => WriterMove(s)
    case RefreshStore => s.(needsRefresh := true)
    case StartReader(id, want) => s.(readers := s.readers[id := Reading(0, want, 0, Sample(0, 0, 0, 0, 0))])
    case ReaderStep(id) => s.(readers := s.readers[id := ReaderMove(s, s.readers[id])])
  }

  predicate Init(s: State) {
    && s.num == 0 && !s.initialized && s.writer.NoWriter? && s.readers == map[] && s.history == map[]
    && s.fields.epoch <= s.born <= s.reclaims
  }

  predicate Reaches(s: State, acts: seq<Action>, t: State)
    decreases |acts|
  {
    if acts == [] then s == t
    else Enabled(s, acts[0]) && Reaches(Apply(s, acts[0]), acts[1..], t)
  }

  ghost predicate Reachable(t: State) {
    exists s, acts :: Init(s) && Reaches(s, acts, t)
  }

  // ---------------------------------------------------------------------------------------------
  // The invariant
  // ---------------------------------------------------------------------------------------------

  /** The writer's progress: what it has stored so far is in the fields, and it works under an odd number. */
  predicate WriterOk(s: State) {
    match s.writer
    case NoWriter => true
    case Publish(k, num, sample, elevated) =>
      && sample.epoch <= s.reclaims && k <= 8 && (k >= 8 && elevated ==> s.needsRefresh)
      && (k >= 1 ==> s.num == num && num % 2 == 1)
      && (k >= 2 ==> s.fields.epoch == sample.epoch) && (k >= 3 ==> s.fields.tier1 == sample.tier1)
      && (k >= 4 ==> s.fields.tier2 == sample.tier2) && (k >= 5 ==> s.fields.invoke == sample.invoke)
      && (k >= 6 ==> s.fields.bits == sample.bits)
    case Invalidate(k, num) => k <= 2 && (k >= 1 ==> s.num == num && num % 2 == 1) && (k >= 2 ==> s.needsRefresh)
    case Republish(k, num, _, _) =>
      && k <= 3 && (k >= 1 ==> s.num == num && num % 2 == 1)
      && (if k == 0 then Current(s, s.num) else Current(s, num - 1))
    case Reclaim(k) =>
      k <= 4 && (k >= 1 ==> s.num % 2 == 1) && (k >= 2 ==> s.needsRefresh) && (k >= 3 ==> !s.initialized)
  }

  /** The committer allows the sample to be used. */
  predicate Usable(origin: Origin) {
    origin.Fresh? || origin.Republished?
  }

  /** `p` is `q` with recovery epochs that are no smaller. */
  predicate Renews(p: Publication, q: Publication) {
    && p.born == q.born && p.sample == q.sample.(tier1 := p.sample.tier1, tier2 := p.sample.tier2)
    && p.sample.tier1 >= q.sample.tier1 && p.sample.tier2 >= q.sample.tier2
  }

  /** The fields renew the usable publication `n`. */
  predicate Current(s: State, n: nat) {
    n in s.history && Usable(s.history[n].origin) && Renews(Publication(s.fields, s.born, Republished), s.history[n])
  }

  /** An even number always stands for the fields as they are, an unusable one comes with the refresh mark, samples
      are no younger than their epoch, and a republication renews the usable publication before it. */
  predicate SharedOk(s: State) {
    && s.fields.epoch <= s.born <= s.reclaims
    && (s.num % 2 == 0 && s.num > 0 ==>
          && s.num in s.history && s.history[s.num] == Publication(s.fields, s.born, s.history[s.num].origin)
          && (Usable(s.history[s.num].origin) || s.needsRefresh))
    && (s.initialized && s.writer.NoWriter? && !s.needsRefresh ==> s.num % 2 == 0 && s.num > 0)
    && (forall n :: n in s.history ==> PublicationOk(s.history, n) && n <= s.num && s.history[n].born <= s.reclaims)
  }

  predicate PublicationOk(h: map<nat, Publication>, n: nat)
    requires n in h
  {
    && n % 2 == 0 && 0 < n && h[n].sample.epoch <= h[n].born
    && (h[n].origin.Republished? ==> 2 <= n && n - 2 in h && Usable(h[n - 2].origin) && Renews(h[n], h[n - 2]))
  }

  /** The loads a reader has made agree with its publication, as long as the number has not moved. */
  predicate ReaderOk(s: State, r: Reader) {
    match r
    case Failed => true
    case Succeeded(want, num, got, now) =>
      && num in s.history && got == s.history[num].sample && got.epoch == want && want == now == s.history[num].born
      && Usable(s.history[num].origin)
    case Reading(k, want, num, got) =>
      k >= 1 ==>
        && num in s.history && num <= s.num && k <= 12
        && (k >= 4 ==> got.epoch == want)
        && (k >= 9 || (k >= 3 && s.num == num) ==> Usable(s.history[num].origin))
        && (k >= 9 || s.num == num ==>
              var p := s.history[num].sample;
              && (k >= 4 ==> got.epoch == p.epoch) && (k >= 5 ==> got.bits == p.bits)
              && (k >= 6 ==> got.tier1 == p.tier1)
              && (k >= 7 ==> got.tier2 == p.tier2) && (k >= 8 ==> got.invoke == p.invoke))
  }

  predicate Inv(s: State) {
    WriterOk(s) && SharedOk(s) && forall id :: id in s.readers ==> ReaderOk(s, s.readers[id])
  }

  /** What every writer step keeps: the shared invariant, the history, and the direction of the counters. */
  predicate Advances(s: State, t: State) {
    && WriterOk(t) && SharedOk(t) && s.num <= t.num && t.readers == s.readers && s.reclaims <= t.reclaims
    && (forall n :: n in s.history ==> n in t.history && t.history[n] == s.history[n])
  }

  lemma OddFacts(n: nat)
    ensures Odd(n) % 2 == 1 && n <= Odd(n) && Odd(n) == if n % 2 == 1 then n else n + 1
  {
  }

  /** The first store of a writer: from then on the number is odd. */
  lemma BeginKeeps(s: State, w: Writer)
    requires SharedOk(s) && WriterOk(s.(num := Odd(s.num), writer := w)) && !w.NoWriter?
    ensures Advances(s, s.(num := Odd(s.num), writer := w))
  {
    OddFacts(s.num);
    hide Odd;
  }

  /** The last store: the even number stands for the fields as they are. */
  lemma CommitKeeps(s: State, origin: Origin)
    requires SharedOk(s) && s.num % 2 == 1 && (Usable(origin) || s.needsRefresh)
    requires origin.Republished? ==> Current(s, s.num - 1)
    ensures Advances(s, Commit(s, s.num, origin))
  {
    assert (s.num + 1) % 2 == 0;
  }

  /** A store in between, while the number is odd. */
  lemma StoreKeeps(s: State, t: State)
    requires SharedOk(s) && s.num % 2 == 1 && WriterOk(t) && !t.writer.NoWriter?
    requires t == s.(initialized := t.initialized, needsRefresh := t.needsRefresh, fields := t.fields, born := t.born,
                     writer := t.writer)
    requires t.fields.epoch <= t.born <= t.reclaims
    ensures Advances(s, t)
  {
  }

  lemma PublishKeeps(s: State)
    requires WriterOk(s) && SharedOk(s) && s.writer.Publish?
    ensures Advances(s, WriterMove(s))
  {
    hide Advances, SharedOk, Odd;
    OddFacts(s.num);
    if s.writer.done == 0 {
      BeginKeeps(s, WriterMove(s).writer);
    } else if s.writer.done < 8 {
      BornOk(s);
      PublishStores(s);
      StoreKeeps(s, WriterMove(s));
    } else {
      CommitKeeps(s, if s.writer.elevated then Elevated else Fresh);
    }
  }

  lemma BornOk(s: State)
    requires SharedOk(s)
    ensures s.fields.epoch <= s.born <= s.reclaims
  {
  }

  lemma PublishStores(s: State)
    requires WriterOk(s) && s.writer.Publish? && 1 <= s.writer.done < 8 && s.fields.epoch <= s.born <= s.reclaims
    ensures var t := WriterMove(s);
            && WriterOk(t) && !t.writer.NoWriter? && t.fields.epoch <= t.born <= t.reclaims && s.num % 2 == 1
            && t == s.(initialized := t.initialized, needsRefresh := t.needsRefresh, fields := t.fields, born := t.born,
                       writer := t.writer)
  {
    hide Odd, Commit, Current, WriterOk, WriterMove;
    if s.writer.done <= 4 {
      PublishEarly(s);
    } else {
      PublishLate(s);
    }
  }

  lemma PublishEarly(s: State)
    requires WriterOk(s) && s.writer.Publish? && 1 <= s.writer.done <= 4 && s.fields.epoch <= s.born <= s.reclaims
    ensures var t := WriterMove(s);
            && WriterOk(t) && !t.writer.NoWriter? && t.fields.epoch <= t.born <= t.reclaims && s.num % 2 == 1
            && t == s.(fields := t.fields, born := t.born, writer := t.writer)
  {
    hide Odd, Commit, Current, InvalidateStep, RepublishStep, ReclaimStep;
  }

  lemma PublishLate(s: State)
    requires WriterOk(s) && s.writer.Publish? && 4 < s.writer.done < 8 && s.fields.epoch <= s.born <= s.reclaims
    ensures var t := WriterMove(s);
            && WriterOk(t) && !t.writer.NoWriter? && t.fields.epoch <= t.born <= t.reclaims && s.num % 2 == 1
            && t == s.(initialized := t.initialized, needsRefresh := t.needsRefresh, fields := t.fields,
                       writer := t.writer)
  {
    hide Odd, Commit, Current, InvalidateStep, RepublishStep, ReclaimStep;
  }

  lemma InvalidateKeeps(s: State)
    requires WriterOk(s) && SharedOk(s) && s.writer.Invalidate?
    ensures Advances(s, WriterMove(s))
  {
    hide Advances;
    OddFacts(s.num);
    if s.writer.step == 0 {
      BeginKeeps(s, WriterMove(s).writer);
    } else if s.writer.step < 2 {
      StoreKeeps(s, WriterMove(s));
    } else {
      CommitKeeps(s, Invalidated);
    }
  }

  lemma RepublishKeeps(s: State)
    requires WriterOk(s) && SharedOk(s) && s.writer.Republish?
    ensures Advances(s, WriterMove(s))
  {
    hide Advances, Odd;
    OddFacts(s.num);
    if s.writer.pos == 0 {
      if WriterMove(s).writer.Republish? {
        BeginKeeps(s, WriterMove(s).writer);
      } else {
        RepublishSkips(s);
      }
    } else if s.writer.pos < 3 {
      StoreKeeps(s, WriterMove(s));
    } else {
      CommitKeeps(s, Republished);
    }
  }

  lemma RepublishSkips(s: State)
    requires WriterOk(s) && SharedOk(s) && s.writer.Republish? && s.writer.pos == 0
    ensures Advances(s, s.(writer := NoWriter))
  {
  }

  lemma ReclaimKeeps(s: State)
    requires WriterOk(s) && SharedOk(s) && s.writer.Reclaim?
    ensures Advances(s, WriterMove(s))
  {
    OddFacts(s.num);
    if s.writer.stage == 0 {
      BeginKeeps(s, WriterMove(s).writer);
    } else if s.writer.stage < 4 {
      StoreKeeps(s, WriterMove(s));
    }
  }

  lemma WriterKeeps(s: State)
    requires WriterOk(s) && SharedOk(s) && !s.writer.NoWriter?
    ensures Advances(s, WriterMove(s))
  {
    hide *;
    match s.writer
    case Publish(_, _, _, _) => PublishKeeps(s);
    case Invalidate(_, _) => InvalidateKeeps(s);
    case Republish(_, _, _, _) => RepublishKeeps(s);
    case Reclaim(_) => ReclaimKeeps(s);
  }

  /** What a reader knows survives any step of the others. */
  lemma ReaderStays(s: State, t: State, r: Reader)
    requires SharedOk(s) && ReaderOk(s, r) && s.num <= t.num
    requires forall n :: n in s.history ==> n in t.history && t.history[n] == s.history[n]
    ensures ReaderOk(t, r)
  {
  }

  lemma ReaderKeeps(s: State, r: Reader)
    requires SharedOk(s) && ReaderOk(s, r) && r.Reading?
    ensures ReaderOk(s, ReaderMove(s, r))
  {
  }

  /** Taking the mutex, and the mark for refresh that needs no mutex. */
  lemma OthersKeep(s: State, a: Action)
    requires WriterOk(s) && SharedOk(s) && Enabled(s, a) && !a.WriterStep?
    ensures var t := Apply(s, a);
            WriterOk(t) && SharedOk(t) && t.num == s.num && t.history == s.history
  {
  }

  lemma StepKeeps(s: State, a: Action)
    requires Inv(s) && Enabled(s, a)
    ensures Inv(Apply(s, a))
    ensures forall n :: n in s.history ==> n in Apply(s, a).history && Apply(s, a).history[n] == s.history[n]
  {
    hide WriterOk, SharedOk, ReaderOk, WriterMove, ReaderMove;
    var t := Apply(s, a);
    if a.WriterStep? {
      WriterKeeps(s);
    } else {
      OthersKeep(s, a);
    }
    forall id | id in t.readers
      ensures ReaderOk(t, t.readers[id])
    {
      if a.StartReader? && a.id == id {
        NewReader(t, a.want);
      } else {
        if a.ReaderStep? && a.id == id {
          ReaderKeeps(s, s.readers[id]);
        }
        ReaderStays(s, t, t.readers[id]);
      }
    }
  }

  lemma NewReader(t: State, want: nat)
    ensures ReaderOk(t, Reading(0, want, 0, Sample(0, 0, 0, 0, 0)))
  {
  }

  lemma {:induction false} RunKeeps(s: State, acts: seq<Action>, t: State)
    requires Inv(s) && Reaches(s, acts, t)
    ensures Inv(t)
    ensures forall n :: n in s.history ==> n in t.history && t.history[n] == s.history[n]
    decreases |acts|
  {
    if acts != [] {
      StepKeeps(s, acts[0]);
      RunKeeps(Apply(s, acts[0]), acts[1..], t);
    }
  }

  /** A reader that succeeds has exactly the sample of one even publication, for the epoch it asked for, and no
      reclamation was completed between the storing of that sample and the reader's last load. */
  lemma ReadsOnePublication(t: State, id: int)
    requires Reachable(t) && id in t.readers && t.readers[id].Succeeded?
    ensures var r := t.readers[id];
            && r.from % 2 == 0 && 0 < r.from && r.from in t.history
            && r.value == t.history[r.from].sample && r.value.epoch == r.asked
            && r.now == t.history[r.from].born && Usable(t.history[r.from].origin)
  {
    var s, acts :| Init(s) && Reaches(s, acts, t);
    RunKeeps(s, acts, t);
  }

  lemma RenewsTwice(p: Publication, q: Publication, r: Publication)
    requires Renews(p, q) && Renews(q, r)
    ensures Renews(p, r)
  {
  }

  /** A usable publication goes back to one that a publisher committed for use. */
  lemma {:induction false} Source(t: State, n: nat) returns (m: nat)
    requires Inv(t) && n in t.history && Usable(t.history[n].origin)
    ensures m <= n && m in t.history && t.history[m].origin == Fresh && Renews(t.history[n], t.history[m])
  {
    if t.history[n].origin.Fresh? {
      m := n;
    } else {
      m := Source(t, n - 2);
      RenewsTwice(t.history[n], t.history[n - 2], t.history[m]);
    }
  }

  /** What a reader gets was published for use: an invalidation, a sample to be refreshed at once and a reclamation
      never reach it, and republishing has changed nothing but the recovery epochs, upwards. */
  lemma ReadsFresh(t: State, id: int) returns (m: nat)
    requires Reachable(t) && id in t.readers && t.readers[id].Succeeded?
    ensures var r := t.readers[id];
            && m <= r.from && m in t.history && t.history[m].origin == Fresh && t.history[m].born == r.now
            && r.value == t.history[m].sample.(tier1 := r.value.tier1, tier2 := r.value.tier2)
            && r.value.tier1 >= t.history[m].sample.tier1 && r.value.tier2 >= t.history[m].sample.tier2
  {
    var s, acts :| Init(s) && Reaches(s, acts, t);
    RunKeeps(s, acts, t);
    m := Source(t, t.readers[id].from);
  }

  /** What an even number stands for never changes: a later run only adds publications. */
  lemma PublicationsStay(s: State, acts: seq<Action>, t: State, n: nat)
    requires Reachable(s) && Reaches(s, acts, t) && n in s.history
    ensures n in t.history && t.history[n] == s.history[n]
  {
    var s0, acts0 :| Init(s0) && Reaches(s0, acts0, s);
    RunKeeps(s0, acts0, s);
    RunKeeps(s, acts, t);
  }

  /** While a reclamation is under way or the number is odd, no new reader gets past its first load. */
  lemma ReclaimBlocksReaders(t: State, id: int)
    requires Reachable(t) && t.writer.Reclaim? && t.writer.stage >= 1 && id in t.readers && t.readers[id].Reading?
    ensures t.readers[id].k == 0 || t.readers[id].k == 8 ==> ReaderMove(t, t.readers[id]) == Failed
  {
    var s, acts :| Init(s) && Reaches(s, acts, t);
    RunKeeps(s, acts, t);
  }
}

/**
 Writers and readers of the seqlock on their own: what the stores of each writer amount to, and what a reader
 gets that nobody disturbs.
 */
module SeqlockAlone {
  import opened Seqlock

  /** The stores a writer has still to make. */
  function StoresLeft(w: Writer): nat {
    match w
    case NoWriter => 0
    case Publish(k, _, _, _) => if k <= 8 then 9 - k else 1
    case Invalidate(k, _) => if k <= 2 then 3 - k else 1
    case Republish(k, _, _, _) => if k <= 3 then 4 - k else 1
    case Reclaim(k) => if k <= 4 then 5 - k else 1
  }

  /** The writer makes all its stores. */
  function Finished(s: State): State
    decreases StoresLeft(s.writer)
  {
    if s.writer.NoWriter? then s
    else
      StoresDrop(s);
      Finished(WriterMove(s))
  }

  lemma StoresDrop(s: State)
    requires !s.writer.NoWriter?
    ensures StoresLeft(WriterMove(s).writer) < StoresLeft(s.writer)
  {
    hide PublishStep, InvalidateStep, RepublishStep, ReclaimStep, StoresLeft;
    match s.writer
    case Publish(k, under, x, elevated) => PublishDrops(s, k, under, x, elevated);
    case Invalidate(k, under) => InvalidateDrops(s, k, under);
    case Republish(k, under, tier1, tier2) => RepublishDrops(s, k, under, tier1, tier2);
    case Reclaim(k) => ReclaimDrops(s, k);
  }

  lemma PublishDrops(s: State, k: nat, under: nat, x: Sample, elevated: bool)
    ensures StoresLeft(PublishStep(s, k, under, x, elevated).writer) < StoresLeft(Publish(k, under, x, elevated))
  {
    hide Odd;
  }

  lemma InvalidateDrops(s: State, k: nat, under: nat)
    ensures StoresLeft(InvalidateStep(s, k, under).writer) < StoresLeft(Invalidate(k, under))
  {
    hide Odd;
  }

  lemma RepublishDrops(s: State, k: nat, under: nat, tier1: nat, tier2: nat)
    ensures StoresLeft(RepublishStep(s, k, under, tier1, tier2).writer) < StoresLeft(Republish(k, under, tier1, tier2))
  {
    hide Odd;
  }

  lemma ReclaimDrops(s: State, k: nat)
    ensures StoresLeft(ReclaimStep(s, k).writer) < StoresLeft(Reclaim(k))
  {
    hide Odd;
  }

  lemma FinishNext(s: State, t: State)
    requires !s.writer.NoWriter? && t == WriterMove(s)
    ensures Finished(s) == Finished(t)
  {
  }

  /** Finishing is a run of the writer's steps. */
  lemma {:induction false} FinishedReached(s: State) returns (acts: seq<Action>)
    ensures Reaches(s, acts, Finished(s)) && forall a :: a in acts ==> a == WriterStep
    decreases StoresLeft(s.writer)
  {
    hide WriterMove, StoresLeft;
    acts := [];
    if !s.writer.NoWriter? {
      StoresDrop(s);
      acts := FinishedReached(WriterMove(s));
      assert ([WriterStep] + acts)[1..] == acts;
      acts := [WriterStep] + acts;
    }
  }

  function Max(a: nat, b: nat): nat { if a < b then b else a }

  /** Publishing stores the sample, and it may be used unless its pressure is elevated. */
  lemma PublishDoes(s: State, x: Sample, elevated: bool)
    requires s.writer.NoWriter?
    ensures var t := Finished(s.(writer := Publish(0, 0, x, elevated)));
            && t.fields == x && t.born == s.reclaims == t.reclaims && t.initialized && t.needsRefresh == elevated
            && t.num == Odd(s.num) + 1 && t.writer.NoWriter? && t.readers == s.readers
            && t.history == s.history[t.num := Publication(x, s.reclaims, if elevated then Elevated else Fresh)]
  {
    hide Odd;
    var t1 := s.(num := Odd(s.num), writer := Publish(1, Odd(s.num), x, elevated));
    var n := Odd(s.num);
    var t2 := t1.(fields := s.fields.(epoch := x.epoch), born := s.reclaims, writer := Publish(2, n, x, elevated));
    var t3 := t2.(fields := t2.fields.(tier1 := x.tier1), writer := Publish(3, n, x, elevated));
    var t4 := t3.(fields := t3.fields.(tier2 := x.tier2), writer := Publish(4, n, x, elevated));
    var t5 := t4.(fields := t4.fields.(invoke := x.invoke), writer := Publish(5, n, x, elevated));
    var t6 := t5.(fields := t5.fields.(bits := x.bits), writer := Publish(6, n, x, elevated));
    assert t6.fields == x;
    var t7 := t6.(initialized := true, writer := Publish(7, n, x, elevated));
    var t8 := t7.(needsRefresh := elevated, writer := Publish(8, n, x, elevated));
    hide Finished;
    FinishNext(s.(writer := Publish(0, 0, x, elevated)), t1);
    FinishNext(t1, t2);
    FinishNext(t2, t3);
    FinishNext(t3, t4);
    FinishNext(t4, t5);
    FinishNext(t5, t6);
    FinishNext(t6, t7);
    FinishNext(t7, t8);
    FinishNext(t8, WriterMove(t8));
    FinishLast(WriterMove(t8));
  }

  lemma FinishLast(s: State)
    requires s.writer.NoWriter?
    ensures Finished(s) == s
  {
  }

  /** Invalidating changes no field but marks the sample for refresh. */
  lemma InvalidateDoes(s: State)
    requires s.writer.NoWriter?
    ensures var t := Finished(s.(writer := Invalidate(0, 0)));
            t == s.(num := Odd(s.num) + 1, needsRefresh := true,
                    history := s.history[Odd(s.num) + 1 := Publication(s.fields, s.born, Invalidated)])
  {
    hide Odd, Finished;
    var t1 := s.(num := Odd(s.num), writer := Invalidate(1, Odd(s.num)));
    var t2 := t1.(needsRefresh := true, writer := Invalidate(2, Odd(s.num)));
    FinishNext(s.(writer := Invalidate(0, 0)), t1);
    FinishNext(t1, t2);
    FinishNext(t2, WriterMove(t2));
    FinishLast(WriterMove(t2));
  }

  /** Republishing raises the recovery epochs, and does nothing if none would grow. */
  lemma RepublishDoes(s: State, tier1: nat, tier2: nat)
    requires s.writer.NoWriter?
    ensures var t := Finished(s.(writer := Republish(0, 0, tier1, tier2)));
            var x := s.fields.(tier1 := Max(tier1, s.fields.tier1), tier2 := Max(tier2, s.fields.tier2));
            if x == s.fields then t == s
            else t == s.(num := Odd(s.num) + 1, fields := x,
                         history := s.history[Odd(s.num) + 1 := Publication(x, s.born, Republished)])
  {
    hide Odd, Finished;
    var t0, n := s.(writer := Republish(0, 0, tier1, tier2)), Odd(s.num);
    if tier1 > s.fields.tier1 || tier2 > s.fields.tier2 {
      var x1 := s.fields.(tier1 := Max(tier1, s.fields.tier1));
      var x := x1.(tier2 := Max(tier2, s.fields.tier2));
      var t1 := s.(num := n, writer := Republish(1, n, tier1, tier2));
      var t2 := s.(num := n, fields := x1, writer := Republish(2, n, tier1, tier2));
      var t3 := s.(num := n, fields := x, writer := Republish(3, n, tier1, tier2));
      FinishNext(t0, t1);
      FinishNext(t1, t2);
      FinishNext(t2, t3);
      FinishNext(t3, WriterMove(t3));
      FinishLast(WriterMove(t3));
    } else {
      FinishNext(t0, s);
      FinishLast(s);
    }
  }

  /** Reclaiming wipes the cached value, leaves the number odd and advances the epoch. */
  lemma ReclaimDoes(s: State)
    requires s.writer.NoWriter?
    ensures var t := Finished(s.(writer := Reclaim(0)));
            t == s.(num := Odd(s.num), needsRefresh := true, initialized := false, fields := s.fields.(bits := 0),
                    reclaims := s.reclaims + 1)
  {
    hide Odd, Finished;
    var t1 := s.(num := Odd(s.num), writer := Reclaim(1));
    var t2 := t1.(needsRefresh := true, writer := Reclaim(2));
    var t3 := t2.(initialized := false, writer := Reclaim(3));
    var t4 := t3.(fields := s.fields.(bits := 0), writer := Reclaim(4));
    FinishNext(s.(writer := Reclaim(0)), t1);
    FinishNext(t1, t2);
    FinishNext(t2, t3);
    FinishNext(t3, t4);
    FinishNext(t4, WriterMove(t4));
    FinishLast(WriterMove(t4));
  }

  /** A reader makes all its loads. */
  function Read(s: State, r: Reader): Reader
    decreases if r.Reading? && r.k <= 12 then 13 - r.k else 0
  {
    if r.Reading? && r.k <= 12 then Read(s, ReaderMove(s, r)) else r
  }

  /** The published sample may be used for epoch `want`. */
  predicate Readable(s: State, want: nat) {
    s.num > 0 && s.num % 2 == 0 && s.initialized && !s.needsRefresh && s.fields.epoch == want == s.reclaims
  }

  function StartOf(want: nat): Reader { Reading(0, want, 0, Sample(0, 0, 0, 0, 0)) }

  lemma ReadNext(s: State, r: Reader, r': Reader)
    requires r.Reading? && r.k <= 12 && r' == ReaderMove(s, r)
    ensures Read(s, r) == Read(s, r')
  {
  }

  lemma ReadLast(s: State, r: Reader)
    requires !r.Reading?
    ensures Read(s, r) == r
  {
  }

  /** The loads after the fourth, up to the second look at the number. */
  lemma ReadFields(s: State, want: nat)
    requires s.fields.epoch == want
    ensures Read(s, Reading(4, want, s.num, Sample(want, 0, 0, 0, 0))) == Read(s, Reading(8, want, s.num, s.fields))
  {
    hide Read;
    var x, n := s.fields, s.num;
    var g := Sample(want, 0, 0, 0, 0);
    var g5 := g.(bits := x.bits);
    var g6 := g5.(tier1 := x.tier1);
    var g7 := g6.(tier2 := x.tier2);
    ReadNext(s, Reading(4, want, n, g), Reading(5, want, n, g5));
    ReadNext(s, Reading(5, want, n, g5), Reading(6, want, n, g6));
    ReadNext(s, Reading(6, want, n, g6), Reading(7, want, n, g7));
    ReadNext(s, Reading(7, want, n, g7), Reading(8, want, n, x));
  }

  /** The second look at the number and the flags. */
  lemma ReadAgain(s: State, want: nat)
    requires s.num > 0 && s.num % 2 == 0 && s.initialized && !s.needsRefresh && s.fields.epoch == want
    ensures Read(s, Reading(8, want, s.num, s.fields))
            == if s.reclaims == want then Succeeded(want, s.num, s.fields, s.reclaims) else Failed
  {
    hide Read;
    var x, n := s.fields, s.num;
    ReadNext(s, Reading(8, want, n, x), Reading(9, want, n, x));
    ReadNext(s, Reading(9, want, n, x), Reading(10, want, n, x));
    ReadNext(s, Reading(10, want, n, x), Reading(11, want, n, x));
    ReadNext(s, Reading(11, want, n, x), Reading(12, want, n, x));
    ReadNext(s, Reading(12, want, n, x), ReaderMove(s, Reading(12, want, n, x)));
    ReadLast(s, ReaderMove(s, Reading(12, want, n, x)));
  }

  /** An undisturbed reader succeeds exactly if there is a usable sample, and then it has the published fields. */
  lemma ReadDoes(s: State, want: nat)
    ensures Read(s, StartOf(want))
            == if Readable(s, want) then Succeeded(want, s.num, s.fields, s.reclaims) else Failed
  {
    hide Read;
    ReadLast(s, Failed);
    var g, n := Sample(0, 0, 0, 0, 0), s.num;
    var r1, r2, r3 := Reading(1, want, n, g), Reading(2, want, n, g), Reading(3, want, n, g);
    ReadNext(s, StartOf(want), ReaderMove(s, StartOf(want)));
    if n > 0 && n % 2 == 0 {
      ReadNext(s, r1, ReaderMove(s, r1));
      ReadNext(s, r2, ReaderMove(s, r2));
      ReadNext(s, r3, ReaderMove(s, r3));
      if s.initialized && !s.needsRefresh && s.fields.epoch == want {
        ReadFields(s, want);
        ReadAgain(s, want);
      }
    }
  }

  /** Reading is a run of the reader's steps. */
  lemma {:induction false} ReadReached(s: State, id: int) returns (acts: seq<Action>)
    requires id in s.readers && (s.readers[id].Reading? ==> s.readers[id].k <= 12)
    ensures Reaches(s, acts, s.(readers := s.readers[id := Read(s, s.readers[id])]))
    ensures forall a :: a in acts ==> a == ReaderStep(id)
    decreases if s.readers[id].Reading? then 13 - s.readers[id].k else 0
  {
    acts := [];
    var r := s.readers[id];
    if r.Reading? {
      var t := s.(readers := s.readers[id := ReaderMove(s, r)]);
      SameShared(s, t, ReaderMove(s, r));
      acts := ReadReached(t, id);
      assert t.readers[id := Read(s, r)] == s.readers[id := Read(s, r)];
      assert ([ReaderStep(id)] + acts)[1..] == acts;
      acts := [ReaderStep(id)] + acts;
    } else {
      assert s.readers[id := r] == s.readers;
    }
  }

  /** A reader sees the published fields only. */
  lemma {:induction false} SameShared(s: State, t: State, r: Reader)
    requires t == s.(readers := t.readers)
    ensures Read(s, r) == Read(t, r)
    decreases if r.Reading? && r.k <= 12 then 13 - r.k else 0
  {
    if r.Reading? && r.k <= 12 {
      SameShared(s, t, ReaderMove(s, r));
    }
  }

  /** After a publication for use an undisturbed reader gets it; after an invalidation or a reclamation none gets
      anything. */
  lemma PublishThenRead(s: State, x: Sample)
    requires s.writer.NoWriter? && x.epoch == s.reclaims
    ensures var t := Finished(s.(writer := Publish(0, 0, x, false)));
            && Read(t, StartOf(x.epoch)) == Succeeded(x.epoch, t.num, x, s.reclaims)
            && (forall want :: Read(Finished(t.(writer := Invalidate(0, 0))), StartOf(want)) == Failed)
            && (forall want :: Read(Finished(t.(writer := Reclaim(0))), StartOf(want)) == Failed)
  {
    hide Read, Finished;
    OddFacts(s.num);
    PublishDoes(s, x, false);
    var t := Finished(s.(writer := Publish(0, 0, x, false)));
    InvalidateDoes(t);
    ReclaimDoes(t);
    ReadDoes(t, x.epoch);
    forall want
      ensures Read(Finished(t.(writer := Invalidate(0, 0))), StartOf(want)) == Failed
      ensures Read(Finished(t.(writer := Reclaim(0))), StartOf(want)) == Failed
    {
      ReadDoes(Finished(t.(writer := Invalidate(0, 0))), want);
      ReadDoes(Finished(t.(writer := Reclaim(0))), want);
    }
  }
}

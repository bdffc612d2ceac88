/**
 The events of one call are delivered in the order in which its operation made them, whether the call
 delivers them itself or hands them to the holder.
 */
module EvictCallbacksOrder {
  import opened EvictCallbacks
  import opened EvictCallbacksSafety
  import opened EvictCallbacksRuns

  /** Within `a`, the events of each call come in the order of their batch. */
  predicate Sorted(a: seq<Event>) {
    forall i, j :: 0 <= i < j < |a| && a[i].call == a[j].call ==> a[i].pos < a[j].pos
  }

  /** Of each call, the events in `a` come before those in `b`. */
  predicate Ordered(a: seq<Event>, b: seq<Event>) {
    forall x, y :: x in a && y in b && x.call == y.call ==> x.pos < y.pos
  }

  /** No call has events in both. */
  predicate Apart(a: seq<Event>, b: seq<Event>) {
    forall x, y :: x in a && y in b ==> x.call != y.call
  }

  predicate Numbered(a: seq<Event>, calls: nat) {
    forall x :: x in a ==> x.call < calls
  }

  lemma SortedConcat(a: seq<Event>, b: seq<Event>)
    requires Sorted(a) && Sorted(b) && Ordered(a, b)
    ensures Sorted(a + b)
  {
    forall i, j | 0 <= i < j < |a + b| && (a + b)[i].call == (a + b)[j].call
      ensures (a + b)[i].pos < (a + b)[j].pos
    {
      assert i < |a| <= j ==> a[i] in a && b[j - |a|] in b;
    }
  }

  lemma SortedTail(a: seq<Event>)
    requires Sorted(a) && a != []
    ensures Sorted(a[1..]) && Ordered([a[0]], a[1..])
  {
  }

  lemma OrderedConcat(a: seq<Event>, b: seq<Event>, c: seq<Event>)
    ensures Ordered(a + b, c) <==> Ordered(a, c) && Ordered(b, c)
    ensures Ordered(c, a + b) <==> Ordered(c, a) && Ordered(c, b)
  {
    assert forall x :: x in a ==> x in a + b;
    assert forall x :: x in b ==> x in a + b;
    assert forall x :: x in a + b ==> x in a || x in b;
  }

  lemma ApartOrdered(a: seq<Event>, b: seq<Event>)
    requires Apart(a, b)
    ensures Ordered(a, b) && Ordered(b, a)
  {
  }

  // ---------------------------------------------------------------------------------------------
  // The invariant
  // ---------------------------------------------------------------------------------------------

  /** What one activation holds, against the deliveries and the queue. */
  predicate HandOk(log: seq<Event>, pending: seq<Event>, calls: nat, f: Frame) {
    && Sorted(f.batch) && Sorted(f.drain) && Ordered(log, f.batch) && Ordered(log, f.drain)
    && Ordered(f.drain, pending) && Apart(f.batch, pending)
    && Numbered(f.batch, calls) && Numbered(f.drain, calls)
  }

  /** What two activations hold. */
  predicate HandsApart(f: Frame, f2: Frame) {
    Apart(f.batch, f2.batch) && Apart(f.batch, f2.drain) && Apart(f2.batch, f.drain)
  }

  predicate QueueOrdered(log: seq<Event>, pending: seq<Event>, calls: nat) {
    Sorted(log) && Sorted(pending) && Ordered(log, pending) && Numbered(log, calls) && Numbered(pending, calls)
  }

  ghost predicate OrderOk(s: State) {
    && QueueOrdered(s.log, s.sh.pending, s.calls)
    && (forall g, d :: At(s, g, d) ==> HandOk(s.log, s.sh.pending, s.calls, s.stacks[g][d]))
    && (forall g, d, g2, d2 :: At(s, g, d) && At(s, g2, d2) && (g != g2 || d != d2) ==>
          HandsApart(s.stacks[g][d], s.stacks[g2][d2]))
  }

  /** What a step does to the events: nothing, one delivery, handing over, or taking the queue. */
  predicate Effect(sh: Shared, f: Frame, m: Outcome) {
    m.Moved? ==>
      || (m.out == [] && m.f.batch == f.batch && m.f.drain == f.drain && m.sh.pending == sh.pending)
      || (m.f.drain == f.drain == [] && m.sh.pending == sh.pending
          && f.batch != [] && m.out == [f.batch[0]] && m.f.batch == f.batch[1..])
      || (m.f.batch == f.batch == [] && m.sh.pending == sh.pending && OwnsMu(f.pc)
          && f.drain != [] && m.out == [f.drain[0]] && m.f.drain == f.drain[1..])
      || (m.out == [] && m.f.drain == f.drain == [] && m.f.batch == [] && m.sh.pending == sh.pending + f.batch)
      || (m.out == [] && m.f.batch == f.batch == [] && f.drain == [] && OwnsMu(f.pc)
          && m.f.drain == sh.pending && m.sh.pending == [])
  }

  lemma SilentEffect(sh: Shared, f: Frame, m: Outcome)
    requires Silent(sh, f, m)
    ensures Effect(sh, f, m)
  {
  }

  predicate HandFree(f: Frame) {
    && (Spent(f.pc) ==> f.batch == [])
    && (f.drain != [] ==> f.pc == Drain(DrainClear) || f.pc == Drain(DrainUnlock) || f.pc == Drain(DrainDeliver))
  }

  lemma FastEffect(sh: Shared, f: Frame, p: FastPc)
    requires f.pc == Fast(p) && HandFree(f)
    ensures Effect(sh, f, FastMove(sh, f, p))
  {
  }

  lemma SlowEffect(sh: Shared, f: Frame, p: SlowPc)
    requires f.pc == Slow(p) && HandFree(f)
    ensures Effect(sh, f, SlowMove(sh, f, p))
  {
  }

  lemma DrainEffect(sh: Shared, g: Gid, d: nat, f: Frame, p: DrainPc)
    requires f.pc == Drain(p) && HandFree(f)
    ensures Effect(sh, f, DrainMove(sh, g, d, f, p))
  {
  }

  lemma EnqEffect(sh: Shared, g: Gid, d: nat, f: Frame, p: EnqPc)
    requires f.pc == Enq(p) && HandFree(f)
    ensures Effect(sh, f, EnqMove(sh, g, d, f, p))
  {
  }

  lemma MoveEffect(sh: Shared, v: View, g: Gid, d: nat, f: Frame, choice: bool)
    requires HandFree(f)
    ensures Effect(sh, f, Move(sh, v, g, d, f, choice))
  {
    hide Effect, HandFree, BeginMove, RegMove, ActMove, FastMove, SlowMove, DrainMove, FinMove, FindMove, TagMove,
      ResMove, SearchMove, MatchMove, EnqMove, LockMove;
    match f.pc
    case Fast(p) => FastEffect(sh, f, p);
    case Slow(p) => SlowEffect(sh, f, p);
    case Drain(p) => DrainEffect(sh, g, d, f, p);
    case Enq(p) => EnqEffect(sh, g, d, f, p);
    case _ => SilentEffect(sh, f, Move(sh, v, g, d, f, choice));
  }

  // ---------------------------------------------------------------------------------------------
  // One step keeps it
  // ---------------------------------------------------------------------------------------------

  /** The first event of `a` is delivered. */
  lemma Deliver(log: seq<Event>, a: seq<Event>, pending: seq<Event>)
    requires a != [] && Sorted(log) && Sorted(a) && Ordered(log, a) && Ordered(log, pending) && Ordered(a, pending)
    ensures Sorted(log + [a[0]]) && Ordered(log + [a[0]], a[1..]) && Ordered(log + [a[0]], pending)
    ensures Sorted(a[1..]) && Ordered(a[1..], pending)
  {
    hide Sorted, Ordered;
    assert a == [a[0]] + a[1..];
    SortedTail(a);
    SortedOne(a[0]);
    OrderedConcat([a[0]], a[1..], log);
    SortedConcat(log, [a[0]]);
    OrderedConcat(log, [a[0]], a[1..]);
    OrderedConcat([a[0]], a[1..], pending);
    OrderedConcat(log, [a[0]], pending);
  }

  lemma SortedOne(e: Event)
    ensures Sorted([e])
  {
  }

  lemma Fewer(a: seq<Event>, b: seq<Event>, calls: nat)
    requires a != []
    ensures Apart(a, b) ==> Apart(a[1..], b)
    ensures Apart(b, a) ==> Apart(b, a[1..])
    ensures Numbered(a, calls) ==> Numbered(a[1..], calls) && a[0].call < calls
  {
  }

  lemma NumberedConcat(a: seq<Event>, b: seq<Event>, calls: nat)
    requires Numbered(a, calls) && Numbered(b, calls)
    ensures Numbered(a + b, calls)
  {
  }

  lemma Nothing(a: seq<Event>, calls: nat)
    ensures Ordered(a, []) && Ordered([], a) && Apart([], a) && Apart(a, []) && Sorted([]) && Numbered([], calls)
  {
  }

  lemma StepHand(sh: Shared, f: Frame, m: Outcome, log: seq<Event>, calls: nat)
    requires m.Moved? && Effect(sh, f, m) && QueueOrdered(log, sh.pending, calls) && HandOk(log, sh.pending, calls, f)
    ensures QueueOrdered(log + m.out, m.sh.pending, calls) && HandOk(log + m.out, m.sh.pending, calls, m.f)
  {
    hide Sorted, Ordered, Apart, Numbered;
    Nothing(log, calls);
    Nothing(log + m.out, calls);
    Nothing(sh.pending, calls);
    Nothing(m.sh.pending, calls);
    if m.out == [] {
      assert log + m.out == log;
      if f.batch == [] {
        assert sh.pending + f.batch == sh.pending;
      } else if m.f.batch == [] {
        ApartOrdered(f.batch, sh.pending);
        SortedConcat(sh.pending, f.batch);
        OrderedConcat(sh.pending, f.batch, log);
        NumberedConcat(sh.pending, f.batch, calls);
      }
    } else if f.drain == [] {
      ApartOrdered(f.batch, sh.pending);
      Deliver(log, f.batch, sh.pending);
      Fewer(f.batch, sh.pending, calls);
      NumberedOne(f.batch[0], calls);
      NumberedConcat(log, m.out, calls);
    } else {
      Deliver(log, f.drain, sh.pending);
      Fewer(f.drain, sh.pending, calls);
      NumberedOne(f.drain[0], calls);
      NumberedConcat(log, m.out, calls);
    }
  }

  lemma NumberedOne(e: Event, calls: nat)
    requires e.call < calls
    ensures Numbered([e], calls)
  {
  }

  lemma StepOtherHand(sh: Shared, f: Frame, m: Outcome, log: seq<Event>, calls: nat, f2: Frame)
    requires m.Moved? && Effect(sh, f, m) && HandOk(log, sh.pending, calls, f2) && HandsApart(f, f2)
    requires OwnsMu(f.pc) ==> f2.drain == []
    ensures HandOk(log + m.out, m.sh.pending, calls, f2) && HandsApart(m.f, f2) && HandsApart(f2, m.f)
  {
    OrderedConcat(log, m.out, f2.batch);
    OrderedConcat(log, m.out, f2.drain);
    OrderedConcat(sh.pending, f.batch, f2.drain);
  }

  // ---------------------------------------------------------------------------------------------
  // Every action keeps it
  // ---------------------------------------------------------------------------------------------

  lemma FreeAt(s: State, g: Gid, d: nat)
    requires Inv(s) && At(s, g, d)
    ensures HandFree(s.stacks[g][d]) && (OwnsMu(s.stacks[g][d].pc) <==> s.sh.mu == Held(g, d))
  {
    hide CallerOk, NestedOk;
    assert FrameOk(s.sh, OwnerView(s), g, d, s.stacks[g][d]);
  }

  /** Only the holder has taken events from the queue. */
  lemma OneDrain(s: State, g: Gid, d: nat, g2: Gid, d2: nat)
    requires Inv(s) && At(s, g, d) && At(s, g2, d2) && (g != g2 || d != d2) && OwnsMu(s.stacks[g][d].pc)
    ensures s.stacks[g2][d2].drain == []
  {
    hide Inv;
    FreeAt(s, g, d);
    FreeAt(s, g2, d2);
  }

  lemma RunKeepsOrder(s: State, g: Gid, choice: bool)
    requires Inv(s) && OrderOk(s) && Enabled(s, Run(g, choice))
    ensures OrderOk(Apply(s, Run(g, choice)))
  {
    hide Inv, Move, HandOk, HandsApart, QueueOrdered, Effect, OwnerView, HandFree;
    var d := |s.stacks[g]| - 1;
    var f, v, s' := s.stacks[g][d], OwnerView(s), Apply(s, Run(g, choice));
    var m := Move(s.sh, v, g, d, f, choice);
    assert At(s, g, d);
    FreeAt(s, g, d);
    MoveEffect(s.sh, v, g, d, f, choice);
    StepHand(s.sh, f, m, s.log, s.calls);
    forall g2, d2 | At(s', g2, d2) && (g2 != g || d2 != d)
      ensures HandOk(s'.log, s'.sh.pending, s'.calls, s'.stacks[g2][d2])
      ensures HandsApart(m.f, s'.stacks[g2][d2]) && HandsApart(s'.stacks[g2][d2], m.f)
    {
      assert At(s, g2, d2);
      if OwnsMu(f.pc) {
        OneDrain(s, g, d, g2, d2);
      }
      StepOtherHand(s.sh, f, m, s.log, s.calls, s.stacks[g2][d2]);
    }
    forall g2, d2, g3, d3 | At(s', g2, d2) && At(s', g3, d3) && (g2 != g3 || d2 != d3)
      ensures HandsApart(s'.stacks[g2][d2], s'.stacks[g3][d3])
    {
      assert At(s, g2, d2) && At(s, g3, d3);
    }
  }

  lemma NewHand(s: State, size: nat, f: Frame)
    requires QueueOrdered(s.log, s.sh.pending, s.calls) && HandOk(s.log, s.sh.pending, s.calls, f)
    ensures var b := NewFrame(Batch(s.calls, size));
            && HandOk(s.log, s.sh.pending, s.calls + 1, b) && HandOk(s.log, s.sh.pending, s.calls + 1, f)
            && HandsApart(b, f) && HandsApart(f, b)
  {
  }

  lemma FirstHand(s: State, size: nat)
    requires QueueOrdered(s.log, s.sh.pending, s.calls)
    ensures HandOk(s.log, s.sh.pending, s.calls + 1, NewFrame(Batch(s.calls, size)))
    ensures QueueOrdered(s.log, s.sh.pending, s.calls + 1)
  {
  }

  lemma InvokeKeepsOrder(s: State, g: Gid, size: nat)
    requires OrderOk(s) && Enabled(s, Invoke(g, size))
    ensures OrderOk(Apply(s, Invoke(g, size)))
  {
    hide HandOk, HandsApart, QueueOrdered;
    var s' := Apply(s, Invoke(g, size));
    var n := |StackOf(s, g)|;
    FirstHand(s, size);
    forall g2, d2 | At(s', g2, d2) && (g2 != g || d2 != n)
      ensures At(s, g2, d2) && s'.stacks[g2][d2] == s.stacks[g2][d2]
      ensures HandOk(s'.log, s'.sh.pending, s'.calls, s'.stacks[g2][d2])
      ensures HandsApart(s'.stacks[g][n], s'.stacks[g2][d2]) && HandsApart(s'.stacks[g2][d2], s'.stacks[g][n])
    {
      assert At(s, g2, d2);
      NewHand(s, size, s.stacks[g2][d2]);
    }
  }

  lemma OthersKeepOrder(s: State, a: Action)
    requires OrderOk(s) && Enabled(s, a) && (a.Return? || a.Borrow? || a.GiveBack?)
    ensures OrderOk(Apply(s, a))
  {
    hide HandOk, HandsApart, QueueOrdered;
    var s' := Apply(s, a);
    forall g, d | At(s', g, d)
      ensures At(s, g, d) && s'.stacks[g][d] == s.stacks[g][d]
    {
    }
  }

  lemma {:induction false} RunsKeepOrder(s: State, acts: seq<Action>, t: State)
    requires Inv(s) && Conserved(s) && OrderOk(s) && Reaches(s, acts, t)
    ensures OrderOk(t)
    decreases |acts|
  {
    hide Inv, Conserved, OrderOk, Enabled, Apply;
    if acts != [] {
      ActionKeeps(s, acts[0]);
      match acts[0] {
        case Run(g, choice) => RunKeepsOrder(s, g, choice);
        case Invoke(g, size) => InvokeKeepsOrder(s, g, size);
        case _ => OthersKeepOrder(s, acts[0]);
      }
      RunsKeepOrder(Apply(s, acts[0]), acts[1..], t);
    }
  }

  /** In every reachable state, the deliveries of one call are in the order of its batch, and none is repeated. */
  lemma InOrder(t: State, i: nat, j: nat)
    requires Reachable(t) && i < |t.log| && j < |t.log| && t.log[i].call == t.log[j].call
    ensures i < j <==> t.log[i].pos < t.log[j].pos
  {
    var s, acts :| Init(s) && Reaches(s, acts, t);
    RunsKeepOrder(s, acts, t);
  }
}

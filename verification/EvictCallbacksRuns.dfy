/**
 The theorems about whole runs of the callback delivery protocol.
 */
module EvictCallbacksRuns {
  import opened EvictCallbacks
  import opened EvictCallbacksSafety

  // ---------------------------------------------------------------------------------------------
  // Every action keeps the invariant
  // ---------------------------------------------------------------------------------------------

  lemma InvGivesView(s: State)
    requires Inv(s)
    ensures ViewOk(s.sh, OwnerView(s))
  {
    if s.sh.mu.Held? {
      assert At(s, s.sh.mu.gid, s.sh.mu.depth);
    }
  }

  /** A step touches the two mutexes only by taking them for itself or giving them back. */
  lemma MutexFrame(sh: Shared, v: View, g: Gid, d: nat, f: Frame, choice: bool)
    requires Move(sh, v, g, d, f, choice).Moved?
    ensures var m := Move(sh, v, g, d, f, choice);
            && (m.sh.rmu == sh.rmu || m.sh.rmu == Free || m.sh.rmu == Held(g, d))
            && (!OwnsMu(f.pc) && !OwnsMu(m.f.pc) ==> m.sh.mu == sh.mu)
  {
    hide BeginMove, RegMove, ActMove, FastMove, SlowMove, DrainMove, FinMove, FindMove, TagMove, ResMove, SearchMove,
      MatchMove, EnqMove, LockMove;
  }

  /** A non-innermost activation is running callbacks, so it is the holder. */
  lemma LowerIsOwner(s: State, g: Gid, d: nat)
    requires Inv(s) && At(s, g, d) && d < |s.stacks[g]| - 1
    ensures s.sh.mu == Held(g, d) && OwnsMu(s.stacks[g][d].pc)
  {
    assert FrameOk(s.sh, OwnerView(s), g, d, s.stacks[g][d]);
  }

  lemma NewOwnerView(s: State, g: Gid, choice: bool)
    requires Inv(s) && Enabled(s, Run(g, choice))
    ensures var d := |s.stacks[g]| - 1; var v := OwnerView(s);
            var m := Move(s.sh, v, g, d, s.stacks[g][d], choice);
            OwnerView(Apply(s, Run(g, choice))) == NextView(v, g, s.stacks[g][d], m.f)
  {
    hide Move, OwnerOk, CallerOk;
    var d := |s.stacks[g]| - 1;
    var v := OwnerView(s);
    var f := s.stacks[g][d];
    var m := Move(s.sh, v, g, d, f, choice);
    assert At(s, g, d);
    InvGivesView(s);
    StepShared(s.sh, v, g, d, f, choice);
    StepOwn(s.sh, v, g, d, f, choice);
    MutexFrame(s.sh, v, g, d, f, choice);
  }

  lemma RunKeepsOther(s: State, g: Gid, choice: bool, g2: Gid, d2: nat)
    requires Inv(s) && Enabled(s, Run(g, choice)) && At(s, g2, d2) && (g2 != g || d2 != |s.stacks[g]| - 1)
    ensures var v := OwnerView(s); var d := |s.stacks[g]| - 1;
            var m := Move(s.sh, v, g, d, s.stacks[g][d], choice);
            FrameOk(m.sh, NextView(v, g, s.stacks[g][d], m.f), g2, d2, s.stacks[g2][d2])
  {
    var d := |s.stacks[g]| - 1;
    InvGivesView(s);
    assert At(s, g, d);
    if g2 == g {
      LowerIsOwner(s, g, d2);
    }
    assert FrameOk(s.sh, OwnerView(s), g, d, s.stacks[g][d]);
    StepOther(s.sh, OwnerView(s), g, d, s.stacks[g][d], choice, g2, d2, s.stacks[g2][d2]);
  }

  lemma RunKeepsFrames(s: State, g: Gid, choice: bool, g2: Gid, d2: nat)
    requires Inv(s) && Enabled(s, Run(g, choice)) && At(s, g2, d2)
    ensures var s' := Apply(s, Run(g, choice));
            && FrameOk(s'.sh, OwnerView(s'), g2, d2, s'.stacks[g2][d2])
            && (d2 < |s'.stacks[g2]| - 1 ==> Delivering(s'.stacks[g2][d2].pc))
  {
    hide Move, OwnerOk, FrameOk, ViewOk, NextView;
    var d := |s.stacks[g]| - 1;
    assert At(s, g, d);
    InvGivesView(s);
    NewOwnerView(s, g, choice);
    if g2 != g || d2 != d {
      RunKeepsOther(s, g, choice, g2, d2);
    } else {
      StepOwn(s.sh, OwnerView(s), g, d, s.stacks[g][d], choice);
    }
  }

  lemma RunKeepsInv(s: State, g: Gid, choice: bool)
    requires Inv(s) && Enabled(s, Run(g, choice))
    ensures Inv(Apply(s, Run(g, choice)))
  {
    hide Move, OwnerOk, FrameOk;
    var d := |s.stacks[g]| - 1;
    var s' := Apply(s, Run(g, choice));
    assert At(s, g, d);
    InvGivesView(s);
    StepShared(s.sh, OwnerView(s), g, d, s.stacks[g][d], choice);
    MutexFrame(s.sh, OwnerView(s), g, d, s.stacks[g][d], choice);
    NewOwnerView(s, g, choice);
    forall g2, d2 | At(s', g2, d2)
      ensures FrameOk(s'.sh, OwnerView(s'), g2, d2, s'.stacks[g2][d2])
      ensures d2 < |s'.stacks[g2]| - 1 ==> Delivering(s'.stacks[g2][d2].pc)
    {
      RunKeepsFrames(s, g, choice, g2, d2);
    }
  }

  lemma InvokeKeepsInv(s: State, g: Gid, size: nat)
    requires Inv(s) && Enabled(s, Invoke(g, size))
    ensures Inv(Apply(s, Invoke(g, size)))
  {
    var s' := Apply(s, Invoke(g, size));
    var n := |StackOf(s, g)|;
    InvGivesView(s);
    assert OwnerView(s') == OwnerView(s);
    if s.sh.mu.Held? && s.sh.mu.gid == g {
      assert At(s, g, s.sh.mu.depth);
    }
    forall g2, d2 | At(s', g2, d2)
      ensures FrameOk(s'.sh, OwnerView(s'), g2, d2, s'.stacks[g2][d2])
      ensures d2 < |s'.stacks[g2]| - 1 ==> Delivering(s'.stacks[g2][d2].pc)
    {
      if g2 == g && d2 == n {
        assert !At(s, g, n);
      } else {
        assert At(s, g2, d2);
      }
    }
  }

  lemma ReturnKeepsInv(s: State, g: Gid)
    requires Inv(s) && Enabled(s, Return(g))
    ensures Inv(Apply(s, Return(g)))
  {
    var s' := Apply(s, Return(g));
    assert At(s, g, |s.stacks[g]| - 1);
    assert OwnerView(s') == OwnerView(s);
    forall g2, d2 | At(s', g2, d2)
      ensures FrameOk(s'.sh, OwnerView(s'), g2, d2, s'.stacks[g2][d2])
      ensures d2 < |s'.stacks[g2]| - 1 ==> Delivering(s'.stacks[g2][d2].pc)
    {
      assert At(s, g2, d2);
    }
  }

  lemma LeaseKeepsInv(s: State, a: Action)
    requires Inv(s) && Enabled(s, a) && (a.Borrow? || a.GiveBack?)
    ensures Inv(Apply(s, a))
  {
    var s' := Apply(s, a);
    assert OwnerView(s') == OwnerView(s) == NoOwner;
    forall g2, d2 | At(s', g2, d2)
      ensures FrameOk(s'.sh, OwnerView(s'), g2, d2, s'.stacks[g2][d2])
      ensures d2 < |s'.stacks[g2]| - 1 ==> Delivering(s'.stacks[g2][d2].pc)
    {
      assert At(s, g2, d2);
    }
  }

  // ---------------------------------------------------------------------------------------------
  // Conservation of events
  // ---------------------------------------------------------------------------------------------

  function FrameEvents(f: Frame): multiset<Event> { multiset(f.batch) + multiset(f.drain) }

  function StackEvents(st: seq<Frame>): multiset<Event> {
    if st == [] then multiset{} else StackEvents(st[..|st| - 1]) + FrameEvents(st[|st| - 1])
  }

  function EventsOf(stacks: map<Gid, seq<Frame>>, g: Gid): multiset<Event> {
    if g in stacks then StackEvents(stacks[g]) else multiset{}
  }

  /** All events in the hands of the activations of the goroutines in `gs`. */
  ghost function EventsOver(gs: set<Gid>, stacks: map<Gid, seq<Frame>>): multiset<Event> {
    if gs == {} then multiset{}
    else
      var g :| g in gs;
      EventsOf(stacks, g) + EventsOver(gs - {g}, stacks)
  }

  lemma {:induction false} EventsSplit(gs: set<Gid>, stacks: map<Gid, seq<Frame>>, g: Gid)
    requires g in gs
    ensures EventsOver(gs, stacks) == EventsOf(stacks, g) + EventsOver(gs - {g}, stacks)
  {
    var h :| h in gs && EventsOver(gs, stacks) == EventsOf(stacks, h) + EventsOver(gs - {h}, stacks);
    if h != g {
      EventsSplit(gs - {h}, stacks, g);
      EventsSplit(gs - {g}, stacks, h);
      assert (gs - {h}) - {g} == (gs - {g}) - {h};
    }
  }

  lemma {:induction false} EventsFrame(gs: set<Gid>, stacks: map<Gid, seq<Frame>>, stacks': map<Gid, seq<Frame>>)
    requires forall g :: g in gs ==> EventsOf(stacks, g) == EventsOf(stacks', g)
    ensures EventsOver(gs, stacks) == EventsOver(gs, stacks')
  {
    if gs != {} {
      var g :| g in gs;
      EventsSplit(gs, stacks, g);
      EventsSplit(gs, stacks', g);
      EventsFrame(gs - {g}, stacks, stacks');
    }
  }

  /** Nothing is lost or duplicated: every submitted event is delivered, pending, or held. */
  ghost predicate Conserved(s: State) {
    s.submitted == multiset(s.log) + multiset(s.sh.pending) + EventsOver(s.stacks.Keys, s.stacks)
  }

  lemma Parts(all: seq<Event>, a: seq<Event>, b: seq<Event>)
    requires all == a + b
    ensures multiset(all) == multiset(a) + multiset(b)
  {
  }

  /** Delivery takes one event at a time from the front of the batch. */
  lemma FastOut(sh: Shared, f: Frame, p: FastPc)
    ensures var m := FastMove(sh, f, p); f.batch == m.out + m.f.batch
  {
  }

  lemma SlowOut(sh: Shared, f: Frame, p: SlowPc)
    ensures var m := SlowMove(sh, f, p); f.batch == m.out + m.f.batch
  {
  }

  /** The drain takes over the whole queue and delivers it one by one. */
  lemma DrainOut(sh: Shared, g: Gid, d: nat, f: Frame, p: DrainPc)
    requires DrainMove(sh, g, d, f, p).Moved?
    ensures var m := DrainMove(sh, g, d, f, p);
            if p.DrainTake? then m.f.drain == sh.pending && m.sh.pending == [] && m.out == []
            else f.drain == m.out + m.f.drain && m.sh.pending == sh.pending
  {
  }

  /** Handing over moves the batch to the queue. */
  lemma EnqueueOut(sh: Shared, g: Gid, d: nat, f: Frame, p: EnqPc)
    requires EnqMove(sh, g, d, f, p).Moved?
    ensures var m := EnqMove(sh, g, d, f, p); sh.pending + f.batch == m.sh.pending + m.f.batch
  {
  }

  /** The step neither loses nor copies an event. */
  predicate Accounted(sh: Shared, f: Frame, m: Outcome) {
    m.Moved? ==> FrameEvents(f) + multiset(sh.pending) == FrameEvents(m.f) + multiset(m.sh.pending) + multiset(m.out)
  }

  lemma SilentConserves(sh: Shared, f: Frame, m: Outcome)
    requires Silent(sh, f, m)
    ensures Accounted(sh, f, m)
  {
  }

  lemma BatchConserves(sh: Shared, f: Frame, m: Outcome)
    requires m.Moved? && f.batch == m.out + m.f.batch && m.f.drain == f.drain && m.sh.pending == sh.pending
    ensures Accounted(sh, f, m)
  {
    Parts(f.batch, m.out, m.f.batch);
  }

  lemma DrainConserves(sh: Shared, g: Gid, d: nat, f: Frame, p: DrainPc)
    requires p.DrainTake? ==> f.drain == []
    ensures Accounted(sh, f, DrainMove(sh, g, d, f, p))
  {
    hide DrainMove;
    var m := DrainMove(sh, g, d, f, p);
    if m.Moved? {
      DrainOut(sh, g, d, f, p);
      if !p.DrainTake? {
        Parts(f.drain, m.out, m.f.drain);
      }
    }
  }

  lemma EnqueueConserves(sh: Shared, g: Gid, d: nat, f: Frame, p: EnqPc)
    ensures Accounted(sh, f, EnqMove(sh, g, d, f, p))
  {
    hide EnqMove;
    var m := EnqMove(sh, g, d, f, p);
    if m.Moved? {
      EnqueueOut(sh, g, d, f, p);
      Parts(sh.pending + f.batch, sh.pending, f.batch);
      Parts(m.sh.pending + m.f.batch, m.sh.pending, m.f.batch);
      Regroup(multiset(f.batch), multiset(f.drain), multiset(sh.pending));
      Regroup(multiset(m.f.batch), multiset(f.drain), multiset(m.sh.pending));
    }
  }

  lemma Regroup(b: multiset<Event>, drain: multiset<Event>, p: multiset<Event>)
    ensures (b + drain) + p == (p + b) + drain
  {
  }

  lemma MoveConserves(sh: Shared, v: View, g: Gid, d: nat, f: Frame, choice: bool)
    requires Move(sh, v, g, d, f, choice).Moved? && (f.pc == Drain(DrainTake) ==> f.drain == [])
    ensures Accounted(sh, f, Move(sh, v, g, d, f, choice))
  {
    hide BeginMove, RegMove, ActMove, FastMove, SlowMove, DrainMove, FinMove, FindMove, TagMove, ResMove, SearchMove,
      MatchMove, EnqMove, LockMove, Accounted;
    var m := Move(sh, v, g, d, f, choice);
    match f.pc
    case Fast(p) =>
      FastOut(sh, f, p);
      BatchConserves(sh, f, m);
    case Slow(p) =>
      SlowOut(sh, f, p);
      BatchConserves(sh, f, m);
    case Enq(p) => EnqueueConserves(sh, g, d, f, p);
    case Drain(p) => DrainConserves(sh, g, d, f, p);
    case _ => SilentConserves(sh, f, m);
  }

  /** The bookkeeping identity behind one step, on bare multisets. */
  lemma Bookkeeping(submitted: multiset<Event>, delivered: multiset<Event>, total: multiset<Event>,
      total': multiset<Event>,
                    lower: multiset<Event>, f: multiset<Event>, f': multiset<Event>,
                    p: multiset<Event>, p': multiset<Event>, out: multiset<Event>)
    requires submitted == delivered + p + total
    requires total' + (lower + f) == total + (lower + f')
    requires f + p == f' + p' + out
    ensures submitted == (delivered + out) + p' + total'
  {
    forall e
      ensures submitted[e] == ((delivered + out) + p' + total')[e]
    {
      assert (total' + (lower + f))[e] == (total + (lower + f'))[e];
      assert (f + p)[e] == (f' + p' + out)[e];
    }
  }

  /** Changing one stack changes the total by exactly the difference of that stack. */
  lemma ReplaceStack(stacks: map<Gid, seq<Frame>>, g: Gid, st: seq<Frame>)
    ensures var stacks' := stacks[g := st];
            EventsOver(stacks'.Keys, stacks') + EventsOf(stacks, g) == EventsOver(stacks.Keys, stacks) + StackEvents(st)
  {
    hide EventsOver, StackEvents;
    var stacks' := stacks[g := st];
    var others := stacks'.Keys - {g};
    EventsSplit(stacks'.Keys, stacks', g);
    EventsFrame(others, stacks, stacks');
    if g in stacks {
      EventsSplit(stacks.Keys, stacks, g);
      assert stacks'.Keys == stacks.Keys;
    } else {
      assert others == stacks.Keys;
    }
    Exchange(EventsOver(stacks'.Keys, stacks'), EventsOver(stacks.Keys, stacks), EventsOver(others, stacks),
             EventsOf(stacks, g), StackEvents(st));
  }

  lemma Exchange(total': multiset<Event>, total: multiset<Event>, rest: multiset<Event>,
                 before: multiset<Event>, after: multiset<Event>)
    requires total' == after + rest && total == before + rest
    ensures total' + before == total + after
  {
  }

  lemma RunConserves(s: State, g: Gid, choice: bool)
    requires Conserved(s) && Enabled(s, Run(g, choice))
    requires var f := s.stacks[g][|s.stacks[g]| - 1]; f.pc == Drain(DrainTake) ==> f.drain == []
    ensures Conserved(Apply(s, Run(g, choice)))
  {
    hide Move, EventsOver, FrameEvents, OwnerView;
    var d := |s.stacks[g]| - 1;
    var f := s.stacks[g][d];
    var m := Move(s.sh, OwnerView(s), g, d, f, choice);
    var st' := s.stacks[g][d := m.f];
    var stacks' := s.stacks[g := st'];
    MoveConserves(s.sh, OwnerView(s), g, d, f, choice);
    ReplaceStack(s.stacks, g, st');
    assert st'[..d] == s.stacks[g][..d];
    assert StackEvents(st') == StackEvents(st'[..d]) + FrameEvents(m.f);
    assert StackEvents(s.stacks[g]) == StackEvents(st'[..d]) + FrameEvents(f);
    Parts(s.log + m.out, s.log, m.out);
    Bookkeeping(s.submitted, multiset(s.log), EventsOver(s.stacks.Keys, s.stacks), EventsOver(stacks'.Keys, stacks'),
                StackEvents(st'[..d]), FrameEvents(f), FrameEvents(m.f),
                multiset(s.sh.pending), multiset(m.sh.pending), multiset(m.out));
  }

  lemma InvokeConserves(s: State, g: Gid, size: nat)
    requires Conserved(s) && Enabled(s, Invoke(g, size))
    ensures Conserved(Apply(s, Invoke(g, size)))
  {
    var batch := Batch(s.calls, size);
    var st := StackOf(s, g);
    var st' := st + [NewFrame(batch)];
    var stacks' := s.stacks[g := st'];
    ReplaceStack(s.stacks, g, st');
    assert st'[..|st|] == st;
    assert FrameEvents(NewFrame(batch)) == multiset(batch);
    assert StackEvents(st') == StackEvents(st) + multiset(batch);
    assert EventsOf(s.stacks, g) == StackEvents(st);
    hide EventsOver, StackEvents, EventsOf;
    Growth(s.submitted, multiset(s.log) + multiset(s.sh.pending), EventsOver(s.stacks.Keys, s.stacks),
           EventsOver(stacks'.Keys, stacks'), StackEvents(st), multiset(batch));
  }

  lemma Growth(submitted: multiset<Event>, rest: multiset<Event>, total: multiset<Event>, total': multiset<Event>,
               st: multiset<Event>, batch: multiset<Event>)
    requires submitted == rest + total && total' + st == total + (st + batch)
    ensures submitted + batch == rest + total'
  {
    forall e
      ensures (submitted + batch)[e] == (rest + total')[e]
    {
      assert (total' + st)[e] == (total + (st + batch))[e];
    }
  }

  lemma ReturnConserves(s: State, g: Gid)
    requires Conserved(s) && Enabled(s, Return(g))
    requires FrameEvents(s.stacks[g][|s.stacks[g]| - 1]) == multiset{}
    ensures Conserved(Apply(s, Return(g)))
  {
    var d := |s.stacks[g]| - 1;
    var st := s.stacks[g][..d];
    var stacks' := s.stacks[g := st];
    ReplaceStack(s.stacks, g, st);
    assert EventsOf(s.stacks, g) == StackEvents(st);
    hide EventsOver, StackEvents, EventsOf, FrameEvents;
    Growth(s.submitted, multiset(s.log) + multiset(s.sh.pending), EventsOver(s.stacks.Keys, s.stacks),
           EventsOver(stacks'.Keys, stacks'), StackEvents(st), multiset{});
  }

  /** A finished activation has nothing left, and one about to take the queue has an empty hand. */
  lemma EmptyHanded(s: State, g: Gid)
    requires Inv(s) && StackOf(s, g) != []
    ensures var f := s.stacks[g][|s.stacks[g]| - 1];
            && (f.pc == Drain(DrainTake) ==> f.drain == [])
            && (f.pc.Done? ==> FrameEvents(f) == multiset{})
  {
    hide CallerOk, OwnerOk;
    assert At(s, g, |s.stacks[g]| - 1);
  }

  /** The invariant and the conservation law survive every action. */
  lemma ActionKeeps(s: State, a: Action)
    requires Inv(s) && Conserved(s) && Enabled(s, a)
    ensures Inv(Apply(s, a)) && Conserved(Apply(s, a))
  {
    hide Inv, Move, FrameEvents, EventsOver, OwnerView;
    match a
    case Invoke(g, size) =>
      InvokeKeepsInv(s, g, size);
      InvokeConserves(s, g, size);
    case Run(g, choice) =>
      EmptyHanded(s, g);
      RunKeepsInv(s, g, choice);
      RunConserves(s, g, choice);
    case Return(g) =>
      EmptyHanded(s, g);
      ReturnKeepsInv(s, g);
      ReturnConserves(s, g);
    case _ =>
      LeaseKeepsInv(s, a);
  }

  lemma {:induction false} RunsKeep(s: State, acts: seq<Action>, t: State)
    requires Inv(s) && Conserved(s) && Reaches(s, acts, t)
    ensures Inv(t) && Conserved(t)
    decreases |acts|
  {
    hide Inv, Conserved, Enabled, Apply;
    if acts != [] {
      ActionKeeps(s, acts[0]);
      RunsKeep(Apply(s, acts[0]), acts[1..], t);
    }
  }

  /** The invariant holds in every state of every run. */
  lemma ReachableInv(t: State)
    requires Reachable(t)
    ensures Inv(t) && Conserved(t)
  {
    var s, acts :| Init(s) && Reaches(s, acts, t);
    RunsKeep(s, acts, t);
  }

  // ---------------------------------------------------------------------------------------------
  // Theorems
  // ---------------------------------------------------------------------------------------------

  /** Every call has returned. */
  ghost predicate AllEnded(t: State) {
    forall g :: g in t.stacks ==> t.stacks[g] == []
  }

  /** An event is never delivered twice, and once every call has returned all have been delivered. */
  lemma ExactlyOnce(t: State)
    requires Reachable(t)
    ensures multiset(t.log) <= t.submitted
    ensures AllEnded(t) ==> multiset(t.log) == t.submitted
  {
    ReachableInv(t);
    if AllEnded(t) {
      EventsFrame(t.stacks.Keys, t.stacks, map[]);
      NoEvents(t.stacks.Keys);
    }
  }

  lemma {:induction false} NoEvents(gs: set<Gid>)
    ensures EventsOver(gs, map[]) == multiset{}
  {
    if gs != {} {
      var g :| g in gs;
      EventsSplit(gs, map[], g);
      NoEvents(gs - {g});
    }
  }

  /** The holder has read the pending queue for the last time. */
  predicate PastLastLook(pc: Pc) {
    pc == Fast(FastUnlock) ||
    (pc.Fin? && !pc.fin.FinLock? && !pc.fin.FinPending? && !pc.fin.FinQueue? && !pc.fin.FinRetry?)
  }

  /** Pending work always has a holder that will still look at it: a free mutex means an empty queue. */
  lemma NothingStranded(t: State)
    requires Reachable(t) && (t.sh.pending != [] || t.sh.flag)
    ensures t.sh.mu.Held? && At(t, t.sh.mu.gid, t.sh.mu.depth)
    ensures !PastLastLook(t.stacks[t.sh.mu.gid][t.sh.mu.depth].pc)
  {
    hide CallerOk, Reachable, Conserved;
    ReachableInv(t);
  }

  /** Callbacks of one cache never run concurrently. */
  lemma Serialized(t: State, g: Gid, d: nat, g2: Gid, d2: nat)
    requires Reachable(t) && At(t, g, d) && At(t, g2, d2)
    requires Delivering(t.stacks[g][d].pc) && Delivering(t.stacks[g2][d2].pc)
    ensures g == g2 && d == d2
  {
    ReachableInv(t);
  }

  /** A callback that calls back into the cache never waits for the mutex its goroutine holds. */
  lemma NoSelfDeadlock(t: State, g: Gid, d: nat)
    requires Reachable(t) && At(t, g, d) && t.stacks[g][d].pc == Wait
    ensures !(t.sh.mu.Held? && t.sh.mu.gid == g)
  {
    ReachableInv(t);
    InvGivesView(t);
  }

  /** Only the two mutexes can block a step. */
  lemma OnlyLocksBlock(sh: Shared, v: View, g: Gid, d: nat, f: Frame, choice: bool)
    requires sh.rmu.Free? || HasRmu(f.pc)
    requires f.pc.Wait? ==> sh.mu.Free?
    requires !f.pc.Done?
    ensures Move(sh, v, g, d, f, choice).Moved?
  {
    hide BeginMove, RegMove, ActMove, FastMove, SlowMove, DrainMove, FinMove, FindMove, TagMove, ResMove, SearchMove,
      MatchMove, EnqMove, LockMove;
  }

  /** The innermost activation of `g` can move on. */
  lemma TopMoves(t: State, g: Gid) returns (a: Action)
    requires g in t.stacks && t.stacks[g] != []
    requires var f := t.stacks[g][|t.stacks[g]| - 1];
             (t.sh.rmu.Free? || HasRmu(f.pc)) && (f.pc.Wait? ==> t.sh.mu.Free?)
    ensures Enabled(t, a) && (a.Run? || a.Return?)
  {
    var d := |t.stacks[g]| - 1;
    var f := t.stacks[g][d];
    if f.pc.Done? {
      a := Return(g);
    } else {
      OnlyLocksBlock(t.sh, OwnerView(t), g, d, f, true);
      a := Run(g, true);
    }
  }

  /** No deadlock: while any call is unfinished, some activation can move or the lease comes back. */
  lemma Progress(t: State, g: Gid) returns (a: Action)
    requires Reachable(t) && g in t.stacks && t.stacks[g] != []
    ensures Enabled(t, a) && (a.Run? || a.Return? || a.GiveBack?)
  {
    ReachableInv(t);
    InvGivesView(t);
    hide Move, Enabled, OwnerOk, CallerOk;
    if t.sh.rmu.Held? {
      var h, d := t.sh.rmu.gid, t.sh.rmu.depth;
      assert At(t, h, d);
      a := TopMoves(t, h);
    } else if t.sh.mu.Lessee? {
      hide *;
      a := GiveBack;
    } else if t.sh.mu.Held? {
      var h, d := t.sh.mu.gid, t.sh.mu.depth;
      assert At(t, h, d);
      assert At(t, h, |t.stacks[h]| - 1);
      a := TopMoves(t, h);
    } else {
      a := TopMoves(t, g);
    }
  }
}

/**
 Calls of the callback delivery protocol end.  Five counts, compared in order, go down with every step of
 every activation, whatever the interleaving and whatever the answers of TryLock and of the stack searches:
 the callers that may still hand over their batch or become the holder, the pending flag, the activations
 that may take the mutex once more, the work left to the holder, and the work left to the callers.  So a
 run without new calls cannot go on forever; as some step is always possible while a call is unfinished,
 it ends with all calls returned and all events delivered.
 */
module EvictCallbacksEnds {
  import opened EvictCallbacks
  import opened EvictCallbacksSafety
  import opened EvictCallbacksRuns

  // ---------------------------------------------------------------------------------------------
  // What is known of the pending queue
  // ---------------------------------------------------------------------------------------------

  /** The holder takes the queue only while the flag is up, and clears the flag with the queue empty. */
  predicate TakeOk(sh: Shared, pc: Pc) {
    && (pc == Drain(DrainLock) || pc == Drain(DrainTake) || pc == Drain(DrainClear) ==> sh.flag)
    && (pc == Drain(DrainClear) ==> sh.pending == [])
  }

  /** The activation that has the resolve mutex is at `pc`: only between its two stores is the queue unannounced. */
  predicate Announcing(sh: Shared, pc: Pc) {
    sh.pending != [] && !sh.flag ==> pc == Enq(EnqFlag)
  }

  /** A step that leaves queue and flag alone, and leads to no point that depends on them. */
  predicate Quiet(sh: Shared, f: Frame, m: Outcome) {
    m.Moved? ==>
      && m.sh.pending == sh.pending && m.sh.flag == sh.flag
      && (m.sh.rmu == sh.rmu || HasRmu(f.pc) || sh.rmu.Free?)
      && m.f.pc != Drain(DrainLock) && m.f.pc != Drain(DrainTake) && m.f.pc != Drain(DrainClear)
      && m.f.pc != Enq(EnqFlag)
  }

  // ---------------------------------------------------------------------------------------------
  // The counts
  // ---------------------------------------------------------------------------------------------

  /** What is counted per activation. */
  datatype Level = Raising | Retrying | Holding | Calling

  /** Callers that have neither handed over their batch nor become the holder. */
  predicate Raises(pc: Pc) {
    || pc.Enter? || pc.Find? || pc.Tag? || pc.Res? || pc.Search? || pc.Match? || pc.Wait?
    || (pc.Enq? && !pc.enq.EnqUnlock?)
  }

  /** Activations that may still take the mutex for a second hold: while the flag is up every one that has had it. */
  predicate Retries(pc: Pc, flag: bool) {
    pc.PostTry? || (flag && (OwnsMu(pc) || pc.PostCheck?))
  }

  /** Steps from `DrainEntry` and `DrainCheck` on, depending on whether the queue will be taken. */
  function EntryLeft(flag: bool): nat { if flag then 40 else 51 }
  function CheckLeft(flag: bool): nat { if flag then 25 else 46 }

  function ResumeLeft(k: After, flag: bool): nat {
    match k
    case ToDeliver => 70
    case ToFinalize => EntryLeft(flag)
    case ToDrain => CheckLeft(flag)
  }

  function RegLeft(p: RegPc): nat {
    match p
    case RegLock => 5
    case RegContended => 4
    case RegGid => 3
    case RegActive => 2
    case RegUnlock => 1
  }

  function ActLeft(p: ActPc): nat {
    match p
    case ActLock => 3
    case ActStore => 2
    case ActUnlock => 1
  }

  function FastLeft(p: FastPc): nat {
    match p
    case FastDeliver => 95
    case FastContended1 => 94
    case FastPending1 => 93
    case FastStoreIdle => 92
    case FastContended2 => 91
    case FastPending2 => 90
    case FastUnlock => 89
  }

  function SlowLeft(p: SlowPc, flag: bool): nat {
    match p
    case SlowDeliver => 70
    case PrepSeq => 82
    case PrepGid => 81
    case DrainEntry => EntryLeft(flag)
    case EnsureGid => if flag then 39 else 54
    case EnsureActive => if flag then 38 else 53
  }

  function DrainLeft(p: DrainPc, flag: bool): nat {
    match p
    case DrainCheck => CheckLeft(flag)
    case DrainLock => 24
    case DrainTake => 23
    case DrainClear => 22
    case DrainUnlock => CheckLeft(flag) + 2
    case DrainDeliver => CheckLeft(flag) + 1
  }

  function FinLeft(p: FinPc, flag: bool): nat {
    match p
    case FinLock => 45
    case FinPending => 44
    case FinQueue => 43
    case FinRetry => if flag then 42 else 52
    case FinIdle => 15
    case FinActive => 14
    case FinGid => 13
    case FinContended => 12
    case FinRelease => 11
    case FinUnlock => 10
  }

  /** The work left to an activation that has or has had the mutex; one unit remains for every other. */
  function HoldLeft(f: Frame, flag: bool): nat {
    match f.pc
    case Begin(_) => 100 + |f.batch|
    case Reg(p, k) => RegLeft(p) + ResumeLeft(k, flag) + |f.batch|
    case Act(p, k) => ActLeft(p) + ResumeLeft(k, flag) + |f.batch|
    case Fast(p) => FastLeft(p) + |f.batch|
    case Slow(p) => SlowLeft(p, flag) + |f.batch|
    case Drain(p) => DrainLeft(p, flag) + if p.DrainClear? then 0 else |f.drain|
    case Fin(p) => FinLeft(p, flag)
    case PostCheck(_) => 3
    case PostTry(_) => 2
    case _ => 1
  }

  function FindLeft(p: FindPc): nat {
    match p
    case SlowEntry => 58
    case Gid1 => 57
    case Gid2 => 51
    case ActiveProbe => 50
  }

  function TagLeft(p: TagPc): nat {
    match p
    case TagLock => 56
    case TagCheck => 55
    case TagContended => 54
    case TagGid => 53
    case TagUnlock => 52
  }

  function ResLeft(p: ResPc): nat {
    match p
    case ResLock => 49
    case ResContended => 48
    case ResSeq => 47
    case ResDecide => 46
    case ResUnlock => 41
  }

  function SearchLeft(p: SearchPc): nat {
    match p
    case SearchTag => 45
    case SearchStacks => 44
    case SearchRecheck => 43
    case SearchStore => 42
  }

  function MatchLeft(p: MatchPc): nat {
    match p
    case SeqLoad => 40
    case SelfSeq => 39
    case HolderGid => 38
    case HolderSeq => 37
    case Ancestry => 36
    case AncestrySeq => 35
  }

  /** A caller about to hand over starts again if the hold it has seen is over. */
  function EnqLeft(p: EnqPc, stale: bool): nat {
    match p
    case EnqCheck => if stale then 63 else 34
    case EnqLock => if stale then 62 else 33
    case EnqAppend => if stale then 61 else 32
    case EnqFlag => 31
    case EnqUnlock => 30
    case EnqReject => 60
  }

  /** The steps left to a caller while no hold begins or ends. */
  function CallLeft(f: Frame, seqNo: HoldSeq): nat {
    match f.pc
    case Enter => 59
    case Find(p) => FindLeft(p)
    case Tag(p) => TagLeft(p)
    case Res(p) => ResLeft(p)
    case Search(p) => SearchLeft(p)
    case Match(p) => MatchLeft(p)
    case Enq(p) => EnqLeft(p, seqNo != f.hs)
    case Wait => 10
    case _ => 0
  }

  function Weight(level: Level, sh: Shared, f: Frame): nat {
    match level
    case Raising => if Raises(f.pc) then 1 else 0
    case Retrying => if Retries(f.pc, sh.flag) then 1 else 0
    case Holding => HoldLeft(f, sh.flag)
    case Calling => CallLeft(f, sh.seqNo)
  }

  /** The fields on which the count of a level depends are the same. */
  predicate Alike(level: Level, sh: Shared, sh': Shared) {
    match level
    case Raising => true
    case Retrying | Holding => sh.flag == sh'.flag
    case Calling => sh.seqNo == sh'.seqNo
  }

  lemma WeightAlike(level: Level, sh: Shared, sh': Shared, f: Frame)
    requires Alike(level, sh, sh')
    ensures Weight(level, sh, f) == Weight(level, sh', f)
  {
  }

  predicate Fewer(level: Level, sh: Shared, f: Frame, m: Outcome)
    requires m.Moved?
  {
    Weight(level, m.sh, m.f) < Weight(level, sh, f) && Alike(level, sh, m.sh)
  }

  predicate Same(level: Level, sh: Shared, f: Frame, m: Outcome)
    requires m.Moved?
  {
    Weight(level, m.sh, m.f) == Weight(level, sh, f) && Alike(level, sh, m.sh)
  }

  /** The first count that changes goes down. */
  predicate Drops(sh: Shared, f: Frame, m: Outcome) {
    m.Moved? ==>
      || Fewer(Raising, sh, f, m)
      || (Same(Raising, sh, f, m)
          && ((sh.flag && !m.sh.flag)
              || Fewer(Retrying, sh, f, m)
              || (Same(Retrying, sh, f, m) && Fewer(Holding, sh, f, m))
              || (Same(Retrying, sh, f, m) && Same(Holding, sh, f, m) && Fewer(Calling, sh, f, m))))
  }

  // ---------------------------------------------------------------------------------------------
  // Every step lowers the counts
  // ---------------------------------------------------------------------------------------------

  lemma BeginDrops(sh: Shared, f: Frame, start: Start, choice: bool)
    requires f.pc == Begin(start)
    ensures var m := BeginMove(sh, f, start, choice); Drops(sh, f, m) && Quiet(sh, f, m)
  {
  }

  lemma RegDrops(sh: Shared, g: Gid, d: nat, f: Frame, p: RegPc, k: After)
    requires f.pc == Reg(p, k) && f.drain == []
    ensures var m := RegMove(sh, g, d, f, p, k); Drops(sh, f, m) && Quiet(sh, f, m)
  {
  }

  lemma ActDrops(sh: Shared, g: Gid, d: nat, f: Frame, p: ActPc, k: After)
    requires f.pc == Act(p, k) && f.drain == []
    ensures var m := ActMove(sh, g, d, f, p, k); Drops(sh, f, m) && Quiet(sh, f, m)
  {
  }

  lemma FastDrops(sh: Shared, f: Frame, p: FastPc)
    requires f.pc == Fast(p)
    ensures var m := FastMove(sh, f, p); Drops(sh, f, m) && Quiet(sh, f, m)
  {
  }

  lemma SlowDrops(sh: Shared, f: Frame, p: SlowPc)
    requires f.pc == Slow(p) && f.drain == []
    ensures var m := SlowMove(sh, f, p); Drops(sh, f, m) && Quiet(sh, f, m)
  {
  }

  lemma DrainDrops(sh: Shared, g: Gid, d: nat, f: Frame, p: DrainPc)
    requires f.pc == Drain(p) && TakeOk(sh, f.pc) && f.batch == []
    requires f.drain != [] ==> p.DrainClear? || p.DrainUnlock? || p.DrainDeliver?
    ensures Drops(sh, f, DrainMove(sh, g, d, f, p))
  {
    hide Drops, DrainMove;
    if p.DrainDeliver? {
      DeliverDrops(sh, g, d, f);
    } else {
      TakeDrops(sh, g, d, f, p);
    }
  }

  lemma DeliverDrops(sh: Shared, g: Gid, d: nat, f: Frame)
    requires f.pc == Drain(DrainDeliver)
    ensures Drops(sh, f, DrainMove(sh, g, d, f, DrainDeliver))
  {
  }

  lemma TakeDrops(sh: Shared, g: Gid, d: nat, f: Frame, p: DrainPc)
    requires f.pc == Drain(p) && TakeOk(sh, f.pc) && f.batch == [] && !p.DrainDeliver?
    requires f.drain != [] ==> p.DrainClear? || p.DrainUnlock?
    ensures Drops(sh, f, DrainMove(sh, g, d, f, p))
  {
  }

  /** The end of a hold goes on to its next point, back to the queue, or out. */
  lemma FinSteps(sh: Shared, g: Gid, d: nat, f: Frame, p: FinPc)
    requires f.pc == Fin(p) && FinMove(sh, g, d, f, p).Moved? && (p.FinQueue? ==> sh.pending == [])
    ensures var m := FinMove(sh, g, d, f, p);
            && m.sh.flag == sh.flag && m.f.batch == f.batch
            && if p.FinRetry? then m.f.pc == Slow(DrainEntry)
               else if p.FinUnlock? then m.f.pc == PostCheck(false)
               else m.f.pc.Fin? && FinLeft(m.f.pc.fin, sh.flag) < FinLeft(p, sh.flag)
  {
  }

  lemma FinDrops(sh: Shared, g: Gid, d: nat, f: Frame, p: FinPc)
    requires f.pc == Fin(p) && f.batch == [] && (p.FinQueue? ==> sh.pending == [])
    ensures Drops(sh, f, FinMove(sh, g, d, f, p))
  {
    hide FinMove, CallLeft;
    if FinMove(sh, g, d, f, p).Moved? {
      FinSteps(sh, g, d, f, p);
    }
  }

  lemma FinQuiet(sh: Shared, g: Gid, d: nat, f: Frame, p: FinPc)
    requires f.pc == Fin(p)
    ensures Quiet(sh, f, FinMove(sh, g, d, f, p))
  {
  }

  lemma FindDrops(sh: Shared, v: View, g: Gid, f: Frame, p: FindPc, choice: bool)
    requires f.pc == Find(p)
    ensures var m := FindMove(sh, v, g, f, p, choice); Drops(sh, f, m) && Quiet(sh, f, m)
  {
  }

  lemma TagDrops(sh: Shared, g: Gid, d: nat, f: Frame, p: TagPc)
    requires f.pc == Tag(p)
    ensures var m := TagMove(sh, g, d, f, p); Drops(sh, f, m) && Quiet(sh, f, m)
  {
  }

  lemma ResDrops(sh: Shared, g: Gid, d: nat, f: Frame, p: ResPc)
    requires f.pc == Res(p)
    ensures var m := ResMove(sh, g, d, f, p); Drops(sh, f, m) && Quiet(sh, f, m)
  {
  }

  lemma SearchDrops(sh: Shared, v: View, f: Frame, p: SearchPc, choice: bool)
    requires f.pc == Search(p)
    ensures var m := SearchMove(sh, v, f, p, choice); Drops(sh, f, m) && Quiet(sh, f, m)
  {
  }

  lemma MatchDrops(sh: Shared, g: Gid, f: Frame, p: MatchPc, choice: bool)
    requires f.pc == Match(p)
    ensures var m := MatchMove(sh, g, f, p, choice); Drops(sh, f, m) && Quiet(sh, f, m)
  {
  }

  lemma EnqDrops(sh: Shared, g: Gid, d: nat, f: Frame, p: EnqPc)
    requires f.pc == Enq(p)
    ensures Drops(sh, f, EnqMove(sh, g, d, f, p))
  {
  }

  lemma LockDrops(sh: Shared, g: Gid, d: nat, f: Frame, choice: bool)
    requires AtLock(f.pc) || f.pc.Done?
    requires sh.mu.Free? ==> !sh.flag
    ensures var m := LockMove(sh, g, d, f, choice); Drops(sh, f, m) && Quiet(sh, f, m)
  {
  }

  /** What the moving activation knows of the mutexes. */
  predicate LocksOk(sh: Shared, g: Gid, d: nat, f: Frame) {
    && (HasRmu(f.pc) <==> sh.rmu == Held(g, d)) && (OwnsMu(f.pc) <==> sh.mu == Held(g, d))
  }

  /** What is known of the queue from the point of view of one activation. */
  predicate QueueSeen(sh: Shared, g: Gid, d: nat, f: Frame) {
    && TakeOk(sh, f.pc) && (sh.rmu == Held(g, d) ==> Announcing(sh, f.pc))
    && (!sh.rmu.Held? ==> sh.pending == [] || sh.flag)
  }

  /** What the counts rely on. */
  predicate Ready(sh: Shared, g: Gid, d: nat, f: Frame) {
    && LocksOk(sh, g, d, f) && QueueSeen(sh, g, d, f)
    && (Spent(f.pc) ==> f.batch == [])
    && (f.drain != [] ==> f.pc == Drain(DrainClear) || f.pc == Drain(DrainUnlock) || f.pc == Drain(DrainDeliver))
    && (f.pc == Fin(FinQueue) || sh.mu.Free? ==> !sh.flag)
  }

  lemma MoveDrops(sh: Shared, v: View, g: Gid, d: nat, f: Frame, choice: bool)
    requires Ready(sh, g, d, f)
    ensures Drops(sh, f, Move(sh, v, g, d, f, choice))
    ensures !f.pc.Drain? && !f.pc.Enq? ==> Quiet(sh, f, Move(sh, v, g, d, f, choice))
  {
    hide Quiet, Drops, BeginMove, RegMove, ActMove, FastMove, SlowMove, DrainMove, FinMove, FindMove, TagMove, ResMove,
      SearchMove, MatchMove, EnqMove, LockMove;
    match f.pc
    case Begin(start) => BeginDrops(sh, f, start, choice);
    case Reg(p, k) => RegDrops(sh, g, d, f, p, k);
    case Act(p, k) => ActDrops(sh, g, d, f, p, k);
    case Fast(p) => FastDrops(sh, f, p);
    case Slow(p) => SlowDrops(sh, f, p);
    case Drain(p) => DrainDrops(sh, g, d, f, p);
    case Fin(p) =>
      FinDrops(sh, g, d, f, p);
      FinQuiet(sh, g, d, f, p);
    case Find(p) => FindDrops(sh, v, g, f, p, choice);
    case Tag(p) => TagDrops(sh, g, d, f, p);
    case Res(p) => ResDrops(sh, g, d, f, p);
    case Search(p) => SearchDrops(sh, v, f, p, choice);
    case Match(p) => MatchDrops(sh, g, f, p, choice);
    case Enq(p) => EnqDrops(sh, g, d, f, p);
    case _ => LockDrops(sh, g, d, f, choice);
  }

  // ---------------------------------------------------------------------------------------------
  // The queue stays as described
  // ---------------------------------------------------------------------------------------------

  lemma QueueStep(sh: Shared, v: View, g: Gid, d: nat, f: Frame, choice: bool)
    requires Ready(sh, g, d, f) && Move(sh, v, g, d, f, choice).Moved?
    ensures var m := Move(sh, v, g, d, f, choice); QueueSeen(m.sh, g, d, m.f)
  {
    hide Drops, DrainMove, EnqMove, BeginMove, RegMove, ActMove, FastMove, SlowMove, FinMove, FindMove, TagMove,
      ResMove, SearchMove, MatchMove, LockMove;
    match f.pc
    case Drain(p) => DrainQueue(sh, g, d, f, p);
    case Enq(p) => EnqQueue(sh, g, d, f, p);
    case _ => MoveDrops(sh, v, g, d, f, choice);
  }

  lemma DrainQueue(sh: Shared, g: Gid, d: nat, f: Frame, p: DrainPc)
    requires Ready(sh, g, d, f) && f.pc == Drain(p) && DrainMove(sh, g, d, f, p).Moved?
    ensures var m := DrainMove(sh, g, d, f, p); QueueSeen(m.sh, g, d, m.f)
  {
  }

  lemma EnqQueue(sh: Shared, g: Gid, d: nat, f: Frame, p: EnqPc)
    requires Ready(sh, g, d, f) && f.pc == Enq(p) && EnqMove(sh, g, d, f, p).Moved?
    ensures var m := EnqMove(sh, g, d, f, p); QueueSeen(m.sh, g, d, m.f)
  {
  }

  lemma QueueOther(sh: Shared, v: View, g: Gid, d: nat, f: Frame, choice: bool, g2: Gid, d2: nat, f2: Frame)
    requires Ready(sh, g, d, f) && LocksOk(sh, g2, d2, f2) && (g2 != g || d2 != d)
    requires QueueSeen(sh, g2, d2, f2) && Move(sh, v, g, d, f, choice).Moved?
    ensures var m := Move(sh, v, g, d, f, choice); QueueSeen(m.sh, g2, d2, f2)
  {
    hide Drops, BeginMove, RegMove, ActMove, FastMove, SlowMove, FinMove, FindMove, TagMove, ResMove, SearchMove,
      MatchMove, LockMove;
    QueueStep(sh, v, g, d, f, choice);
    MoveDrops(sh, v, g, d, f, choice);
  }

  ghost predicate QueueOk(s: State) {
    && (forall g, d :: At(s, g, d) ==> QueueSeen(s.sh, g, d, s.stacks[g][d]))
    && (!s.sh.rmu.Held? ==> s.sh.pending == [] || s.sh.flag)
  }

  /** The invariant, the conservation law, and what is known of the queue. */
  ghost predicate Good(s: State) {
    Inv(s) && Conserved(s) && QueueOk(s)
  }

  lemma ReadyAt(s: State, g: Gid, d: nat)
    requires Inv(s) && QueueOk(s) && At(s, g, d)
    ensures Ready(s.sh, g, d, s.stacks[g][d])
  {
    hide CallerOk, NestedOk, QueueSeen;
    InvGivesView(s);
    assert FrameOk(s.sh, OwnerView(s), g, d, s.stacks[g][d]);
  }

  lemma RunKeepsQueue(s: State, g: Gid, choice: bool)
    requires Inv(s) && QueueOk(s) && Enabled(s, Run(g, choice))
    ensures QueueOk(Apply(s, Run(g, choice)))
  {
    hide Inv, Move, QueueSeen, LocksOk, Ready, OwnerView;
    var d := |s.stacks[g]| - 1;
    var f, v, s' := s.stacks[g][d], OwnerView(s), Apply(s, Run(g, choice));
    assert At(s, g, d);
    ReadyAt(s, g, d);
    QueueStep(s.sh, v, g, d, f, choice);
    assert Settled(s'.sh) by {
      SeenSettled(s'.sh, g, d, s'.stacks[g][d]);
    }
    forall g2, d2 | At(s', g2, d2)
      ensures QueueSeen(s'.sh, g2, d2, s'.stacks[g2][d2])
    {
      assert At(s, g2, d2);
      if g2 != g || d2 != d {
        ReadyAt(s, g2, d2);
        ReadyLocks(s.sh, g2, d2, s.stacks[g2][d2]);
        QueueOther(s.sh, v, g, d, f, choice, g2, d2, s.stacks[g2][d2]);
      }
    }
  }

  predicate Settled(sh: Shared) {
    !sh.rmu.Held? ==> sh.pending == [] || sh.flag
  }

  lemma SeenSettled(sh: Shared, g: Gid, d: nat, f: Frame)
    requires QueueSeen(sh, g, d, f)
    ensures Settled(sh)
  {
  }

  lemma ReadyLocks(sh: Shared, g: Gid, d: nat, f: Frame)
    requires Ready(sh, g, d, f)
    ensures LocksOk(sh, g, d, f)
  {
  }

  lemma InvokeKeepsQueue(s: State, g: Gid, size: nat)
    requires Inv(s) && QueueOk(s) && Enabled(s, Invoke(g, size))
    ensures QueueOk(Apply(s, Invoke(g, size)))
  {
    var s' := Apply(s, Invoke(g, size));
    var n := |StackOf(s, g)|;
    forall g2, d2 | At(s', g2, d2)
      ensures QueueSeen(s'.sh, g2, d2, s'.stacks[g2][d2])
    {
      if g2 == g && d2 == n {
        assert !At(s, g, n);
      } else {
        assert At(s, g2, d2);
      }
    }
  }

  lemma OthersKeepQueue(s: State, a: Action)
    requires QueueOk(s) && Enabled(s, a) && (a.Return? || a.Borrow? || a.GiveBack?)
    ensures QueueOk(Apply(s, a))
  {
    var s' := Apply(s, a);
    forall g2, d2 | At(s', g2, d2)
      ensures QueueSeen(s'.sh, g2, d2, s'.stacks[g2][d2])
    {
      assert At(s, g2, d2);
    }
  }

  lemma ActionKeepsGood(s: State, a: Action)
    requires Good(s) && Enabled(s, a)
    ensures Good(Apply(s, a))
  {
    hide Inv, Conserved, QueueOk, Move;
    ActionKeeps(s, a);
    match a
    case Run(g, choice) => RunKeepsQueue(s, g, choice);
    case Invoke(g, size) => InvokeKeepsQueue(s, g, size);
    case _ => OthersKeepQueue(s, a);
  }

  lemma {:induction false} RunsKeepGood(s: State, acts: seq<Action>, t: State)
    requires Good(s) && Reaches(s, acts, t)
    ensures Good(t)
    decreases |acts|
  {
    hide Good, Enabled, Apply;
    if acts != [] {
      ActionKeepsGood(s, acts[0]);
      RunsKeepGood(Apply(s, acts[0]), acts[1..], t);
    }
  }

  lemma ReachableGood(t: State)
    requires Reachable(t)
    ensures Good(t)
  {
    var s, acts :| Init(s) && Reaches(s, acts, t);
    RunsKeepGood(s, acts, t);
  }

  // ---------------------------------------------------------------------------------------------
  // The counts of a state
  // ---------------------------------------------------------------------------------------------

  function StackCount(level: Level, sh: Shared, st: seq<Frame>): nat {
    if st == [] then 0 else StackCount(level, sh, st[..|st| - 1]) + Weight(level, sh, st[|st| - 1])
  }

  function CountOf(level: Level, sh: Shared, stacks: map<Gid, seq<Frame>>, g: Gid): nat {
    if g in stacks then StackCount(level, sh, stacks[g]) else 0
  }

  ghost function CountOver(level: Level, sh: Shared, gs: set<Gid>, stacks: map<Gid, seq<Frame>>): nat {
    if gs == {} then 0
    else
      var g :| g in gs;
      CountOf(level, sh, stacks, g) + CountOver(level, sh, gs - {g}, stacks)
  }

  /** All activations together. */
  ghost function Count(level: Level, s: State): nat {
    CountOver(level, s.sh, s.stacks.Keys, s.stacks)
  }

  lemma {:induction false} CountSplit(level: Level, sh: Shared, gs: set<Gid>, stacks: map<Gid, seq<Frame>>, g: Gid)
    requires g in gs
    ensures CountOver(level, sh, gs, stacks) == CountOf(level, sh, stacks, g) + CountOver(level, sh, gs - {g}, stacks)
  {
    hide CountOf;
    var h :| h in gs && CountOver(level, sh, gs, stacks)
                        == CountOf(level, sh, stacks, h) + CountOver(level, sh, gs - {h}, stacks);
    if h != g {
      CountSplit(level, sh, gs - {h}, stacks, g);
      CountSplit(level, sh, gs - {g}, stacks, h);
      assert (gs - {h}) - {g} == (gs - {g}) - {h};
    }
  }

  lemma {:induction false} CountFrame(level: Level, sh: Shared, sh': Shared, gs: set<Gid>,
      stacks: map<Gid, seq<Frame>>, stacks': map<Gid, seq<Frame>>)
    requires Alike(level, sh, sh') && forall g :: g in gs ==> g in stacks && g in stacks' && stacks'[g] == stacks[g]
    ensures CountOver(level, sh, gs, stacks) == CountOver(level, sh', gs, stacks')
  {
    hide Alike, Weight;
    if gs != {} {
      var g :| g in gs;
      CountSplit(level, sh, gs, stacks, g);
      CountSplit(level, sh', gs, stacks', g);
      StackAlike(level, sh, sh', stacks[g]);
      CountFrame(level, sh, sh', gs - {g}, stacks, stacks');
    }
  }

  lemma {:induction false} StackAlike(level: Level, sh: Shared, sh': Shared, st: seq<Frame>)
    requires Alike(level, sh, sh')
    ensures StackCount(level, sh, st) == StackCount(level, sh', st)
  {
    hide Alike, Weight;
    if st != [] {
      StackAlike(level, sh, sh', st[..|st| - 1]);
      WeightAlike(level, sh, sh', st[|st| - 1]);
    }
  }

  /** Changing the innermost activation of one goroutine changes the count by the difference. */
  lemma CountStep(level: Level, s: State, g: Gid, f': Frame, s': State)
    requires g in s.stacks && s.stacks[g] != [] && Alike(level, s.sh, s'.sh)
    requires s'.stacks == s.stacks[g := s.stacks[g][|s.stacks[g]| - 1 := f']]
    ensures Count(level, s') + Weight(level, s.sh, StackTop(s, g)) == Count(level, s) + Weight(level, s'.sh, f')
  {
    hide Alike, Weight;
    var st, st' := s.stacks[g], s'.stacks[g];
    var n := |st| - 1;
    CountSplit(level, s.sh, s.stacks.Keys, s.stacks, g);
    CountSplit(level, s'.sh, s.stacks.Keys, s'.stacks, g);
    CountFrame(level, s.sh, s'.sh, s.stacks.Keys - {g}, s.stacks, s'.stacks);
    assert st'[..n] == st[..n] && s'.stacks.Keys == s.stacks.Keys;
    StackAlike(level, s.sh, s'.sh, st[..n]);
  }

  function StackTop(s: State, g: Gid): Frame
    requires g in s.stacks && s.stacks[g] != []
  {
    s.stacks[g][|s.stacks[g]| - 1]
  }

  /** A finished activation counts for one unit of holder's work. */
  lemma CountReturn(level: Level, s: State, g: Gid)
    requires Enabled(s, Return(g))
    ensures Count(level, Apply(s, Return(g))) + Weight(level, s.sh, StackTop(s, g)) == Count(level, s)
  {
    hide Weight;
    var s' := Apply(s, Return(g));
    CountSplit(level, s.sh, s.stacks.Keys, s.stacks, g);
    CountSplit(level, s.sh, s.stacks.Keys, s'.stacks, g);
    CountFrame(level, s.sh, s.sh, s.stacks.Keys - {g}, s.stacks, s'.stacks);
    assert s'.stacks.Keys == s.stacks.Keys;
  }

  function FlagUp(s: State): nat { if s.sh.flag then 1 else 0 }

  /** The last count, with the lease another cache has. */
  ghost function CallsLeft(s: State): nat {
    Count(Calling, s) + if s.sh.mu.Lessee? then 1 else 0
  }

  /** The counts of `t` come before those of `s`. */
  ghost predicate Below(t: State, s: State) {
    || Count(Raising, t) < Count(Raising, s)
    || (Count(Raising, t) == Count(Raising, s)
        && (|| FlagUp(t) < FlagUp(s)
            || (FlagUp(t) == FlagUp(s)
                && (|| Count(Retrying, t) < Count(Retrying, s)
                    || (Count(Retrying, t) == Count(Retrying, s)
                        && (|| Count(Holding, t) < Count(Holding, s)
                            || (Count(Holding, t) == Count(Holding, s) && CallsLeft(t) < CallsLeft(s))))))))
  }

  // ---------------------------------------------------------------------------------------------
  // Calls end
  // ---------------------------------------------------------------------------------------------

  /** A step that is not the start of a new call. */
  predicate Continues(s: State, a: Action) {
    Enabled(s, a) && (a.Run? || a.Return? || a.GiveBack?)
  }

  lemma FewerCount(level: Level, s: State, g: Gid, m: Outcome, s': State)
    requires g in s.stacks && s.stacks[g] != [] && m.Moved? && s'.sh == m.sh
    requires s'.stacks == s.stacks[g := s.stacks[g][|s.stacks[g]| - 1 := m.f]]
    ensures Fewer(level, s.sh, StackTop(s, g), m) ==> Count(level, s') < Count(level, s)
    ensures Same(level, s.sh, StackTop(s, g), m) ==> Count(level, s') == Count(level, s)
  {
    hide Alike, Weight, Count;
    if Alike(level, s.sh, m.sh) {
      CountStep(level, s, g, m.f, s');
    }
  }

  /** Nobody but another cache takes the lease. */
  lemma NoLease(sh: Shared, v: View, g: Gid, d: nat, f: Frame, choice: bool)
    requires Move(sh, v, g, d, f, choice).Moved?
    ensures Move(sh, v, g, d, f, choice).sh.mu.Lessee? ==> sh.mu.Lessee?
  {
    hide BeginMove, RegMove, ActMove, FastMove, SlowMove, DrainMove, FinMove, FindMove, TagMove, ResMove, SearchMove,
      MatchMove, EnqMove, LockMove;
  }

  lemma RunDrops(s: State, g: Gid, choice: bool)
    requires Good(s) && Enabled(s, Run(g, choice))
    ensures Below(Apply(s, Run(g, choice)), s)
  {
    hide Inv, Conserved, QueueOk, Ready, Move, Weight, Alike, Count, OwnerView, Fewer, Same;
    var d := |s.stacks[g]| - 1;
    var f, v, s' := s.stacks[g][d], OwnerView(s), Apply(s, Run(g, choice));
    var m := Move(s.sh, v, g, d, f, choice);
    assert At(s, g, d);
    ReadyAt(s, g, d);
    MoveDrops(s.sh, v, g, d, f, choice);
    NoLease(s.sh, v, g, d, f, choice);
    FewerCount(Raising, s, g, m, s');
    FewerCount(Retrying, s, g, m, s');
    FewerCount(Holding, s, g, m, s');
    FewerCount(Calling, s, g, m, s');
    SameFlag(s.sh, f, m);
  }

  lemma SameFlag(sh: Shared, f: Frame, m: Outcome)
    requires m.Moved?
    ensures Same(Retrying, sh, f, m) || Fewer(Retrying, sh, f, m) ==> m.sh.flag == sh.flag
  {
  }

  lemma ReturnDrops(s: State, g: Gid)
    requires Enabled(s, Return(g))
    ensures Below(Apply(s, Return(g)), s)
  {
    hide Count;
    CountReturn(Raising, s, g);
    CountReturn(Retrying, s, g);
    CountReturn(Holding, s, g);
  }

  lemma GiveBackDrops(s: State)
    requires s.sh.mu.Lessee?
    ensures Below(Apply(s, GiveBack), s)
  {
    var s' := Apply(s, GiveBack);
    CountFrame(Raising, s.sh, s'.sh, s.stacks.Keys, s.stacks, s.stacks);
    CountFrame(Retrying, s.sh, s'.sh, s.stacks.Keys, s.stacks, s.stacks);
    CountFrame(Holding, s.sh, s'.sh, s.stacks.Keys, s.stacks, s.stacks);
    CountFrame(Calling, s.sh, s'.sh, s.stacks.Keys, s.stacks, s.stacks);
  }

  /** Every step of every activation lowers the counts. */
  lemma StepsDown(s: State, a: Action)
    requires Good(s) && Continues(s, a)
    ensures Below(Apply(s, a), s)
  {
    match a
    case Run(g, choice) => RunDrops(s, g, choice);
    case Return(g) => ReturnDrops(s, g);
    case GiveBack => GiveBackDrops(s);
  }

  lemma {:induction false} ReachesOn(s: State, acts: seq<Action>, t: State, a: Action)
    requires Reaches(s, acts, t) && Enabled(t, a)
    ensures Reaches(s, acts + [a], Apply(t, a))
    decreases |acts|
  {
    hide Enabled, Apply;
    if acts == [] {
      assert [a][1..] == [];
    } else {
      ReachesOn(Apply(s, acts[0]), acts[1..], t, a);
      assert (acts + [a])[1..] == acts[1..] + [a];
    }
  }

  lemma ReachableOn(t: State, a: Action)
    requires Reachable(t) && Enabled(t, a)
    ensures Reachable(Apply(t, a))
  {
    hide Enabled, Apply;
    var s, acts :| Init(s) && Reaches(s, acts, t);
    ReachesOn(s, acts, t, a);
  }

  /** A run without new calls, of any schedule: it goes on as long as some step is possible. */
  ghost predicate RunsOn(run: nat -> State) {
    forall i: nat :: Next(run(i), run(i + 1))
  }

  ghost predicate Next(s: State, s': State) {
    if exists a :: Continues(s, a) then exists a :: Continues(s, a) && s' == Apply(s, a) else s' == s
  }

  /** Whatever the schedule, the calls under way end, and then every event has been delivered. */
  lemma {:induction false} EveryRunEnds(run: nat -> State, i: nat) returns (n: nat)
    requires Reachable(run(i)) && RunsOn(run)
    ensures n >= i && Reachable(run(n)) && AllEnded(run(n)) && multiset(run(n).log) == run(n).submitted
    decreases Count(Raising, run(i)), FlagUp(run(i)), Count(Retrying, run(i)), Count(Holding, run(i)), CallsLeft(run(i))
  {
    hide Reachable, Enabled, Apply, Count, FlagUp, CallsLeft;
    var s := run(i);
    if AllEnded(s) {
      ExactlyOnce(s);
      return i;
    }
    var g :| g in s.stacks && s.stacks[g] != [];
    var p := Progress(s, g);
    assert Continues(s, p);
    assert Next(s, run(i + 1));
    var a :| Continues(s, a) && run(i + 1) == Apply(s, a);
    ReachableGood(s);
    StepsDown(s, a);
    ReachableOn(s, a);
    n := EveryRunEnds(run, i + 1);
  }

  lemma SameSubmitted(s: State, a: Action)
    requires Continues(s, a)
    ensures Apply(s, a).submitted == s.submitted
  {
  }

  /** From every reachable state the calls under way can be brought to their end. */
  lemma {:induction false} CanEnd(t: State) returns (acts: seq<Action>, u: State)
    requires Reachable(t)
    ensures Reaches(t, acts, u) && (forall a :: a in acts ==> a.Run? || a.Return? || a.GiveBack?)
    ensures AllEnded(u) && u.submitted == t.submitted && multiset(u.log) == t.submitted
    decreases Count(Raising, t), FlagUp(t), Count(Retrying, t), Count(Holding, t), CallsLeft(t)
  {
    hide Reachable, Enabled, Apply, Count, FlagUp, CallsLeft;
    if AllEnded(t) {
      ExactlyOnce(t);
      return [], t;
    }
    var g :| g in t.stacks && t.stacks[g] != [];
    var a := Progress(t, g);
    ReachableGood(t);
    StepsDown(t, a);
    ReachableOn(t, a);
    SameSubmitted(t, a);
    acts, u := CanEnd(Apply(t, a));
    assert ([a] + acts)[1..] == acts;
    acts := [a] + acts;
  }
}

/**
 The delivery protocol for eviction callbacks (pressure.go).

 A cache operation collects its eviction events in a private batch and, once the cache lock is
 released, calls `invoke`.  Callbacks are serialized by `evictCallbackMu`; a caller that finds
 the mutex taken and learns that it descends from the goroutine now running callbacks must not
 wait for it, so it hands its batch to the holder through `pendingEvictCallbacks`.  Whether the
 caller descends from the holder is decided by reading goroutine stacks: here any answer.

 The model is a transition system.  Each goroutine has a stack of `invoke` activations (a callback
 may call back into the cache), each activation is a small program counter machine, and every
 atomic load, store, lock and unlock of a shared field is one step.  Three points merge several
 accesses: the tag test reads the hold sequence and `evictCallbackActive`, ResDecide reads
 `evictCallbackActive` and `evictCallbackGID` before its store, and EnqAppend reads the hold sequence
 before it appends.  All three hold the resolve mutex, and `evictCallbackActive`, `evictCallbackGID`
 and the queue change under that mutex alone, so no step of another activation could tell the
 difference.
 */
module EvictCallbacks {

  /** An eviction event waiting to be reported: the call of `invoke` it belongs to and its place in that batch. */
  datatype Event = Event(call: nat, pos: nat)

  /** The batch of one call, in the order in which the operation made its evictions. */
  function Batch(call: nat, size: nat): (r: seq<Event>)
    ensures |r| == size && forall i :: 0 <= i < size ==> r[i] == Event(call, i)
  {
    seq(size, i requires 0 <= i < size => Event(call, i))
  }

  /** A goroutine id; 0 is reserved for "no registered holder". */
  type Gid = g: int | 0 < g witness 1

  /** `evictHoldSeq`: idle, or active for one hold; `fast` marks the tagged fast-path form. */
  datatype HoldSeq = Idle(idx: nat) | Active(idx: nat, fast: bool)

  /** Who has a mutex: nobody, another cache borrowing the tag lease, or one activation. */
  datatype Owner = Free | Lessee | Held(gid: Gid, depth: nat)

  /** The fields of `pressureState` that the protocol shares between goroutines. */
  datatype Shared = Shared(
    seqNo: HoldSeq,        // evictHoldSeq
    cur: nat,              // evictCurHoldIdx
    contended: bool,       // evictCallbackContended
    gid: int,              // evictCallbackGID, 0 when nobody is registered
    active: bool,          // evictCallbackActive
    flag: bool,            // evictPendingEnqueues != 0
    pending: seq<Event>,   // pendingEvictCallbacks
    mu: Owner,             // evictCallbackMu
    rmu: Owner)            // evictCallbackResolveMu

  /** Where registering the holder, or raising `evictCallbackActive`, returns to. */
  datatype After = ToDeliver | ToFinalize | ToDrain

  /** How a hold starts: by TryLock in `invokeNonEmpty`, by Lock, or by TryLock after an unlock. */
  datatype Start = ByTry | ByWait | ByRetry(prep: bool)

  /** `registerSlowEvictHolder`. */
  datatype RegPc = RegLock | RegContended | RegGid | RegActive | RegUnlock

  /** Raising `evictCallbackActive` under the resolve mutex. */
  datatype ActPc = ActLock | ActStore | ActUnlock

  /** `dispatchFastCallbacks` and `tryFastUnlockEvictSlot`. */
  datatype FastPc =
    | FastDeliver | FastContended1 | FastPending1 | FastStoreIdle | FastContended2 | FastPending2 | FastUnlock

  /** `deliverCallbacksSlow`, `prepareSlowEvictDrain`, `ensureSlowEvictDrainReady`. */
  datatype SlowPc = SlowDeliver | PrepSeq | PrepGid | DrainEntry | EnsureGid | EnsureActive

  /** `drainPendingEvictCallbacks`. */
  datatype DrainPc = DrainCheck | DrainLock | DrainTake | DrainClear | DrainUnlock | DrainDeliver

  /** The end of `drainAndFinalizeEvictCallbackSlow` and `finishEvictCallbackUnlock`. */
  datatype FinPc =
    | FinLock | FinPending | FinQueue | FinRetry | FinIdle
    | FinActive | FinGid | FinContended | FinRelease | FinUnlock

  /** A caller that looks for the registered holder: `resolveActiveEvictCallbackHolder`. */
  datatype FindPc = SlowEntry | Gid1 | Gid2 | ActiveProbe

  /** The caller's own stack shows the tagged callback frame. */
  datatype TagPc = TagLock | TagCheck | TagContended | TagGid | TagUnlock

  /** `resolveEvictCallbackHolderFromAllStacksLocked`. */
  datatype ResPc = ResLock | ResContended | ResSeq | ResDecide | ResUnlock

  /** Its search through all goroutine stacks, with the resolve mutex held. */
  datatype SearchPc = SearchTag | SearchStacks | SearchRecheck | SearchStore

  /** `isContendedCallerEvictChild`. */
  datatype MatchPc = SeqLoad | SelfSeq | HolderGid | HolderSeq | Ancestry | AncestrySeq

  /** `tryEnqueuePendingCallback`. */
  datatype EnqPc = EnqCheck | EnqLock | EnqAppend | EnqFlag | EnqUnlock | EnqReject

  datatype Pc =
    // without the callback mutex
    | Enter | Find(find: FindPc) | Tag(tag: TagPc) | Res(res: ResPc) | Search(search: SearchPc)
    | Match(mat: MatchPc) | Wait | Enq(enq: EnqPc) | PostCheck(prep: bool) | PostTry(prep: bool) | Done
    // with it
    | Begin(start: Start) | Reg(reg: RegPc, k: After) | Act(act: ActPc, k: After) | Fast(fast: FastPc)
    | Slow(slow: SlowPc) | Drain(drain: DrainPc) | Fin(fin: FinPc)

  /** One activation of `invoke`: its program counter and local variables. */
  datatype Frame = Frame(
    pc: Pc,
    batch: seq<Event>,     // own events, not yet delivered or handed over
    drain: seq<Event>,     // events taken over from the pending queue
    myTag: bool,           // isMyTagFrame
    seenFast: bool,        // activeFastEvictTag as last observed
    holder: int,           // resolved holder, 0 for none
    hs: HoldSeq)           // hold sequence observed

  function NewFrame(batch: seq<Event>): Frame {
    Frame(Enter, batch, [], false, false, 0, Idle(0))
  }

  datatype State = State(
    sh: Shared,
    stacks: map<Gid, seq<Frame>>,
    calls: nat,                    // how many calls there have been
    submitted: multiset<Event>,
    log: seq<Event>)               // the deliveries, in order

  /** What a goroutine-stack capture shows of the current holder. */
  datatype View = NoOwner | OwnedBy(gid: Gid, pc: Pc)

  /** Result of letting one activation move: it is blocked, or it moves and delivers `out`. */
  datatype Outcome = Blocked | Moved(sh: Shared, f: Frame, out: seq<Event>)

  // ---------------------------------------------------------------------------------------------
  // Program counter classes
  // ---------------------------------------------------------------------------------------------

  /** The points at which an activation has the callback mutex. */
  predicate OwnsMu(pc: Pc) {
    pc.Begin? || pc.Reg? || pc.Act? || pc.Fast? || pc.Slow? || pc.Drain? || pc.Fin?
  }

  /** The points at which it has the resolve mutex. */
  predicate HasRmu(pc: Pc) {
    match pc
    case Reg(r, _) => !r.RegLock?
    case Act(a, _) => !a.ActLock?
    case Drain(d) => d.DrainTake? || d.DrainClear? || d.DrainUnlock?
    case Fin(n) => !n.FinLock? && !n.FinUnlock?
    case Tag(t) => !t.TagLock?
    case Res(r) => !r.ResLock?
    case Search(_) => true
    case Enq(e) => !e.EnqCheck? && !e.EnqLock?
    case _ => false
  }

  /** The activation is inside user callbacks, so the goroutine may start a nested `invoke`. */
  predicate Delivering(pc: Pc) {
    pc == Fast(FastDeliver) || pc == Slow(SlowDeliver) || pc == Drain(DrainDeliver)
  }

  function Resume(k: After): Pc {
    match k
    case ToDeliver => Slow(SlowDeliver)
    case ToFinalize => Slow(DrainEntry)
    case ToDrain => Drain(DrainCheck)
  }

  /** `nextEvictHoldIdx`. */
  function NextIdx(h: HoldSeq): nat {
    match h
    case Idle(i) => i
    case Active(i, _) => i + 1
  }

  // ---------------------------------------------------------------------------------------------
  // One step of one activation
  // ---------------------------------------------------------------------------------------------

  function Go(sh: Shared, f: Frame, pc: Pc): Outcome {
    Moved(sh, f.(pc := pc), [])
  }

  /** The step moves no event. */
  predicate Silent(sh: Shared, f: Frame, r: Outcome) {
    r.Moved? ==> r.out == [] && r.f.batch == f.batch && r.f.drain == f.drain && r.sh.pending == sh.pending
  }

  /** The step leaves the callback mutex alone and the resolve mutex alone, free, or its own. */
  predicate OnlyRmu(sh: Shared, g: Gid, d: nat, r: Outcome) {
    r.Moved? ==> r.sh.mu == sh.mu && (r.sh.rmu == sh.rmu || r.sh.rmu == Free || r.sh.rmu == Held(g, d))
  }

  /** TryLock and Lock of the callback mutex. */
  function TakeMu(sh: Shared, g: Gid, d: nat): Shared { sh.(mu := Held(g, d)) }

  /** Lock of the resolve mutex: blocked while anybody has it. */
  function LockR(sh: Shared, g: Gid, d: nat, f: Frame, pc: Pc): Outcome {
    if sh.rmu.Free? then Go(sh.(rmu := Held(g, d)), f, pc) else Blocked
  }

  function UnlockR(sh: Shared, f: Frame, pc: Pc): Outcome {
    Go(sh.(rmu := Free), f, pc)
  }

  /** Start a hold: `beginEvictCallbackHold` and the two stores of `invokeNonEmpty`. */
  function StartHold(sh: Shared, fast: bool): Shared {
    var i := NextIdx(sh.seqNo);
    sh.(cur := i, seqNo := Active(i, fast))
  }

  function BeginMove(sh: Shared, f: Frame, start: Start, choice: bool): (r: Outcome)
    ensures Silent(sh, f, r)
    ensures r.Moved? ==> r.sh.mu == sh.mu && r.sh.rmu == sh.rmu
    ensures r.Moved?
  {
    match start
    case ByTry =>
      if choice then Go(StartHold(sh, true), f, Fast(FastDeliver))
      else Go(StartHold(sh, false), f, Reg(RegLock, ToDeliver))
    case ByWait => Go(StartHold(sh, false), f, Reg(RegLock, ToDeliver))
    case ByRetry(prep) => Go(StartHold(sh, false), f, Slow(if prep then PrepSeq else DrainEntry))
  }

  function RegMove(sh: Shared, g: Gid, d: nat, f: Frame, p: RegPc, k: After): (r: Outcome)
    ensures Silent(sh, f, r)
    ensures OnlyRmu(sh, g, d, r)
    ensures r.Blocked? ==> !sh.rmu.Free? && p.RegLock?
  {
    match p
    case RegLock => LockR(sh, g, d, f, Reg(RegContended, k))
    case RegContended => Go(sh.(contended := true), f, Reg(RegGid, k))
    case RegGid => Go(sh.(gid := g), f, Reg(RegActive, k))
    case RegActive => Go(sh.(active := true), f, Reg(RegUnlock, k))
    case RegUnlock => UnlockR(sh, f, Resume(k))
  }

  function ActMove(sh: Shared, g: Gid, d: nat, f: Frame, p: ActPc, k: After): (r: Outcome)
    ensures Silent(sh, f, r)
    ensures OnlyRmu(sh, g, d, r)
    ensures r.Blocked? ==> !sh.rmu.Free? && p.ActLock?
  {
    match p
    case ActLock => LockR(sh, g, d, f, Act(ActStore, k))
    case ActStore => Go(sh.(active := true), f, Act(ActUnlock, k))
    case ActUnlock => UnlockR(sh, f, Resume(k))
  }

  function FastMove(sh: Shared, f: Frame, p: FastPc): (r: Outcome)
    ensures r.Moved? ==> r.sh.rmu == sh.rmu && (r.sh.mu == sh.mu || r.sh.mu == Free)
    ensures r.Moved? && r.f.drain == f.drain && r.sh.pending == sh.pending
  {
    match p
    case FastDeliver =>
      if f.batch == [] then Go(sh, f, Fast(FastContended1))
      else Moved(sh, f.(batch := f.batch[1..]), [f.batch[0]])
    case FastContended1 => Go(sh, f, if sh.contended then Slow(PrepSeq) else Fast(FastPending1))
    case FastPending1 => Go(sh, f, if sh.flag then Slow(PrepSeq) else Fast(FastStoreIdle))
    case FastStoreIdle => Go(sh.(seqNo := Idle(sh.cur + 1)), f, Fast(FastContended2))
    case FastContended2 => Go(sh, f, if sh.contended then Slow(PrepSeq) else Fast(FastPending2))
    case FastPending2 => Go(sh, f, if sh.flag then Slow(PrepSeq) else Fast(FastUnlock))
    case FastUnlock => Go(sh.(mu := Free), f, PostCheck(true))
  }

  function SlowMove(sh: Shared, f: Frame, p: SlowPc): (r: Outcome)
    ensures r.Moved? ==> r.sh.mu == sh.mu && r.sh.rmu == sh.rmu
    ensures r.Moved? && r.f.drain == f.drain && r.sh.pending == sh.pending
  {
    match p
    case SlowDeliver =>
      if f.batch == [] then Go(sh, f, Slow(DrainEntry))
      else Moved(sh, f.(batch := f.batch[1..]), [f.batch[0]])
    case PrepSeq =>
      Go(if sh.seqNo.Idle? then sh.(seqNo := Active(sh.cur, false)) else sh, f, Slow(PrepGid))
    case PrepGid => Go(sh, f, if sh.gid == 0 then Reg(RegLock, ToFinalize) else Act(ActLock, ToFinalize))
    case DrainEntry => Go(sh, f, if sh.flag then Slow(EnsureGid) else Fin(FinLock))
    case EnsureGid => Go(sh, f, if sh.gid == 0 then Reg(RegLock, ToDrain) else Slow(EnsureActive))
    case EnsureActive => Go(sh, f, if sh.active then Drain(DrainCheck) else Act(ActLock, ToDrain))
  }

  function DrainMove(sh: Shared, g: Gid, d: nat, f: Frame, p: DrainPc): (r: Outcome)
    ensures OnlyRmu(sh, g, d, r)
    ensures r.Moved? ==> r.f.batch == f.batch
    ensures r.Blocked? ==> !sh.rmu.Free? && p.DrainLock?
  {
    match p
    case DrainCheck => Go(sh, f, if sh.flag then Drain(DrainLock) else Fin(FinLock))
    case DrainLock => LockR(sh, g, d, f, Drain(DrainTake))
    case DrainTake => Moved(sh.(pending := []), f.(drain := sh.pending, pc := Drain(DrainClear)), [])
    case DrainClear => Go(sh.(flag := false), f, Drain(DrainUnlock))
    case DrainUnlock => UnlockR(sh, f, Drain(DrainDeliver))
    case DrainDeliver =>
      if f.drain == [] then Go(sh, f, Drain(DrainCheck))
      else Moved(sh, f.(drain := f.drain[1..]), [f.drain[0]])
  }

  function FinMove(sh: Shared, g: Gid, d: nat, f: Frame, p: FinPc): (r: Outcome)
    ensures Silent(sh, f, r)
    ensures r.Moved? ==> r.sh.rmu == sh.rmu || r.sh.rmu == Free || r.sh.rmu == Held(g, d)
    ensures r.Moved? ==> r.sh.mu == sh.mu || r.sh.mu == Free
    ensures r.Blocked? ==> !sh.rmu.Free? && p.FinLock?
  {
    match p
    case FinLock => LockR(sh, g, d, f, Fin(FinPending))
    case FinPending => Go(sh, f, Fin(if sh.flag then FinRetry else FinQueue))
    case FinQueue => Go(sh, f, Fin(if sh.pending == [] then FinIdle else FinRetry))
    case FinRetry => UnlockR(sh, f, Slow(DrainEntry))
    case FinIdle =>
      Go(if sh.seqNo.Active? then sh.(seqNo := Idle(sh.seqNo.idx + 1)) else sh, f, Fin(FinActive))
    case FinActive => Go(sh.(active := false), f, Fin(FinGid))
    case FinGid => Go(sh.(gid := 0), f, Fin(FinContended))
    case FinContended => Go(sh.(contended := false), f, Fin(FinRelease))
    case FinRelease => UnlockR(sh, f, Fin(FinUnlock))
    case FinUnlock => Go(sh.(mu := Free), f, PostCheck(false))
  }

  /** The tag observed by `activeFastEvictTag`. */
  predicate FastTag(sh: Shared) {
    sh.seqNo.Active? && sh.seqNo.fast && !sh.active
  }

  function FindMove(sh: Shared, v: View, g: Gid, f: Frame, p: FindPc, choice: bool): (r: Outcome)
    ensures Silent(sh, f, r)
    ensures r.Moved? ==> r.sh.mu == sh.mu && r.sh.rmu == sh.rmu
    ensures r.Moved?
  {
    match p
    case SlowEntry =>
      // A marker frame is on this goroutine's stack exactly when it is running the tagged callbacks.
      Moved(sh, f.(pc := Find(Gid1), myTag := v == OwnedBy(g, Fast(FastDeliver))), [])
    case Gid1 =>
      Moved(sh, f.(holder := sh.gid,
                   pc := if sh.gid != 0 then Match(SeqLoad) else if f.myTag then Tag(TagLock) else Find(Gid2)), [])
    case Gid2 =>
      Moved(sh, f.(holder := sh.gid, pc := if sh.gid != 0 then Match(SeqLoad) else Find(ActiveProbe)), [])
    case ActiveProbe => Go(sh, f, if choice then Res(ResLock) else Wait)
  }

  function TagMove(sh: Shared, g: Gid, d: nat, f: Frame, p: TagPc): (r: Outcome)
    ensures Silent(sh, f, r)
    ensures OnlyRmu(sh, g, d, r)
    ensures r.Blocked? ==> !sh.rmu.Free? && p.TagLock?
  {
    match p
    case TagLock => LockR(sh, g, d, f, Tag(TagCheck))
    case TagCheck => Go(sh, f, Tag(if FastTag(sh) then TagContended else TagUnlock))
    case TagContended => Go(sh.(contended := true), f, Tag(TagGid))
    case TagGid => Go(if sh.gid == 0 then sh.(gid := g) else sh, f, Tag(TagUnlock))
    case TagUnlock => UnlockR(sh, f, Find(Gid2))
  }

  function ResMove(sh: Shared, g: Gid, d: nat, f: Frame, p: ResPc): (r: Outcome)
    ensures Silent(sh, f, r)
    ensures OnlyRmu(sh, g, d, r)
    ensures r.Blocked? ==> !sh.rmu.Free? && p.ResLock?
  {
    match p
    case ResLock => LockR(sh, g, d, f, Res(ResContended))
    case ResContended => Go(sh.(contended := true), f, Res(ResSeq))
    case ResSeq => Moved(sh, f.(pc := Res(ResDecide), seenFast := FastTag(sh)), [])
    case ResDecide =>
      if !f.seenFast && !sh.active then
        Moved(if sh.gid == 0 then sh.(contended := false) else sh, f.(pc := Res(ResUnlock), holder := 0), [])
      else if sh.gid != 0 then Moved(sh, f.(pc := Res(ResUnlock), holder := sh.gid), [])
      else Go(sh, f, Search(SearchTag))
    case ResUnlock => UnlockR(sh, f, if f.holder == 0 then Wait else Match(SeqLoad))
  }

  function SearchMove(sh: Shared, v: View, f: Frame, p: SearchPc, choice: bool): (r: Outcome)
    ensures Silent(sh, f, r)
    ensures r.Moved? ==> r.sh.mu == sh.mu && r.sh.rmu == sh.rmu
    ensures r.Moved?
  {
    var giveUp := Moved(sh, f.(pc := Res(ResUnlock), holder := sh.gid), []);
    match p
    case SearchTag => if FastTag(sh) then Go(sh, f, Search(SearchStacks)) else giveUp
    case SearchStacks =>
      // The stack search finds the goroutine whose stack shows the tagged frame, or nothing.
      if v.OwnedBy? && v.pc == Fast(FastDeliver) && choice then
        Moved(sh, f.(pc := Search(SearchRecheck), holder := v.gid), [])
      else giveUp
    case SearchRecheck => if FastTag(sh) || sh.active then Go(sh, f, Search(SearchStore)) else giveUp
    case SearchStore => Go(sh.(gid := f.holder), f, Res(ResUnlock))
  }

  function MatchMove(sh: Shared, g: Gid, f: Frame, p: MatchPc, choice: bool): (r: Outcome)
    ensures Silent(sh, f, r)
    ensures r.Moved? ==> r.sh.mu == sh.mu && r.sh.rmu == sh.rmu
    ensures r.Moved?
  {
    match p
    case SeqLoad =>
      Moved(sh, f.(hs := sh.seqNo,
                   pc := if sh.seqNo.Idle? then Wait
                         else Match(if f.holder == g then SelfSeq else HolderGid)), [])
    case SelfSeq => Go(sh, f, if sh.seqNo == f.hs then Enq(EnqCheck) else Wait)
    case HolderGid => Go(sh, f, if sh.gid == f.holder then Match(HolderSeq) else Wait)
    case HolderSeq => Go(sh, f, if sh.seqNo == f.hs then Match(Ancestry) else Wait)
    case Ancestry => Go(sh, f, if choice then Match(AncestrySeq) else Wait)
    case AncestrySeq => Go(sh, f, if sh.seqNo == f.hs then Enq(EnqCheck) else Wait)
  }

  function EnqMove(sh: Shared, g: Gid, d: nat, f: Frame, p: EnqPc): (r: Outcome)
    ensures OnlyRmu(sh, g, d, r)
    ensures r.Moved? ==> r.f.drain == f.drain && r.out == []
    ensures r.Blocked? ==> !sh.rmu.Free? && p.EnqLock?
  {
    match p
    case EnqCheck => Go(sh, f, if sh.seqNo == f.hs then Enq(EnqLock) else Find(SlowEntry))
    case EnqLock => LockR(sh, g, d, f, Enq(EnqAppend))
    case EnqAppend =>
      if sh.seqNo == f.hs then
        Moved(sh.(pending := sh.pending + f.batch), f.(batch := [], pc := Enq(EnqFlag)), [])
      else Go(sh, f, Enq(EnqReject))
    case EnqFlag => Go(sh.(flag := true), f, Enq(EnqUnlock))
    case EnqUnlock => UnlockR(sh, f, Done)
    case EnqReject => UnlockR(sh, f, Find(SlowEntry))
  }

  /** The lock attempts of a caller; a TryLock may fail even when the mutex is free. */
  function LockMove(sh: Shared, g: Gid, d: nat, f: Frame, choice: bool): (r: Outcome)
    ensures Silent(sh, f, r)
    ensures r.Moved? ==> r.sh.rmu == sh.rmu && (r.sh.mu == sh.mu || (OwnsMu(r.f.pc) && r.sh.mu == Held(g, d)))
    ensures r.Blocked? && f.pc.Wait? ==> !sh.mu.Free?
    ensures r.Blocked? ==> !f.pc.Enter? && !f.pc.PostCheck? && !f.pc.PostTry?
  {
    match f.pc
    case Enter =>
      if sh.mu.Free? && choice then Go(TakeMu(sh, g, d), f, Begin(ByTry)) else Go(sh, f, Find(SlowEntry))
    case Wait => if sh.mu.Free? then Go(TakeMu(sh, g, d), f, Begin(ByWait)) else Blocked
    case PostCheck(prep) => Go(sh, f, if sh.flag then PostTry(prep) else Done)
    case PostTry(prep) =>
      if sh.mu.Free? && choice then Go(TakeMu(sh, g, d), f, Begin(ByRetry(prep))) else Go(sh, f, Done)
    case _ => Blocked
  }

  /** One step of one activation, given what a stack capture would show of the holder. */
  function Move(sh: Shared, v: View, g: Gid, d: nat, f: Frame, choice: bool): Outcome {
    match f.pc
    case Begin(start) => BeginMove(sh, f, start, choice)
    case Reg(r, k) => RegMove(sh, g, d, f, r, k)
    case Act(a, k) => ActMove(sh, g, d, f, a, k)
    case Fast(p) => FastMove(sh, f, p)
    case Slow(p) => SlowMove(sh, f, p)
    case Drain(p) => DrainMove(sh, g, d, f, p)
    case Fin(p) => FinMove(sh, g, d, f, p)
    case Find(p) => FindMove(sh, v, g, f, p, choice)
    case Tag(p) => TagMove(sh, g, d, f, p)
    case Res(p) => ResMove(sh, g, d, f, p)
    case Search(p) => SearchMove(sh, v, f, p, choice)
    case Match(p) => MatchMove(sh, g, f, p, choice)
    case Enq(p) => EnqMove(sh, g, d, f, p)
    case _ => LockMove(sh, g, d, f, choice)
  }

  // ---------------------------------------------------------------------------------------------
  // The transition system
  // ---------------------------------------------------------------------------------------------

  predicate At(s: State, g: Gid, d: int) {
    g in s.stacks && 0 <= d < |s.stacks[g]|
  }

  function StackOf(s: State, g: Gid): seq<Frame> {
    if g in s.stacks then s.stacks[g] else []
  }

  function OwnerView(s: State): View {
    if s.sh.mu.Held? && At(s, s.sh.mu.gid, s.sh.mu.depth)
    then OwnedBy(s.sh.mu.gid, s.stacks[s.sh.mu.gid][s.sh.mu.depth].pc) else NoOwner
  }

  predicate Init(s: State) {
    && s.sh == Shared(Idle(0), 0, false, 0, false, false, [], Free, Free)
    && s.stacks == map[]
    && s.calls == 0 && s.submitted == multiset{} && s.log == []
  }

  datatype Action =
    | Invoke(g: Gid, size: nat)           // an operation with `size` evictions finishes on goroutine g
    | Run(g: Gid, choice: bool)           // the innermost activation of g takes one step
    | Return(g: Gid)                      // it has finished
    | Borrow | GiveBack                   // another cache takes and drops the mutex for the tag lease

  predicate Enabled(s: State, a: Action) {
    match a
    case Invoke(g, size) =>
      0 < size && (StackOf(s, g) == [] || Delivering(s.stacks[g][|s.stacks[g]| - 1].pc))
    case Run(g, choice) =>
      StackOf(s, g) != [] && var d := |s.stacks[g]| - 1;
      Move(s.sh, OwnerView(s), g, d, s.stacks[g][d], choice).Moved?
    case Return(g) => StackOf(s, g) != [] && s.stacks[g][|s.stacks[g]| - 1].pc.Done?
    case Borrow => s.sh.mu.Free?
    case GiveBack => s.sh.mu.Lessee?
  }

  function Apply(s: State, a: Action): State
    requires Enabled(s, a)
  {
    match a
    case Invoke(g, size) =>
      var batch := Batch(s.calls, size);
      s.(stacks := s.stacks[g := StackOf(s, g) + [NewFrame(batch)]], calls := s.calls + 1,
         submitted := s.submitted + multiset(batch))
    case Run(g, choice) =>
      var d := |s.stacks[g]| - 1;
      var m := Move(s.sh, OwnerView(s), g, d, s.stacks[g][d], choice);
      s.(sh := m.sh, stacks := s.stacks[g := s.stacks[g][d := m.f]], log := s.log + m.out)
    case Return(g) => s.(stacks := s.stacks[g := s.stacks[g][..|s.stacks[g]| - 1]])
    case Borrow => s.(sh := s.sh.(mu := Lessee))
    case GiveBack => s.(sh := s.sh.(mu := Free))
  }

  /** The states reached by performing `acts` from `s`, as far as each action is enabled. */
  predicate Reaches(s: State, acts: seq<Action>, t: State)
    decreases |acts|
  {
    if acts == [] then s == t
    else Enabled(s, acts[0]) && Reaches(Apply(s, acts[0]), acts[1..], t)
  }

  ghost predicate Reachable(t: State) {
    exists s, acts :: Init(s) && Reaches(s, acts, t)
  }
}

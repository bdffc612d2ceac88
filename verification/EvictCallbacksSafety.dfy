/**
 Safety of the callback delivery protocol on every interleaving: events are delivered exactly once,
 callbacks are serialized, no event is stranded in the pending queue, a nested call never waits for
 the mutex its own goroutine holds, and some step is always possible.
 */
module EvictCallbacksSafety {
  import opened EvictCallbacks

  // ---------------------------------------------------------------------------------------------
  // The invariant, split into what the holder guarantees and what each other activation knows
  // ---------------------------------------------------------------------------------------------

  /** The hold sequence shows the current hold. */
  predicate SeqActive(sh: Shared) { sh.seqNo.Active? && sh.seqNo.idx == sh.cur }

  /** The hold sequence shows that the current hold is over. */
  predicate SeqClosed(sh: Shared) { sh.seqNo == Idle(sh.cur + 1) }

  /** A hold that still carries its fast tag has been announced by `evictCallbackActive`. */
  predicate Announced(sh: Shared) { sh.seqNo.Active? && sh.seqNo.fast ==> sh.active }

  predicate FastOk(sh: Shared, p: FastPc) {
    && !sh.active
    && (if p.FastContended2? || p.FastPending2? || p.FastUnlock? then SeqClosed(sh)
        else sh.seqNo == Active(sh.cur, true))
    && (p.FastPending2? || p.FastUnlock? ==> sh.gid == 0)
  }

  predicate SlowOk(sh: Shared, p: SlowPc) {
    && (SeqActive(sh) || (p.PrepSeq? && SeqClosed(sh)))
    && (p.SlowDeliver? || p.EnsureActive? ==> sh.gid != 0)
    && (!p.PrepSeq? && !p.PrepGid? ==> Announced(sh))
  }

  predicate FinOk(sh: Shared, p: FinPc) {
    match p
    case FinLock | FinPending | FinRetry => SeqActive(sh) && Announced(sh)
    case FinQueue => SeqActive(sh) && Announced(sh) && !sh.flag
    case FinIdle => SeqActive(sh) && Announced(sh) && !sh.flag && sh.pending == []
    case FinActive => SeqClosed(sh) && !sh.flag && sh.pending == []
    case FinGid => SeqClosed(sh) && !sh.flag && sh.pending == [] && !sh.active
    case _ => SeqClosed(sh) && sh.gid == 0
  }

  /** What holds of the shared fields at each point of the holder's program. */
  predicate HolderOk(sh: Shared, pc: Pc) {
    match pc
    case Begin(_) => sh.seqNo.Idle? && sh.gid == 0
    case Reg(r, _) =>
      && SeqActive(sh)
      && (r.RegActive? || r.RegUnlock? ==> sh.gid != 0)
      && (r.RegGid? ==> sh.contended)
      && (r.RegUnlock? ==> Announced(sh))
    case Act(a, k) => SeqActive(sh) && sh.gid != 0 && !k.ToDeliver? && (a.ActUnlock? ==> Announced(sh))
    case Fast(p) => FastOk(sh, p)
    case Slow(p) => SlowOk(sh, p)
    case Drain(_) => SeqActive(sh) && sh.gid != 0 && Announced(sh)
    case Fin(p) => FinOk(sh, p)
    case _ => true
  }

  /** What holds of the shared fields, given who has the callback mutex. */
  predicate OwnerOk(sh: Shared, v: View) {
    && (sh.gid != 0 ==> sh.contended && v.OwnedBy? && v.gid == sh.gid)
    && (sh.active || sh.flag || sh.pending != [] ==> sh.gid != 0)
    && (if v.NoOwner? then sh.seqNo.Idle? else HolderOk(sh, v.pc))
  }

  /** A hold sequence number seen as active can only name the current hold or an earlier one. */
  predicate Seen(sh: Shared, v: View, hs: HoldSeq) {
    hs.Active? &&
    match sh.seqNo
    case Active(i, b) => hs.idx < i || (hs.idx == i && (hs.fast || !b))
    case Idle(i) =>
      && hs.idx < i
      && (v.OwnedBy? && (v.pc == Fast(FastContended2) || v.pc == Fast(FastPending2) || v.pc == Slow(PrepSeq))
          ==> hs != Active(i - 1, false))
  }

  /** Where the holder can be while a resolver that saw its fast hold is at work: it cannot
      complete a fast unlock. */
  predicate Detained(pc: Pc) {
    match pc
    case Fast(p) => !p.FastPending2? && !p.FastUnlock?
    case Slow(p) => p.PrepSeq? || p.PrepGid?
    case Reg(r, _) => r.RegLock?
    case Act(a, _) => a.ActLock?
    case _ => false
  }

  predicate ResOk(sh: Shared, v: View, g: Gid, f: Frame, p: ResPc) {
    match p
    case ResLock | ResContended => true
    case ResSeq => sh.contended
    case ResDecide => f.seenFast ==> sh.contended && v.OwnedBy? && Detained(v.pc)
    case ResUnlock => f.holder != g
  }

  predicate SearchOk(sh: Shared, v: View, f: Frame, p: SearchPc) {
    && sh.contended && v.OwnedBy? && Detained(v.pc) && sh.gid == 0
    && (p.SearchRecheck? || p.SearchStore? ==> f.holder == v.gid)
  }

  predicate MatchOk(sh: Shared, v: View, g: Gid, f: Frame, p: MatchPc) {
    match p
    case SeqLoad => f.holder != 0 && (f.holder == g ==> v.OwnedBy? && v.gid == g)
    case SelfSeq => f.holder == g && v.OwnedBy? && v.gid == g && Seen(sh, v, f.hs)
    case HolderGid => f.holder != 0 && Seen(sh, v, f.hs)
    case _ => Seen(sh, v, f.hs) && (sh.seqNo == f.hs ==> sh.gid != 0)
  }

  /** What an activation without the callback mutex may rely on. */
  predicate CallerOk(sh: Shared, v: View, g: Gid, f: Frame) {
    match f.pc
    case Find(p) => p.Gid1? && f.myTag ==> v == OwnedBy(g, Fast(FastDeliver))
    case Tag(p) => !p.TagUnlock? ==> v == OwnedBy(g, Fast(FastDeliver)) && (p.TagGid? ==> sh.contended)
    case Res(p) => ResOk(sh, v, g, f, p)
    case Search(p) => SearchOk(sh, v, f, p)
    case Match(p) => MatchOk(sh, v, g, f, p)
    case Enq(p) =>
      match p {
        case EnqCheck | EnqLock | EnqAppend => Seen(sh, v, f.hs) && (sh.seqNo == f.hs ==> sh.gid != 0)
        case EnqFlag => sh.gid != 0
        case _ => true
      }
    case _ => true
  }

  /** A nested activation of the holder's goroutine: it finds its own goroutine registered, and the
      hold it belongs to cannot end before it returns. */
  predicate NestedOk(sh: Shared, v: View, g: Gid, f: Frame)
    requires v.OwnedBy?
  {
    Delivering(v.pc) &&
    match f.pc
    case Enter | Done => true
    case Find(p) =>
      match p {
        case SlowEntry => true
        case Gid1 => v.pc == Fast(FastDeliver) ==> f.myTag
        case Gid2 => sh.gid == g
        case ActiveProbe => false
      }
    case Tag(p) => p.TagUnlock? ==> sh.gid == g
    case Match(p) => (p.SeqLoad? || p.SelfSeq?) && f.holder == g && sh.gid == g && (p.SelfSeq? ==> sh.seqNo == f.hs)
    case Enq(p) => !p.EnqReject? && (p.EnqCheck? || p.EnqLock? || p.EnqAppend? ==> sh.seqNo == f.hs)
    case _ => false
  }

  predicate SelfNested(v: View, g: Gid) { v.OwnedBy? && v.gid == g }

  /** Points after the own batch has been delivered or handed over. */
  predicate Spent(pc: Pc) {
    match pc
    case Fast(p) => !p.FastDeliver?
    case Slow(p) => !p.SlowDeliver?
    case Reg(_, k) => !k.ToDeliver?
    case Begin(start) => start.ByRetry?
    case Act(_, k) => !k.ToDeliver?
    case Drain(_) | Fin(_) | PostCheck(_) | PostTry(_) | Done => true
    case Enq(p) => p.EnqFlag? || p.EnqUnlock?
    case _ => false
  }

  /** Everything one activation contributes to the invariant. */
  predicate FrameOk(sh: Shared, v: View, g: Gid, d: nat, f: Frame) {
    && (OwnsMu(f.pc) <==> sh.mu == Held(g, d))
    && (HasRmu(f.pc) <==> sh.rmu == Held(g, d))
    && (if OwnsMu(f.pc) then v == OwnedBy(g, f.pc)
        else CallerOk(sh, v, g, f) && (SelfNested(v, g) ==> NestedOk(sh, v, g, f)))
    && (Spent(f.pc) ==> f.batch == [])
    && (f.drain != [] ==> f.pc == Drain(DrainClear) || f.pc == Drain(DrainUnlock) || f.pc == Drain(DrainDeliver))
  }

  ghost predicate Inv(s: State) {
    && (s.sh.mu.Held? ==> At(s, s.sh.mu.gid, s.sh.mu.depth))
    && (s.sh.rmu.Held? ==> At(s, s.sh.rmu.gid, s.sh.rmu.depth))
    && !s.sh.rmu.Lessee?
    && OwnerOk(s.sh, OwnerView(s))
    && (forall g, d :: At(s, g, d) ==> FrameOk(s.sh, OwnerView(s), g, d, s.stacks[g][d]))
    && (forall g, d :: At(s, g, d) && d < |s.stacks[g]| - 1 ==> Delivering(s.stacks[g][d].pc))
  }

  // ---------------------------------------------------------------------------------------------
  // One step keeps the invariant: pointwise lemmas without any quantifier
  // ---------------------------------------------------------------------------------------------

  /** The holder as seen after `f` moved to `f'`. */
  function NextView(v: View, g: Gid, f: Frame, f': Frame): View {
    if OwnsMu(f'.pc) then OwnedBy(g, f'.pc) else if OwnsMu(f.pc) then NoOwner else v
  }

  /** The view agrees with the mutex. */
  predicate ViewOk(sh: Shared, v: View) {
    && (v.OwnedBy? <==> sh.mu.Held?)
    && (v.OwnedBy? ==> v.gid == sh.mu.gid && OwnsMu(v.pc) && (HasRmu(v.pc) <==> sh.rmu == sh.mu))
  }

  /** The caller is about to try, wait for, or check after a lock of the callback mutex. */
  predicate AtLock(pc: Pc) { pc.Enter? || pc.Wait? || pc.PostCheck? || pc.PostTry? }

  /** What the moving activation and the shared fields satisfy together. */
  predicate SelfOk(sh: Shared, v: View, g: Gid, d: nat, f: Frame) {
    OwnerOk(sh, v) && ViewOk(sh, v) && FrameOk(sh, v, g, d, f) && !sh.rmu.Lessee?
  }

  /** The same condition for an activation that is not moving. */
  predicate OtherOk(sh: Shared, v: View, g: Gid, d: nat, f: Frame) { FrameOk(sh, v, g, d, f) }

  // Effects of a caller's step on the others.

  lemma OtherRmu(sh: Shared, v: View, r: Owner, g: Gid, d: nat, f: Frame)
    requires OtherOk(sh, v, g, d, f) && (sh.rmu == Held(g, d) <==> r == Held(g, d))
    ensures OtherOk(sh.(rmu := r), v, g, d, f)
  {
  }

  lemma OtherContended(sh: Shared, v: View, b: bool, g: Gid, d: nat, f: Frame)
    requires OtherOk(sh, v, g, d, f) && (b || sh.rmu != Held(g, d))
    ensures OtherOk(sh.(contended := b), v, g, d, f)
  {
  }

  lemma OtherGid(sh: Shared, v: View, g: Gid, d: nat, f: Frame)
    requires OtherOk(sh, v, g, d, f) && v.OwnedBy? && sh.gid == 0 && sh.rmu != Held(g, d)
    ensures OtherOk(sh.(gid := v.gid), v, g, d, f)
  {
  }

  lemma OtherQueue(sh: Shared, v: View, pending: seq<Event>, flag: bool, g: Gid, d: nat, f: Frame)
    requires OtherOk(sh, v, g, d, f)
    ensures OtherOk(sh.(pending := pending, flag := flag), v, g, d, f)
  {
  }

  lemma OtherTaken(sh: Shared, g: Gid, d: nat, start: Start, g2: Gid, d2: nat, f2: Frame)
    requires OtherOk(sh, NoOwner, g2, d2, f2) && OwnerOk(sh, NoOwner) && sh.mu.Free? && g2 != g
    ensures OtherOk(sh.(mu := Held(g, d)), OwnedBy(g, Begin(start)), g2, d2, f2)
  {
  }

  // Effects of the holder's step on the others.

  /** Reading on without having decided yet whether the fast hold may be reopened. */
  predicate Closing(pc: Pc) { pc == Fast(FastContended2) || pc == Fast(FastPending2) || pc == Slow(PrepSeq) }

  lemma OtherView(sh: Shared, g: Gid, pc: Pc, pc': Pc, g2: Gid, d2: nat, f2: Frame)
    requires OtherOk(sh, OwnedBy(g, pc), g2, d2, f2) && g2 != g && sh.mu.Held? && sh.mu.gid == g
    requires Detained(pc) && sh.contended ==> Detained(pc')
    requires sh.seqNo.Idle? && Closing(pc') ==> Closing(pc)
    ensures OtherOk(sh, OwnedBy(g, pc'), g2, d2, f2)
  {
  }

  lemma OtherClose(sh: Shared, g: Gid, pc: Pc, pc': Pc, g2: Gid, d2: nat, f2: Frame)
    requires OtherOk(sh, OwnedBy(g, pc), g2, d2, f2) && g2 != g && sh.mu.Held? && sh.mu.gid == g
    requires SeqActive(sh) && (Detained(pc) ==> Detained(pc')) && (Closing(pc') ==> sh.seqNo.fast)
    ensures OtherOk(sh.(seqNo := Idle(sh.cur + 1)), OwnedBy(g, pc'), g2, d2, f2)
  {
  }

  lemma OtherReopen(sh: Shared, g: Gid, pc: Pc, pc': Pc, g2: Gid, d2: nat, f2: Frame)
    requires OtherOk(sh, OwnedBy(g, pc), g2, d2, f2) && g2 != g && sh.mu.Held? && sh.mu.gid == g
    requires SeqClosed(sh) && Closing(pc) && (Detained(pc) ==> Detained(pc'))
    ensures OtherOk(sh.(seqNo := Active(sh.cur, false)), OwnedBy(g, pc'), g2, d2, f2)
  {
  }

  lemma OtherRelease(sh: Shared, g: Gid, pc: Pc, g2: Gid, d2: nat, f2: Frame)
    requires OtherOk(sh, OwnedBy(g, pc), g2, d2, f2) && g2 != g && sh.mu.Held? && sh.mu.gid == g
    requires !Detained(pc)
    ensures OtherOk(sh.(mu := Free), NoOwner, g2, d2, f2)
  {
  }

  lemma BeginShared(sh: Shared, v: View, g: Gid, d: nat, f: Frame, start: Start, choice: bool)
    requires SelfOk(sh, v, g, d, f) && f.pc == Begin(start) && BeginMove(sh, f, start, choice).Moved?
    ensures var m := BeginMove(sh, f, start, choice); var v' := NextView(v, g, f, m.f);
            OwnerOk(m.sh, v') && ViewOk(m.sh, v') && !m.sh.rmu.Lessee?
  {
    hide CallerOk, NestedOk;
  }

  lemma BeginOwn(sh: Shared, v: View, g: Gid, d: nat, f: Frame, start: Start, choice: bool)
    requires SelfOk(sh, v, g, d, f) && f.pc == Begin(start) && BeginMove(sh, f, start, choice).Moved?
    ensures var m := BeginMove(sh, f, start, choice); var v' := NextView(v, g, f, m.f);
            FrameOk(m.sh, v', g, d, m.f)
  {
    hide CallerOk, NestedOk, OwnerOk;
  }

  lemma BeginOther(sh: Shared, v: View, g: Gid, d: nat, f: Frame, start: Start, choice: bool, g2: Gid, d2: nat,
      f2: Frame)
    requires SelfOk(sh, v, g, d, f) && OtherOk(sh, v, g2, d2, f2) && f.pc == Begin(start) && g2 != g
    requires BeginMove(sh, f, start, choice).Moved?
    ensures var m := BeginMove(sh, f, start, choice); OtherOk(m.sh, NextView(v, g, f, m.f), g2, d2, f2)
  {
    hide NestedOk;
  }

  lemma RegShared(sh: Shared, v: View, g: Gid, d: nat, f: Frame, p: RegPc, k: After)
    requires SelfOk(sh, v, g, d, f) && f.pc == Reg(p, k) && RegMove(sh, g, d, f, p, k).Moved?
    ensures var m := RegMove(sh, g, d, f, p, k); var v' := NextView(v, g, f, m.f);
            OwnerOk(m.sh, v') && ViewOk(m.sh, v') && !m.sh.rmu.Lessee?
  {
    hide CallerOk, NestedOk;
  }

  lemma RegOwn(sh: Shared, v: View, g: Gid, d: nat, f: Frame, p: RegPc, k: After)
    requires SelfOk(sh, v, g, d, f) && f.pc == Reg(p, k) && RegMove(sh, g, d, f, p, k).Moved?
    ensures var m := RegMove(sh, g, d, f, p, k); var v' := NextView(v, g, f, m.f);
            FrameOk(m.sh, v', g, d, m.f)
  {
    hide CallerOk, NestedOk, OwnerOk;
  }

  lemma RegOther(sh: Shared, v: View, g: Gid, d: nat, f: Frame, p: RegPc, k: After, g2: Gid, d2: nat, f2: Frame)
    requires SelfOk(sh, v, g, d, f) && OtherOk(sh, v, g2, d2, f2) && f.pc == Reg(p, k) && g2 != g
    requires RegMove(sh, g, d, f, p, k).Moved?
    ensures var m := RegMove(sh, g, d, f, p, k); OtherOk(m.sh, NextView(v, g, f, m.f), g2, d2, f2)
  {
    hide NestedOk, HolderOk;
  }

  lemma ActShared(sh: Shared, v: View, g: Gid, d: nat, f: Frame, p: ActPc, k: After)
    requires SelfOk(sh, v, g, d, f) && f.pc == Act(p, k) && ActMove(sh, g, d, f, p, k).Moved?
    ensures var m := ActMove(sh, g, d, f, p, k); var v' := NextView(v, g, f, m.f);
            OwnerOk(m.sh, v') && ViewOk(m.sh, v') && !m.sh.rmu.Lessee?
  {
    hide CallerOk, NestedOk;
  }

  lemma ActOwn(sh: Shared, v: View, g: Gid, d: nat, f: Frame, p: ActPc, k: After)
    requires SelfOk(sh, v, g, d, f) && f.pc == Act(p, k) && ActMove(sh, g, d, f, p, k).Moved?
    ensures var m := ActMove(sh, g, d, f, p, k); var v' := NextView(v, g, f, m.f);
            FrameOk(m.sh, v', g, d, m.f)
  {
    hide CallerOk, NestedOk, OwnerOk;
  }

  lemma ActOther(sh: Shared, v: View, g: Gid, d: nat, f: Frame, p: ActPc, k: After, g2: Gid, d2: nat, f2: Frame)
    requires SelfOk(sh, v, g, d, f) && OtherOk(sh, v, g2, d2, f2) && f.pc == Act(p, k) && g2 != g
    requires ActMove(sh, g, d, f, p, k).Moved?
    ensures var m := ActMove(sh, g, d, f, p, k); OtherOk(m.sh, NextView(v, g, f, m.f), g2, d2, f2)
  {
    hide NestedOk, HolderOk;
  }

  lemma FastShared(sh: Shared, v: View, g: Gid, d: nat, f: Frame, p: FastPc)
    requires SelfOk(sh, v, g, d, f) && f.pc == Fast(p) && FastMove(sh, f, p).Moved?
    ensures var m := FastMove(sh, f, p); var v' := NextView(v, g, f, m.f);
            OwnerOk(m.sh, v') && ViewOk(m.sh, v') && !m.sh.rmu.Lessee?
  {
    hide CallerOk, NestedOk;
  }

  lemma FastOwn(sh: Shared, v: View, g: Gid, d: nat, f: Frame, p: FastPc)
    requires SelfOk(sh, v, g, d, f) && f.pc == Fast(p) && FastMove(sh, f, p).Moved?
    ensures var m := FastMove(sh, f, p); var v' := NextView(v, g, f, m.f);
            FrameOk(m.sh, v', g, d, m.f)
  {
    hide OwnerOk, Seen, MatchOk, ResOk, SearchOk;
  }

  lemma FastOther(sh: Shared, v: View, g: Gid, d: nat, f: Frame, p: FastPc, g2: Gid, d2: nat, f2: Frame)
    requires SelfOk(sh, v, g, d, f) && OtherOk(sh, v, g2, d2, f2) && f.pc == Fast(p) && g2 != g
    requires FastMove(sh, f, p).Moved?
    ensures var m := FastMove(sh, f, p); OtherOk(m.sh, NextView(v, g, f, m.f), g2, d2, f2)
  {
    hide OtherOk;
    var m := FastMove(sh, f, p);
    var pc' := m.f.pc;
    match p
    case FastStoreIdle => OtherClose(sh, g, f.pc, pc', g2, d2, f2);
    case FastUnlock => OtherRelease(sh, g, f.pc, g2, d2, f2);
    case _ => OtherView(sh, g, f.pc, pc', g2, d2, f2);
  }

  lemma SlowShared(sh: Shared, v: View, g: Gid, d: nat, f: Frame, p: SlowPc)
    requires SelfOk(sh, v, g, d, f) && f.pc == Slow(p) && SlowMove(sh, f, p).Moved?
    ensures var m := SlowMove(sh, f, p); var v' := NextView(v, g, f, m.f);
            OwnerOk(m.sh, v') && ViewOk(m.sh, v') && !m.sh.rmu.Lessee?
  {
    hide CallerOk, NestedOk;
  }

  lemma SlowOwn(sh: Shared, v: View, g: Gid, d: nat, f: Frame, p: SlowPc)
    requires SelfOk(sh, v, g, d, f) && f.pc == Slow(p) && SlowMove(sh, f, p).Moved?
    ensures var m := SlowMove(sh, f, p); var v' := NextView(v, g, f, m.f);
            FrameOk(m.sh, v', g, d, m.f)
  {
    hide CallerOk, NestedOk, OwnerOk;
  }

  lemma SlowOther(sh: Shared, v: View, g: Gid, d: nat, f: Frame, p: SlowPc, g2: Gid, d2: nat, f2: Frame)
    requires SelfOk(sh, v, g, d, f) && OtherOk(sh, v, g2, d2, f2) && f.pc == Slow(p) && g2 != g
    requires SlowMove(sh, f, p).Moved?
    ensures var m := SlowMove(sh, f, p); OtherOk(m.sh, NextView(v, g, f, m.f), g2, d2, f2)
  {
    hide OtherOk;
    var m := SlowMove(sh, f, p);
    var pc' := m.f.pc;
    if p.PrepSeq? && sh.seqNo.Idle? {
      OtherReopen(sh, g, f.pc, pc', g2, d2, f2);
    } else {
      OtherView(sh, g, f.pc, pc', g2, d2, f2);
    }
  }

  lemma DrainShared(sh: Shared, v: View, g: Gid, d: nat, f: Frame, p: DrainPc)
    requires SelfOk(sh, v, g, d, f) && f.pc == Drain(p) && DrainMove(sh, g, d, f, p).Moved?
    ensures var m := DrainMove(sh, g, d, f, p); var v' := NextView(v, g, f, m.f);
            OwnerOk(m.sh, v') && ViewOk(m.sh, v') && !m.sh.rmu.Lessee?
  {
    hide CallerOk, NestedOk;
  }

  lemma DrainOwn(sh: Shared, v: View, g: Gid, d: nat, f: Frame, p: DrainPc)
    requires SelfOk(sh, v, g, d, f) && f.pc == Drain(p) && DrainMove(sh, g, d, f, p).Moved?
    ensures var m := DrainMove(sh, g, d, f, p); var v' := NextView(v, g, f, m.f);
            FrameOk(m.sh, v', g, d, m.f)
  {
    hide CallerOk, NestedOk, OwnerOk;
  }

  lemma DrainOther(sh: Shared, v: View, g: Gid, d: nat, f: Frame, p: DrainPc, g2: Gid, d2: nat, f2: Frame)
    requires SelfOk(sh, v, g, d, f) && OtherOk(sh, v, g2, d2, f2) && f.pc == Drain(p) && g2 != g
    requires DrainMove(sh, g, d, f, p).Moved?
    ensures var m := DrainMove(sh, g, d, f, p); OtherOk(m.sh, NextView(v, g, f, m.f), g2, d2, f2)
  {
    hide OtherOk;
    var m := DrainMove(sh, g, d, f, p);
    OtherView(sh, g, f.pc, m.f.pc, g2, d2, f2);
    OtherQueue(sh, OwnedBy(g, m.f.pc), m.sh.pending, m.sh.flag, g2, d2, f2);
    OtherRmu(sh.(pending := m.sh.pending, flag := m.sh.flag), OwnedBy(g, m.f.pc), m.sh.rmu, g2, d2, f2);
  }

  /** The last look at the queue keeps what holds of the shared fields. */
  lemma FinLooks(sh: Shared, g: Gid, d: nat, f: Frame, p: FinPc)
    requires OwnerOk(sh, OwnedBy(g, f.pc)) && f.pc == Fin(p) && FinMove(sh, g, d, f, p).Moved?
    requires p.FinLock? || p.FinPending? || p.FinQueue? || p.FinRetry?
    ensures var m := FinMove(sh, g, d, f, p); OwnerOk(m.sh, NextView(OwnedBy(g, f.pc), g, f, m.f))
  {
  }

  /** So does each step of ending the hold. */
  lemma FinEnds(sh: Shared, g: Gid, d: nat, f: Frame, p: FinPc)
    requires OwnerOk(sh, OwnedBy(g, f.pc)) && f.pc == Fin(p) && FinMove(sh, g, d, f, p).Moved?
    requires p.FinIdle? || p.FinActive? || p.FinGid? || p.FinContended? || p.FinRelease? || p.FinUnlock?
    ensures var m := FinMove(sh, g, d, f, p); OwnerOk(m.sh, NextView(OwnedBy(g, f.pc), g, f, m.f))
  {
  }

  lemma FinShared(sh: Shared, v: View, g: Gid, d: nat, f: Frame, p: FinPc)
    requires SelfOk(sh, v, g, d, f) && f.pc == Fin(p) && FinMove(sh, g, d, f, p).Moved?
    ensures var m := FinMove(sh, g, d, f, p); var v' := NextView(v, g, f, m.f);
            OwnerOk(m.sh, v') && ViewOk(m.sh, v') && !m.sh.rmu.Lessee?
  {
    hide CallerOk, NestedOk, OwnerOk;
    if p.FinLock? || p.FinPending? || p.FinQueue? || p.FinRetry? {
      FinLooks(sh, g, d, f, p);
    } else {
      FinEnds(sh, g, d, f, p);
    }
  }

  lemma FinOwn(sh: Shared, v: View, g: Gid, d: nat, f: Frame, p: FinPc)
    requires SelfOk(sh, v, g, d, f) && f.pc == Fin(p) && FinMove(sh, g, d, f, p).Moved?
    ensures var m := FinMove(sh, g, d, f, p); var v' := NextView(v, g, f, m.f);
            FrameOk(m.sh, v', g, d, m.f)
  {
    hide OwnerOk, Seen, MatchOk, ResOk, SearchOk;
  }

  lemma FinOther(sh: Shared, v: View, g: Gid, d: nat, f: Frame, p: FinPc, g2: Gid, d2: nat, f2: Frame)
    requires SelfOk(sh, v, g, d, f) && OtherOk(sh, v, g2, d2, f2) && f.pc == Fin(p) && g2 != g
    requires FinMove(sh, g, d, f, p).Moved?
    ensures var m := FinMove(sh, g, d, f, p); OtherOk(m.sh, NextView(v, g, f, m.f), g2, d2, f2)
  {
    hide NestedOk;
  }

  lemma FindShared(sh: Shared, v: View, g: Gid, d: nat, f: Frame, p: FindPc, choice: bool)
    requires SelfOk(sh, v, g, d, f) && f.pc == Find(p) && FindMove(sh, v, g, f, p, choice).Moved?
    ensures var m := FindMove(sh, v, g, f, p, choice); var v' := NextView(v, g, f, m.f);
            OwnerOk(m.sh, v') && ViewOk(m.sh, v') && !m.sh.rmu.Lessee?
  {
  }

  lemma FindOwn(sh: Shared, v: View, g: Gid, d: nat, f: Frame, p: FindPc, choice: bool)
    requires SelfOk(sh, v, g, d, f) && f.pc == Find(p) && FindMove(sh, v, g, f, p, choice).Moved?
    ensures var m := FindMove(sh, v, g, f, p, choice); var v' := NextView(v, g, f, m.f);
            FrameOk(m.sh, v', g, d, m.f)
  {
  }

  lemma FindOther(sh: Shared, v: View, g: Gid, d: nat, f: Frame, p: FindPc, choice: bool, g2: Gid, d2: nat, f2: Frame)
    requires SelfOk(sh, v, g, d, f) && OtherOk(sh, v, g2, d2, f2) && f.pc == Find(p)
    requires (g2 != g || (d2 != d && OwnsMu(f2.pc)))
    requires FindMove(sh, v, g, f, p, choice).Moved?
    ensures var m := FindMove(sh, v, g, f, p, choice); OtherOk(m.sh, NextView(v, g, f, m.f), g2, d2, f2)
  {
    hide OtherOk, CallerOk, OwnerOk;
  }

  lemma TagShared(sh: Shared, v: View, g: Gid, d: nat, f: Frame, p: TagPc)
    requires SelfOk(sh, v, g, d, f) && f.pc == Tag(p) && TagMove(sh, g, d, f, p).Moved?
    ensures var m := TagMove(sh, g, d, f, p); var v' := NextView(v, g, f, m.f);
            OwnerOk(m.sh, v') && ViewOk(m.sh, v') && !m.sh.rmu.Lessee?
  {
  }

  lemma TagOwn(sh: Shared, v: View, g: Gid, d: nat, f: Frame, p: TagPc)
    requires SelfOk(sh, v, g, d, f) && f.pc == Tag(p) && TagMove(sh, g, d, f, p).Moved?
    ensures var m := TagMove(sh, g, d, f, p); var v' := NextView(v, g, f, m.f);
            FrameOk(m.sh, v', g, d, m.f)
  {
  }

  lemma TagOther(sh: Shared, v: View, g: Gid, d: nat, f: Frame, p: TagPc, g2: Gid, d2: nat, f2: Frame)
    requires SelfOk(sh, v, g, d, f) && OtherOk(sh, v, g2, d2, f2) && f.pc == Tag(p)
    requires (g2 != g || (d2 != d && OwnsMu(f2.pc)))
    requires TagMove(sh, g, d, f, p).Moved?
    ensures var m := TagMove(sh, g, d, f, p); OtherOk(m.sh, NextView(v, g, f, m.f), g2, d2, f2)
  {
    hide OtherOk;
    match p
    case TagLock => OtherRmu(sh, v, Held(g, d), g2, d2, f2);
    case TagCheck =>
    case TagContended => OtherContended(sh, v, true, g2, d2, f2);
    case TagGid => if sh.gid == 0 { OtherGid(sh, v, g2, d2, f2); }
    case TagUnlock => OtherRmu(sh, v, Free, g2, d2, f2);
  }

  lemma ResShared(sh: Shared, v: View, g: Gid, d: nat, f: Frame, p: ResPc)
    requires SelfOk(sh, v, g, d, f) && f.pc == Res(p) && ResMove(sh, g, d, f, p).Moved?
    ensures var m := ResMove(sh, g, d, f, p); var v' := NextView(v, g, f, m.f);
            OwnerOk(m.sh, v') && ViewOk(m.sh, v') && !m.sh.rmu.Lessee?
  {
    hide NestedOk, Seen, Spent;
  }

  lemma ResOwn(sh: Shared, v: View, g: Gid, d: nat, f: Frame, p: ResPc)
    requires SelfOk(sh, v, g, d, f) && f.pc == Res(p) && ResMove(sh, g, d, f, p).Moved?
    ensures var m := ResMove(sh, g, d, f, p); var v' := NextView(v, g, f, m.f);
            FrameOk(m.sh, v', g, d, m.f)
  {
    hide Seen;
  }

  lemma ResOther(sh: Shared, v: View, g: Gid, d: nat, f: Frame, p: ResPc, g2: Gid, d2: nat, f2: Frame)
    requires SelfOk(sh, v, g, d, f) && OtherOk(sh, v, g2, d2, f2) && f.pc == Res(p)
    requires (g2 != g || (d2 != d && OwnsMu(f2.pc)))
    requires ResMove(sh, g, d, f, p).Moved?
    ensures var m := ResMove(sh, g, d, f, p); OtherOk(m.sh, NextView(v, g, f, m.f), g2, d2, f2)
  {
    hide OtherOk;
    match p
    case ResLock => OtherRmu(sh, v, Held(g, d), g2, d2, f2);
    case ResContended => OtherContended(sh, v, true, g2, d2, f2);
    case ResSeq =>
    case ResDecide => if sh.gid == 0 { OtherContended(sh, v, false, g2, d2, f2); }
    case ResUnlock => OtherRmu(sh, v, Free, g2, d2, f2);
  }

  lemma SearchShared(sh: Shared, v: View, g: Gid, d: nat, f: Frame, p: SearchPc, choice: bool)
    requires SelfOk(sh, v, g, d, f) && f.pc == Search(p) && SearchMove(sh, v, f, p, choice).Moved?
    ensures var m := SearchMove(sh, v, f, p, choice); var v' := NextView(v, g, f, m.f);
            OwnerOk(m.sh, v') && ViewOk(m.sh, v') && !m.sh.rmu.Lessee?
  {
  }

  lemma SearchOwn(sh: Shared, v: View, g: Gid, d: nat, f: Frame, p: SearchPc, choice: bool)
    requires SelfOk(sh, v, g, d, f) && f.pc == Search(p) && SearchMove(sh, v, f, p, choice).Moved?
    ensures var m := SearchMove(sh, v, f, p, choice); var v' := NextView(v, g, f, m.f);
            FrameOk(m.sh, v', g, d, m.f)
  {
  }

  lemma SearchOther(sh: Shared, v: View, g: Gid, d: nat, f: Frame, p: SearchPc, choice: bool, g2: Gid, d2: nat,
      f2: Frame)
    requires SelfOk(sh, v, g, d, f) && OtherOk(sh, v, g2, d2, f2) && f.pc == Search(p)
    requires (g2 != g || (d2 != d && OwnsMu(f2.pc)))
    requires SearchMove(sh, v, f, p, choice).Moved?
    ensures var m := SearchMove(sh, v, f, p, choice); OtherOk(m.sh, NextView(v, g, f, m.f), g2, d2, f2)
  {
    hide OtherOk;
    if p.SearchStore? { OtherGid(sh, v, g2, d2, f2); }
  }

  lemma MatchShared(sh: Shared, v: View, g: Gid, d: nat, f: Frame, p: MatchPc, choice: bool)
    requires SelfOk(sh, v, g, d, f) && f.pc == Match(p) && MatchMove(sh, g, f, p, choice).Moved?
    ensures var m := MatchMove(sh, g, f, p, choice); var v' := NextView(v, g, f, m.f);
            OwnerOk(m.sh, v') && ViewOk(m.sh, v') && !m.sh.rmu.Lessee?
  {
  }

  lemma MatchOwn(sh: Shared, v: View, g: Gid, d: nat, f: Frame, p: MatchPc, choice: bool)
    requires SelfOk(sh, v, g, d, f) && f.pc == Match(p) && MatchMove(sh, g, f, p, choice).Moved?
    ensures var m := MatchMove(sh, g, f, p, choice); var v' := NextView(v, g, f, m.f);
            FrameOk(m.sh, v', g, d, m.f)
  {
  }

  lemma MatchOther(sh: Shared, v: View, g: Gid, d: nat, f: Frame, p: MatchPc, choice: bool, g2: Gid, d2: nat, f2: Frame)
    requires SelfOk(sh, v, g, d, f) && OtherOk(sh, v, g2, d2, f2) && f.pc == Match(p)
    requires (g2 != g || (d2 != d && OwnsMu(f2.pc)))
    requires MatchMove(sh, g, f, p, choice).Moved?
    ensures var m := MatchMove(sh, g, f, p, choice); OtherOk(m.sh, NextView(v, g, f, m.f), g2, d2, f2)
  {
    hide OtherOk, CallerOk, OwnerOk;
  }

  lemma LockShared(sh: Shared, v: View, g: Gid, d: nat, f: Frame, choice: bool)
    requires SelfOk(sh, v, g, d, f) && AtLock(f.pc) && LockMove(sh, g, d, f, choice).Moved?
    ensures var m := LockMove(sh, g, d, f, choice); var v' := NextView(v, g, f, m.f);
            OwnerOk(m.sh, v') && ViewOk(m.sh, v') && !m.sh.rmu.Lessee?
  {
  }

  lemma LockOwn(sh: Shared, v: View, g: Gid, d: nat, f: Frame, choice: bool)
    requires SelfOk(sh, v, g, d, f) && AtLock(f.pc) && LockMove(sh, g, d, f, choice).Moved?
    ensures var m := LockMove(sh, g, d, f, choice); var v' := NextView(v, g, f, m.f);
            FrameOk(m.sh, v', g, d, m.f)
  {
    hide HolderOk, MatchOk, ResOk, SearchOk, Seen;
  }

  lemma LockOther(sh: Shared, v: View, g: Gid, d: nat, f: Frame, choice: bool, g2: Gid, d2: nat, f2: Frame)
    requires SelfOk(sh, v, g, d, f) && OtherOk(sh, v, g2, d2, f2) && AtLock(f.pc)
    requires (g2 != g || (d2 != d && sh.mu == Held(g, d2)))
    requires LockMove(sh, g, d, f, choice).Moved?
    ensures var m := LockMove(sh, g, d, f, choice); OtherOk(m.sh, NextView(v, g, f, m.f), g2, d2, f2)
  {
    hide OtherOk;
    var m := LockMove(sh, g, d, f, choice);
    if sh.mu.Free? && m.sh != sh { OtherTaken(sh, g, d, m.f.pc.start, g2, d2, f2); }
  }

  lemma EnqShared(sh: Shared, v: View, g: Gid, d: nat, f: Frame, p: EnqPc)
    requires SelfOk(sh, v, g, d, f) && f.pc == Enq(p) && EnqMove(sh, g, d, f, p).Moved?
    ensures var m := EnqMove(sh, g, d, f, p); var v' := NextView(v, g, f, m.f);
            OwnerOk(m.sh, v') && ViewOk(m.sh, v') && !m.sh.rmu.Lessee?
  {
    hide NestedOk, Seen, Spent;
  }

  lemma EnqOwn(sh: Shared, v: View, g: Gid, d: nat, f: Frame, p: EnqPc)
    requires SelfOk(sh, v, g, d, f) && f.pc == Enq(p) && EnqMove(sh, g, d, f, p).Moved?
    ensures var m := EnqMove(sh, g, d, f, p); var v' := NextView(v, g, f, m.f);
            FrameOk(m.sh, v', g, d, m.f)
  {
    hide HolderOk, Detained;
  }

  lemma EnqOther(sh: Shared, v: View, g: Gid, d: nat, f: Frame, p: EnqPc, g2: Gid, d2: nat, f2: Frame)
    requires SelfOk(sh, v, g, d, f) && OtherOk(sh, v, g2, d2, f2) && f.pc == Enq(p)
    requires (g2 != g || (d2 != d && OwnsMu(f2.pc)))
    requires EnqMove(sh, g, d, f, p).Moved?
    ensures var m := EnqMove(sh, g, d, f, p); OtherOk(m.sh, NextView(v, g, f, m.f), g2, d2, f2)
  {
    hide OtherOk;
    match p
    case EnqCheck =>
    case EnqLock => OtherRmu(sh, v, Held(g, d), g2, d2, f2);
    case EnqAppend => OtherQueue(sh, v, sh.pending + f.batch, sh.flag, g2, d2, f2);
    case EnqFlag => OtherQueue(sh, v, sh.pending, true, g2, d2, f2);
    case EnqUnlock | EnqReject => OtherRmu(sh, v, Free, g2, d2, f2);
  }

  /** The invariant of the shared fields is kept by every step. */
  lemma StepShared(sh: Shared, v: View, g: Gid, d: nat, f: Frame, choice: bool)
    requires SelfOk(sh, v, g, d, f) && Move(sh, v, g, d, f, choice).Moved?
    ensures var m := Move(sh, v, g, d, f, choice); var v' := NextView(v, g, f, m.f);
            OwnerOk(m.sh, v') && ViewOk(m.sh, v') && !m.sh.rmu.Lessee?
  {
    hide SelfOk, OwnerOk, FrameOk, ViewOk, NextView;
    hide BeginMove, RegMove, ActMove, FastMove, SlowMove, DrainMove, FinMove, FindMove, TagMove, ResMove, SearchMove,
      MatchMove, EnqMove;
    match f.pc
    case Begin(start) => BeginShared(sh, v, g, d, f, start, choice);
    case Reg(p, k) => RegShared(sh, v, g, d, f, p, k);
    case Act(p, k) => ActShared(sh, v, g, d, f, p, k);
    case Fast(p) => FastShared(sh, v, g, d, f, p);
    case Slow(p) => SlowShared(sh, v, g, d, f, p);
    case Drain(p) => DrainShared(sh, v, g, d, f, p);
    case Fin(p) => FinShared(sh, v, g, d, f, p);
    case Find(p) => FindShared(sh, v, g, d, f, p, choice);
    case Tag(p) => TagShared(sh, v, g, d, f, p);
    case Res(p) => ResShared(sh, v, g, d, f, p);
    case Search(p) => SearchShared(sh, v, g, d, f, p, choice);
    case Match(p) => MatchShared(sh, v, g, d, f, p, choice);
    case Enq(p) => EnqShared(sh, v, g, d, f, p);
    case _ => LockShared(sh, v, g, d, f, choice);
  }

  /** So is what the moving activation relies on. */
  lemma StepOwn(sh: Shared, v: View, g: Gid, d: nat, f: Frame, choice: bool)
    requires SelfOk(sh, v, g, d, f) && Move(sh, v, g, d, f, choice).Moved?
    ensures var m := Move(sh, v, g, d, f, choice); var v' := NextView(v, g, f, m.f);
            FrameOk(m.sh, v', g, d, m.f)
  {
    hide SelfOk, OwnerOk, FrameOk, ViewOk, NextView;
    hide BeginMove, RegMove, ActMove, FastMove, SlowMove, DrainMove, FinMove, FindMove, TagMove, ResMove, SearchMove,
      MatchMove, EnqMove;
    match f.pc
    case Begin(start) => BeginOwn(sh, v, g, d, f, start, choice);
    case Reg(p, k) => RegOwn(sh, v, g, d, f, p, k);
    case Act(p, k) => ActOwn(sh, v, g, d, f, p, k);
    case Fast(p) => FastOwn(sh, v, g, d, f, p);
    case Slow(p) => SlowOwn(sh, v, g, d, f, p);
    case Drain(p) => DrainOwn(sh, v, g, d, f, p);
    case Fin(p) => FinOwn(sh, v, g, d, f, p);
    case Find(p) => FindOwn(sh, v, g, d, f, p, choice);
    case Tag(p) => TagOwn(sh, v, g, d, f, p);
    case Res(p) => ResOwn(sh, v, g, d, f, p);
    case Search(p) => SearchOwn(sh, v, g, d, f, p, choice);
    case Match(p) => MatchOwn(sh, v, g, d, f, p, choice);
    case Enq(p) => EnqOwn(sh, v, g, d, f, p);
    case _ => LockOwn(sh, v, g, d, f, choice);
  }

  /** It also keeps what every other activation relies on. */
  lemma StepOther(sh: Shared, v: View, g: Gid, d: nat, f: Frame, choice: bool, g2: Gid, d2: nat, f2: Frame)
    requires SelfOk(sh, v, g, d, f) && OtherOk(sh, v, g2, d2, f2)
    requires g2 != g || (!OwnsMu(f.pc) && d2 != d && sh.mu == Held(g, d2) && OwnsMu(f2.pc))
    requires Move(sh, v, g, d, f, choice).Moved?
    ensures var m := Move(sh, v, g, d, f, choice); OtherOk(m.sh, NextView(v, g, f, m.f), g2, d2, f2)
  {
    hide SelfOk, OtherOk, NextView;
    hide BeginMove, RegMove, ActMove, FastMove, SlowMove, DrainMove, FinMove, FindMove, TagMove, ResMove, SearchMove,
      MatchMove, EnqMove;
    match f.pc
    case Begin(start) => BeginOther(sh, v, g, d, f, start, choice, g2, d2, f2);
    case Reg(p, k) => RegOther(sh, v, g, d, f, p, k, g2, d2, f2);
    case Act(p, k) => ActOther(sh, v, g, d, f, p, k, g2, d2, f2);
    case Fast(p) => FastOther(sh, v, g, d, f, p, g2, d2, f2);
    case Slow(p) => SlowOther(sh, v, g, d, f, p, g2, d2, f2);
    case Drain(p) => DrainOther(sh, v, g, d, f, p, g2, d2, f2);
    case Fin(p) => FinOther(sh, v, g, d, f, p, g2, d2, f2);
    case Find(p) => FindOther(sh, v, g, d, f, p, choice, g2, d2, f2);
    case Tag(p) => TagOther(sh, v, g, d, f, p, g2, d2, f2);
    case Res(p) => ResOther(sh, v, g, d, f, p, g2, d2, f2);
    case Search(p) => SearchOther(sh, v, g, d, f, p, choice, g2, d2, f2);
    case Match(p) => MatchOther(sh, v, g, d, f, p, choice, g2, d2, f2);
    case Enq(p) => EnqOther(sh, v, g, d, f, p, g2, d2, f2);
    case _ => LockOther(sh, v, g, d, f, choice, g2, d2, f2);
  }

}

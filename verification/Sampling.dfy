/**
 Live heap sampling against allocate/free/realloc, as an interleaving of thread steps.

 The engine's own allocation and free are single steps; the sampling hooks run in separate
 steps before or after them, and each step under the sampled-set lock is atomic. Addresses
 are reused freely: a freed address may be handed to any thread at once. Every object handed
 out has an incarnation number of its own, and a sampled record remembers the incarnation it
 was taken for.

 Excluded, as the source documents them to be inexact: switching profiling off, and the
 window in which the membership filter is rebuilt.
 */
module Sampling {
  import opened SampledTable
  import opened Wrappers

  type Addr = int
  type Tid = int

  /** A live object; `holder` is the thread whose call has it, `None` the client program. */
  datatype Obj = Obj(inc: int, holder: Option<Tid>)

  datatype PC =
    | Idle
    | Sampling(p: Addr)                                  // allocated, `on_alloc` hook pending
    | FreeCheck(p: Addr)                                 // about to ask the filter
    | FreeFold(p: Addr)                                  // about to fold the record, if any
    | FreeEngine(p: Addr)                                // hook done, engine free pending
    | ReCheck(p: Addr)
    | ReTake(p: Addr)                                    // about to take the record
    | ReEngine(p: Addr, taken: Option<int>)              // engine realloc pending
    | ReCopied(p: Addr, q: Addr, taken: Option<int>)     // moved to q, p not yet freed
    | Retiring(q: Addr, rec: int)
    | Restoring(p: Addr, rec: int)

  datatype State = State(
    cap: nat,                  // capacity of the sampled-object table
    live: map<Addr, Obj>,
    nextInc: int,
    site: map<int, Addr>,      // where each incarnation was handed out
    view: map<Addr, int>,      // the sampled-object table: address -> incarnation sampled
    bloom: set<Addr>,          // addresses inserted into the membership filter
    sampled: set<int>,         // every incarnation that ever had a record
    folded: multiset<int>,     // incarnations folded into the profile as completed lifetimes
    taker: map<int, Tid>,      // which thread last took each record for a realloc
    pcs: map<Tid, PC>)

  predicate Init(s: State) {
    s.live == map[] && s.view == map[] && s.bloom == {} && s.sampled == {} && s.folded == multiset{} &&
    forall t :: t in s.pcs ==> s.pcs[t] == Idle
  }

  // ---- steps ----

  /** The engine may hand out any nonzero address that is not live. */
  predicate Unused(s: State, p: Addr) { p != 0 && p !in s.live }

  /** The client may pass to free or realloc only an object it has. */
  predicate ClientHas(s: State, p: Addr) { p in s.live && s.live[p].holder == None }

  /** Removing a present record from a full table does not return. */
  predicate CanRemove(s: State, p: Addr) { |s.view| < s.cap || p !in s.view }

  function At(s: State, t: Tid): PC { if t in s.pcs then s.pcs[t] else Idle }

  function Goto(s: State, t: Tid, pc: PC): State { s.(pcs := s.pcs[t := pc]) }

  /** The object at `p`, if any, passes to holder `h`. */
  function Hold(s: State, p: Addr, h: Option<Tid>): State {
    if p in s.live then s.(live := s.live[p := s.live[p].(holder := h)]) else s
  }

  /** A fresh incarnation at `p`, in thread `t`'s hands. */
  function Vend(s: State, t: Tid, p: Addr): State {
    s.(live := s.live[p := Obj(s.nextInc, Some(t))], nextInc := s.nextInc + 1, site := s.site[s.nextInc := p])
  }

  /** The realloc succeeded with result `q`: retire what was taken, then sample `q`. */
  function AfterSuccess(q: Addr, taken: Option<int>): PC {
    if taken.Some? then Retiring(q, taken.value) else Sampling(q)
  }

  function EngineAlloc(s: State, t: Tid, p: Addr): State { Goto(Vend(s, t, p), t, Sampling(p)) }

  /** The sampler did not fire: the new object goes to the client unrecorded. */
  function HookSkip(s: State, t: Tid): State
    requires At(s, t).Sampling?
  {
    Goto(Hold(s, At(s, t).p, None), t, Idle)
  }

  /** The sampler fired: record under the lock, publish to the filter, hand over. */
  function HookRecord(s: State, t: Tid): State
    requires At(s, t).Sampling?
  {
    var p := At(s, t).p;
    if p !in s.live then s else
    var inc := s.live[p].inc;
    var view := Admit(s.view, s.cap, p, inc);
    var sampled := if view == s.view then s.sampled else s.sampled + {inc};
    Goto(Hold(s.(view := view, bloom := s.bloom + {p}, sampled := sampled), p, None), t, Idle)
  }

  function Begin(s: State, t: Tid, p: Addr, realloc: bool): State {
    Goto(Hold(s, p, Some(t)), t, if realloc then ReCheck(p) else FreeCheck(p))
  }

  /** The filter excludes the address: there is no record to look for. */
  function FilterMiss(s: State, t: Tid): State
    requires At(s, t).FreeCheck? || At(s, t).ReCheck?
  {
    Goto(s, t, match At(s, t) case FreeCheck(p) => FreeEngine(p) case ReCheck(p) => ReEngine(p, None))
  }

  /** The filter may contain the address (possibly falsely): consult the table. */
  function FilterHit(s: State, t: Tid): State
    requires At(s, t).FreeCheck? || At(s, t).ReCheck?
  {
    Goto(s, t, match At(s, t) case FreeCheck(p) => FreeFold(p) case ReCheck(p) => ReTake(p))
  }

  function Fold(s: State, t: Tid): State
    requires At(s, t).FreeFold?
  {
    var p := At(s, t).p;
    var s := if p in s.view then s.(folded := s.folded + multiset{s.view[p]}, view := s.view - {p}) else s;
    Goto(s, t, FreeEngine(p))
  }

  function EngineFree(s: State, t: Tid): State
    requires At(s, t).FreeEngine?
  {
    Goto(s.(live := s.live - {At(s, t).p}), t, Idle)
  }

  /** Remove the record without folding a lifetime. */
  function Take(s: State, t: Tid): State
    requires At(s, t).ReTake?
  {
    var p := At(s, t).p;
    if p in s.view then Goto(s.(view := s.view - {p}, taker := s.taker[s.view[p] := t]), t, ReEngine(p, Some(s.view[p])))
    else Goto(s, t, ReEngine(p, None))
  }

  function ReFail(s: State, t: Tid): State
    requires At(s, t).ReEngine?
  {
    var pc := At(s, t);
    if pc.taken.Some? then Goto(s, t, Restoring(pc.p, pc.taken.value))
    else Goto(Hold(s, pc.p, None), t, Idle)
  }

  /** Resized where it stands: the same address, a new object. */
  function ReInPlace(s: State, t: Tid): State
    requires At(s, t).ReEngine?
  {
    var pc := At(s, t);
    Goto(Vend(s, t, pc.p), t, AfterSuccess(pc.p, pc.taken))
  }

  function ReAllocNew(s: State, t: Tid, q: Addr): State
    requires At(s, t).ReEngine?
  {
    var pc := At(s, t);
    Goto(Vend(s, t, q), t, ReCopied(pc.p, q, pc.taken))
  }

  function ReFreeOld(s: State, t: Tid): State
    requires At(s, t).ReCopied?
  {
    var pc := At(s, t);
    Goto(s.(live := s.live - {pc.p}), t, AfterSuccess(pc.q, pc.taken))
  }

  function Retire(s: State, t: Tid): State
    requires At(s, t).Retiring?
  {
    Goto(s.(folded := s.folded + multiset{At(s, t).rec}), t, Sampling(At(s, t).q))
  }

  function Restore(s: State, t: Tid): State
    requires At(s, t).Restoring?
  {
    var pc := At(s, t);
    var view := PutBack(s.view, s.cap, pc.p, pc.rec);
    var bloom := if view == s.view then s.bloom else s.bloom + {pc.p};
    Goto(Hold(s.(view := view, bloom := bloom), pc.p, None), t, Idle)
  }

  datatype Step =
    | SEngineAlloc(p: Addr) | SHookSkip | SHookRecord
    | SBegin(p: Addr, realloc: bool) | SFilterMiss | SFilterHit
    | SFold | SEngineFree
    | STake | SReFail | SReInPlace | SReAllocNew(q: Addr) | SReFreeOld | SRetire | SRestore

  /** One step of one thread. */
  datatype Action = Action(t: Tid, step: Step)

  predicate Enabled(s: State, a: Action) {
    a.t in s.pcs &&
    var pc := s.pcs[a.t];
    match a.step
    case SEngineAlloc(p) => pc.Idle? && Unused(s, p)
    case SHookSkip => pc.Sampling?
    case SHookRecord => pc.Sampling?
    case SBegin(p, _) => pc.Idle? && ClientHas(s, p)
    case SFilterMiss => (pc.FreeCheck? || pc.ReCheck?) && pc.p !in s.bloom
    case SFilterHit => pc.FreeCheck? || pc.ReCheck?
    case SFold => pc.FreeFold? && CanRemove(s, pc.p)
    case SEngineFree => pc.FreeEngine?
    case STake => pc.ReTake? && CanRemove(s, pc.p)
    case SReFail => pc.ReEngine?
    case SReInPlace => pc.ReEngine?
    case SReAllocNew(q) => pc.ReEngine? && Unused(s, q)
    case SReFreeOld => pc.ReCopied?
    case SRetire => pc.Retiring?
    case SRestore => pc.Restoring?
  }

  function Apply(s: State, a: Action): State
    requires Enabled(s, a)
  {
    match a.step
    case SEngineAlloc(p) => EngineAlloc(s, a.t, p)
    case SHookSkip => HookSkip(s, a.t)
    case SHookRecord => HookRecord(s, a.t)
    case SBegin(p, realloc) => Begin(s, a.t, p, realloc)
    case SFilterMiss => FilterMiss(s, a.t)
    case SFilterHit => FilterHit(s, a.t)
    case SFold => Fold(s, a.t)
    case SEngineFree => EngineFree(s, a.t)
    case STake => Take(s, a.t)
    case SReFail => ReFail(s, a.t)
    case SReInPlace => ReInPlace(s, a.t)
    case SReAllocNew(q) => ReAllocNew(s, a.t, q)
    case SReFreeOld => ReFreeOld(s, a.t)
    case SRetire => Retire(s, a.t)
    case SRestore => Restore(s, a.t)
  }

  /** `acts` takes `s` to `s'`. */
  ghost predicate Run(s: State, acts: seq<Action>, s': State)
    decreases acts
  {
    if acts == [] then s == s'
    else Enabled(s, acts[0]) && Run(Apply(s, acts[0]), acts[1..], s')
  }

  /** The steps that look at or change the table of records. */
  predicate TouchesTable(step: Step) { step.SHookRecord? || step.SFold? || step.STake? || step.SRestore? }

  predicate InRealloc(step: Step) {
    step.SReFail? || step.SReInPlace? || step.SReAllocNew? || step.SReFreeOld? || step.SRetire?
  }

  /** Only thread `t` moves, and the table keeps its capacity. */
  ghost predicate Moves(s: State, s': State, t: Tid) {
    s'.cap == s.cap && t in s'.pcs && s'.pcs == s.pcs[t := s'.pcs[t]]
  }

  lemma TableStepMoves(s: State, a: Action)
    requires Enabled(s, a) && TouchesTable(a.step)
    ensures Moves(s, Apply(s, a), a.t)
  {
    hide Admit, PutBack;
    match a.step
    case SHookRecord => assert Moves(s, HookRecord(s, a.t), a.t);
    case SFold => assert Moves(s, Fold(s, a.t), a.t);
    case STake => assert Moves(s, Take(s, a.t), a.t);
    case SRestore => assert Moves(s, Restore(s, a.t), a.t);
  }

  lemma ReallocStepMoves(s: State, a: Action)
    requires Enabled(s, a) && InRealloc(a.step)
    ensures Moves(s, Apply(s, a), a.t)
  {
  }

  lemma StepMoves(s: State, a: Action)
    requires Enabled(s, a)
    ensures Moves(s, Apply(s, a), a.t)
  {
    if TouchesTable(a.step) {
      TableStepMoves(s, a);
      hide Moves;
    } else if InRealloc(a.step) {
      ReallocStepMoves(s, a);
      hide Moves;
    }
  }

  // ---- the invariant ----

  /** The addresses a thread's call has in hand. */
  function Held(pc: PC): set<Addr> {
    match pc
    case Idle => {}
    case ReCopied(p, q, _) => {p, q}
    case Retiring(q, _) => {q}
    case _ => {pc.p}
  }

  /** The record a realloc has taken and neither retired nor restored yet. */
  function Token(pc: PC): Option<int> {
    match pc
    case ReEngine(_, taken) => taken
    case ReCopied(_, _, taken) => taken
    case Retiring(_, rec) => Some(rec)
    case Restoring(_, rec) => Some(rec)
    case _ => None
  }

  /** The object in hand that no record may describe yet, if any. */
  function Unsampled(pc: PC): Option<Addr> {
    match pc
    case Sampling(p) => Some(p)
    case ReCopied(_, q, _) => Some(q)
    case Retiring(q, _) => Some(q)
    case _ => None
  }

  /** The object in hand whose record, if it had one, has been removed. */
  function Cleared(pc: PC): Option<Addr> {
    match pc
    case FreeEngine(p) => Some(p)
    case ReEngine(p, _) => Some(p)
    case ReCopied(p, _, _) => Some(p)
    case Restoring(p, _) => Some(p)
    case _ => None
  }

  ghost predicate LiveOk(s: State) {
    && 0 !in s.live
    && (forall a :: a in s.live ==> s.live[a].inc < s.nextInc && s.live[a].inc in s.site && s.site[s.live[a].inc] == a)
    && (forall n :: n in s.sampled ==> n < s.nextInc)
  }

  /** Every record's key is a live address, still the incarnation that was sampled. */
  ghost predicate RecordsOk(s: State) {
    forall a :: a in s.view ==>
      a in s.live && s.live[a].inc == s.view[a] && a in s.bloom && s.view[a] in s.sampled && s.view[a] !in s.folded
  }

  /** No incarnation is folded twice. */
  ghost predicate FoldedOk(s: State) {
    forall n :: n in s.folded ==> n in s.sampled && s.folded[n] == 1
  }

  /** Incarnation `n`'s record is in thread `t`'s hands, and nowhere else. */
  ghost predicate TokenOk(s: State, t: Tid, n: int) {
    && n in s.sampled && n !in s.folded && n in s.taker && s.taker[n] == t
    && n in s.site && !(s.site[n] in s.view && s.view[s.site[n]] == n)
  }

  ghost predicate ThreadOk(s: State, t: Tid)
    requires t in s.pcs
  {
    var pc := s.pcs[t];
    && (forall a :: a in Held(pc) ==> a in s.live && s.live[a].holder == Some(t))
    && (pc.ReCopied? ==> pc.p != pc.q)
    && (Token(pc).Some? ==> TokenOk(s, t, Token(pc).value))
    && (Unsampled(pc).Some? ==>
          Unsampled(pc).value in s.live && Unsampled(pc).value !in s.view &&
          s.live[Unsampled(pc).value].inc !in s.sampled)
    && (Cleared(pc).Some? ==>
          Cleared(pc).value in s.live && Cleared(pc).value !in s.view &&
          (Token(pc).Some? ==> s.live[Cleared(pc).value].inc == Token(pc).value))
  }

  ghost predicate Inv(s: State) {
    && LiveOk(s) && RecordsOk(s) && FoldedOk(s)
    && forall t :: t in s.pcs ==> ThreadOk(s, t)
  }

  lemma InitInv(s: State)
    requires Init(s)
    ensures Inv(s)
  {
  }

  /** The step of thread `t` from `s` to `s'` leaves what other threads rely on alone. */
  ghost predicate Frame(s: State, s': State, t: Tid) {
    && t in s.pcs && t in s'.pcs && s'.pcs == s.pcs[t := s'.pcs[t]]
    && (forall a :: a in s.live && s.live[a].holder.Some? && s.live[a].holder != Some(t) ==>
          a in s'.live && s'.live[a] == s.live[a] && (a in s'.view <==> a in s.view) &&
          (s.live[a].inc in s'.sampled <==> s.live[a].inc in s.sampled))
    && (forall u, n: int :: u != t && TokenOk(s, u, n) ==> TokenOk(s', u, n))
  }

  lemma FrameKeepsOthers(s: State, s': State, t: Tid, u: Tid)
    requires Inv(s) && Frame(s, s', t) && u in s.pcs && u != t
    ensures ThreadOk(s', u)
  {
    assert ThreadOk(s, u);
  }

  lemma FrameInv(s: State, s': State, t: Tid)
    requires Inv(s) && Frame(s, s', t)
    requires LiveOk(s') && RecordsOk(s') && FoldedOk(s') && ThreadOk(s', t)
    ensures Inv(s')
  {
    forall u | u in s'.pcs ensures ThreadOk(s', u) {
      if u != t { FrameKeepsOthers(s, s', t, u); }
    }
  }

  lemma EngineAllocInv(s: State, t: Tid, p: Addr)
    requires Inv(s) && t in s.pcs && (s.pcs[t].Idle? && Unused(s, p))
    ensures Inv(EngineAlloc(s, t, p))
  {
    assert ThreadOk(s, t);
    FrameInv(s, EngineAlloc(s, t, p), t);
  }

  lemma HookSkipInv(s: State, t: Tid)
    requires Inv(s) && t in s.pcs && (s.pcs[t].Sampling?)
    ensures Inv(HookSkip(s, t))
  {
    assert ThreadOk(s, t);
    FrameInv(s, HookSkip(s, t), t);
  }

  lemma HookRecordInv(s: State, t: Tid)
    requires Inv(s) && t in s.pcs && (s.pcs[t].Sampling?)
    ensures Inv(HookRecord(s, t))
  {
    assert ThreadOk(s, t);
    FrameInv(s, HookRecord(s, t), t);
  }

  lemma BeginInv(s: State, t: Tid, p: Addr, realloc: bool)
    requires Inv(s) && t in s.pcs && (s.pcs[t].Idle? && ClientHas(s, p))
    ensures Inv(Begin(s, t, p, realloc))
  {
    assert ThreadOk(s, t);
    FrameInv(s, Begin(s, t, p, realloc), t);
  }

  lemma FilterMissInv(s: State, t: Tid)
    requires Inv(s) && t in s.pcs && ((s.pcs[t].FreeCheck? || s.pcs[t].ReCheck?) && s.pcs[t].p !in s.bloom)
    ensures Inv(FilterMiss(s, t))
  {
    assert ThreadOk(s, t);
    FrameInv(s, FilterMiss(s, t), t);
  }

  lemma FilterHitInv(s: State, t: Tid)
    requires Inv(s) && t in s.pcs && (s.pcs[t].FreeCheck? || s.pcs[t].ReCheck?)
    ensures Inv(FilterHit(s, t))
  {
    assert ThreadOk(s, t);
    FrameInv(s, FilterHit(s, t), t);
  }

  lemma FoldInv(s: State, t: Tid)
    requires Inv(s) && t in s.pcs && (s.pcs[t].FreeFold?)
    ensures Inv(Fold(s, t))
  {
    assert ThreadOk(s, t);
    FrameInv(s, Fold(s, t), t);
  }

  lemma EngineFreeInv(s: State, t: Tid)
    requires Inv(s) && t in s.pcs && (s.pcs[t].FreeEngine?)
    ensures Inv(EngineFree(s, t))
  {
    assert ThreadOk(s, t);
    FrameInv(s, EngineFree(s, t), t);
  }

  lemma TakeInv(s: State, t: Tid)
    requires Inv(s) && t in s.pcs && (s.pcs[t].ReTake?)
    ensures Inv(Take(s, t))
  {
    assert ThreadOk(s, t);
    FrameInv(s, Take(s, t), t);
  }

  lemma ReFailInv(s: State, t: Tid)
    requires Inv(s) && t in s.pcs && (s.pcs[t].ReEngine?)
    ensures Inv(ReFail(s, t))
  {
    assert ThreadOk(s, t);
    FrameInv(s, ReFail(s, t), t);
  }

  lemma ReInPlaceInv(s: State, t: Tid)
    requires Inv(s) && t in s.pcs && (s.pcs[t].ReEngine?)
    ensures Inv(ReInPlace(s, t))
  {
    assert ThreadOk(s, t);
    FrameInv(s, ReInPlace(s, t), t);
  }

  lemma ReAllocNewInv(s: State, t: Tid, q: Addr)
    requires Inv(s) && t in s.pcs && (s.pcs[t].ReEngine? && Unused(s, q))
    ensures Inv(ReAllocNew(s, t, q))
  {
    assert ThreadOk(s, t);
    FrameInv(s, ReAllocNew(s, t, q), t);
  }

  lemma ReFreeOldInv(s: State, t: Tid)
    requires Inv(s) && t in s.pcs && (s.pcs[t].ReCopied?)
    ensures Inv(ReFreeOld(s, t))
  {
    assert ThreadOk(s, t);
    FrameInv(s, ReFreeOld(s, t), t);
  }

  lemma RetireInv(s: State, t: Tid)
    requires Inv(s) && t in s.pcs && (s.pcs[t].Retiring?)
    ensures Inv(Retire(s, t))
  {
    assert ThreadOk(s, t);
    FrameInv(s, Retire(s, t), t);
  }

  lemma RestoreInv(s: State, t: Tid)
    requires Inv(s) && t in s.pcs && (s.pcs[t].Restoring?)
    ensures Inv(Restore(s, t))
  {
    assert ThreadOk(s, t);
    FrameInv(s, Restore(s, t), t);
  }

  lemma StepInv(s: State, a: Action)
    requires Inv(s) && Enabled(s, a)
    ensures Inv(Apply(s, a))
  {
    match a.step
    case SEngineAlloc(p) => EngineAllocInv(s, a.t, p);
    case SHookSkip => HookSkipInv(s, a.t);
    case SHookRecord => HookRecordInv(s, a.t);
    case SBegin(p, realloc) => BeginInv(s, a.t, p, realloc);
    case SFilterMiss => FilterMissInv(s, a.t);
    case SFilterHit => FilterHitInv(s, a.t);
    case SFold => FoldInv(s, a.t);
    case SEngineFree => EngineFreeInv(s, a.t);
    case STake => TakeInv(s, a.t);
    case SReFail => ReFailInv(s, a.t);
    case SReInPlace => ReInPlaceInv(s, a.t);
    case SReAllocNew(q) => ReAllocNewInv(s, a.t, q);
    case SReFreeOld => ReFreeOldInv(s, a.t);
    case SRetire => RetireInv(s, a.t);
    case SRestore => RestoreInv(s, a.t);
  }

  lemma {:induction false} RunInv(s: State, acts: seq<Action>, s': State)
    requires Inv(s) && Run(s, acts, s')
    ensures Inv(s')
    decreases acts
  {
    if acts != [] {
      StepInv(s, acts[0]);
      RunInv(Apply(s, acts[0]), acts[1..], s');
    }
  }

  // ---- safety over whole runs ----

  /**
   In every interleaving, each record in the table is keyed by a live address that is still
   the very object sampled, the filter knows the address, and no incarnation is ever folded
   into the profile twice or folded while its record is still in the table.
   */
  lemma SampledRecordsAreExact(s0: State, acts: seq<Action>, s: State)
    requires Init(s0) && Run(s0, acts, s)
    ensures forall a :: a in s.view ==> a in s.live && s.live[a].inc == s.view[a] && a in s.bloom
    ensures forall a :: a in s.view ==> s.view[a] !in s.folded
    ensures forall n :: s.folded[n] <= 1
  {
    InitInv(s0);
    RunInv(s0, acts, s);
  }

  /** Records of objects that are not in `t`'s hands are as they were. */
  ghost predicate OthersRecordsKept(s: State, s': State, t: Tid) {
    forall b :: b in s.live && s.live[b].holder != Some(t) ==>
      (b in s'.view <==> b in s.view) && (b in s.view ==> s'.view[b] == s.view[b])
  }

  /** Nothing is folded, or one lifetime: of a record `t` took, or of an object in its hands. */
  ghost predicate FoldsOwn(s: State, s': State, t: Tid) {
    s'.folded == s.folded || exists n: int :: s'.folded == s.folded + multiset{n} && MayFold(s, t, n)
  }

  ghost predicate MayFold(s: State, t: Tid, n: int) {
    (n in s.taker && s.taker[n] == t) || exists p :: p in s.live && s.live[p] == Obj(n, Some(t))
  }

  lemma FoldTouchesOwn(s: State, t: Tid)
    requires Inv(s) && t in s.pcs && s.pcs[t].FreeFold?
    ensures OthersRecordsKept(s, Fold(s, t), t) && FoldsOwn(s, Fold(s, t), t)
  {
  }

  lemma RetireTouchesOwn(s: State, t: Tid)
    requires Inv(s) && t in s.pcs && s.pcs[t].Retiring?
    ensures OthersRecordsKept(s, Retire(s, t), t) && FoldsOwn(s, Retire(s, t), t)
  {
  }

  lemma TableStepsTouchOwn(s: State, t: Tid)
    requires Inv(s) && t in s.pcs
    ensures s.pcs[t].Sampling? ==> OthersRecordsKept(s, HookRecord(s, t), t) && FoldsOwn(s, HookRecord(s, t), t)
    ensures s.pcs[t].ReTake? ==> OthersRecordsKept(s, Take(s, t), t) && FoldsOwn(s, Take(s, t), t)
    ensures s.pcs[t].Restoring? ==> OthersRecordsKept(s, Restore(s, t), t) && FoldsOwn(s, Restore(s, t), t)
  {
    assert ThreadOk(s, t);
  }

  /**
   A step touches only its own thread's objects: records at addresses in the client's or
   another thread's hands are unchanged, and a lifetime is folded only for an object the
   thread is freeing or for a record it took itself, never for another thread's.
   */
  lemma StepsTouchOnlyOwnRecords(s: State, a: Action)
    requires Inv(s) && Enabled(s, a)
    ensures OthersRecordsKept(s, Apply(s, a), a.t) && FoldsOwn(s, Apply(s, a), a.t)
  {
    if a.step.SRetire? {
      RetireTouchesOwn(s, a.t);
      hide OthersRecordsKept, FoldsOwn;
    } else if !TouchesTable(a.step) {
      OtherStepsKeepTable(s, a);
      hide Apply;
    } else if a.step.SFold? {
      FoldTouchesOwn(s, a.t);
      hide OthersRecordsKept, FoldsOwn;
    } else {
      TableStepsTouchOwn(s, a.t);
      hide OthersRecordsKept, FoldsOwn;
    }
  }

  ghost predicate NotBy(acts: seq<Action>, t: Tid) { forall i :: 0 <= i < |acts| ==> acts[i].t != t }

  lemma {:induction false} OthersKeepMyPlace(s: State, acts: seq<Action>, s': State, t: Tid)
    requires Run(s, acts, s') && NotBy(acts, t) && t in s.pcs
    ensures t in s'.pcs && s'.pcs[t] == s.pcs[t] && s'.cap == s.cap
    decreases acts
  {
    hide Apply;
    if acts != [] {
      StepMoves(s, acts[0]);
      OthersKeepMyPlace(Apply(s, acts[0]), acts[1..], s', t);
    }
  }

  /**
   A realloc that takes the record of the incarnation at `p` and then fails, whatever other
   threads do meanwhile, leaves the original object live at the same incarnation and back in
   the client's hands; its record is back in the table exactly when the table was not full.
   */
  lemma FailedReallocKeepsTheRecord(s: State, t: Tid, p: Addr, mid1: seq<Action>, s1: State,
                                    mid2: seq<Action>, s2: State)
    requires Inv(s) && t in s.pcs && s.pcs[t] == ReTake(p) && p in s.view && |s.view| < s.cap
    requires Run(Take(s, t), mid1, s1) && NotBy(mid1, t)
    requires At(s1, t).ReEngine? && Run(ReFail(s1, t), mid2, s2) && NotBy(mid2, t)
    ensures At(s2, t).Restoring?
    ensures var s3 := Restore(s2, t);
            && p in s3.live && s3.live[p] == Obj(s.view[p], None)
            && (p in s3.view <==> |s2.view| < s.cap)
            && (p in s3.view ==> s3.view[p] == s.view[p])
  {
    hide Run;
    TakeInv(s, t);
    OthersKeepMyPlace(Take(s, t), mid1, s1, t);
    RunInv(Take(s, t), mid1, s1);
    ReFailInv(s1, t);
    OthersKeepMyPlace(ReFail(s1, t), mid2, s2, t);
    RunInv(ReFail(s1, t), mid2, s2);
    RestoreOutcome(s2, t);
  }

  lemma RestoreOutcome(s: State, t: Tid)
    requires Inv(s) && t in s.pcs && s.pcs[t].Restoring?
    ensures var p, n := s.pcs[t].p, s.pcs[t].rec;
            var s' := Restore(s, t);
            && p in s'.live && s'.live[p] == Obj(n, None)
            && (p in s'.view <==> |s.view| < s.cap) && (p in s'.view ==> s'.view[p] == n)
  {
  }

  // ---- when can the table fill? ----

  function Holders(s: State): set<Tid> { set t | t in s.pcs && Token(s.pcs[t]).Some? }

  /** Records in the table and in realloc hands together exceed the load cap by less than
      the number of threads. */
  ghost predicate LoadOk(s: State) {
    |s.view| + |Holders(s)| < MaxLoad(s.cap) + |s.pcs|
  }

  lemma HoldersFewerThanThreads(s: State, t: Tid)
    requires t in s.pcs && Token(s.pcs[t]).None?
    ensures |Holders(s)| < |s.pcs|
  {
    assert Holders(s) <= s.pcs.Keys - {t};
    SubsetSize(Holders(s), s.pcs.Keys - {t});
  }

  lemma {:induction false} SubsetSize<T>(a: set<T>, b: set<T>)
    requires a <= b
    ensures |a| <= |b|
  {
    if a != {} {
      var x :| x in a;
      SubsetSize(a - {x}, b - {x});
    }
  }

  /** The step leaves the table alone and takes no record. */
  ghost predicate KeepsTable(s: State, a: Action)
    requires Enabled(s, a)
  {
    var s' := Apply(s, a);
    s'.view == s.view && (Token(At(s', a.t)).Some? ==> Token(s.pcs[a.t]).Some?) &&
    (!a.step.SRetire? ==> s'.folded == s.folded)
  }

  lemma ReallocStepsKeepTable(s: State, a: Action)
    requires Enabled(s, a) && InRealloc(a.step)
    ensures KeepsTable(s, a)
  {
  }

  lemma OtherStepsKeepTable(s: State, a: Action)
    requires Enabled(s, a) && !TouchesTable(a.step)
    ensures KeepsTable(s, a)
  {
    if InRealloc(a.step) {
      ReallocStepsKeepTable(s, a);
      hide KeepsTable;
    }
  }

  /** The number of records grows by one when a restore gives up its claim, or within the load cap. */
  predicate LoadChange(before: int, after: int, had: bool, has: bool, max: int) {
    || (after <= before && (has ==> had))
    || (after == before - 1 && !had)
    || (after == before + 1 && had && !has)
    || (after <= max && !had && !has)
  }

  lemma TakeLoad(s: State, t: Tid)
    requires t in s.pcs && s.pcs[t].ReTake?
    ensures var s' := Take(s, t);
            LoadChange(|s.view|, |s'.view|, false, Token(At(s', t)).Some?, MaxLoad(s.cap))
  {
  }

  lemma FoldLoad(s: State, t: Tid)
    requires t in s.pcs && s.pcs[t].FreeFold?
    ensures |Fold(s, t).view| <= |s.view| && Token(At(Fold(s, t), t)).None?
  {
  }

  /** What a step does to the number of records and to its thread's claim on one. */
  lemma StepLoadEffect(s: State, a: Action)
    requires Enabled(s, a)
    ensures var s' := Apply(s, a);
            LoadChange(|s.view|, |s'.view|, Token(s.pcs[a.t]).Some?, Token(At(s', a.t)).Some?, MaxLoad(s.cap))
  {
    if !TouchesTable(a.step) {
      OtherStepsKeepTable(s, a);
      hide Apply;
    } else if a.step.STake? {
      TakeLoad(s, a.t);
      hide Take;
    } else if a.step.SFold? {
      FoldLoad(s, a.t);
      hide Fold;
    }
  }

  lemma StepLoad(s: State, a: Action)
    requires Inv(s) && LoadOk(s) && Enabled(s, a)
    ensures LoadOk(Apply(s, a)) && Apply(s, a).cap == s.cap && Apply(s, a).pcs.Keys == s.pcs.Keys
  {
    StepLoadEffect(s, a);
    StepMoves(s, a);
    hide Apply, Inv, Enabled;
    var s', t := Apply(s, a), a.t;
    HoldersAfter(s, s', t);
    if Token(s.pcs[t]).None? { HoldersFewerThanThreads(s, t); }
    hide Token, Holders;
  }

  lemma HoldersAfter(s: State, s': State, t: Tid)
    requires t in s.pcs && t in s'.pcs && s'.pcs == s.pcs[t := s'.pcs[t]]
    ensures s'.pcs.Keys == s.pcs.Keys && |s'.pcs| == |s.pcs|
    ensures |Holders(s')| == |Holders(s)| + (if Token(s'.pcs[t]).Some? then 1 else 0) - (if Token(s.pcs[t]).Some? then 1 else 0)
  {
    hide Token;
    assert s'.pcs.Keys == s.pcs.Keys;
    HoldersChange(s, s', t);
    assert t in Holders(s) <==> Token(s.pcs[t]).Some?;
    hide Holders;
  }

  lemma HoldersChange(s: State, s': State, t: Tid)
    requires t in s.pcs && t in s'.pcs && s'.pcs == s.pcs[t := s'.pcs[t]]
    ensures Holders(s') == if Token(s'.pcs[t]).Some? then Holders(s) + {t} else Holders(s) - {t}
  {
  }

  lemma {:induction false} RunLoad(s: State, acts: seq<Action>, s': State)
    requires Inv(s) && LoadOk(s) && Run(s, acts, s')
    ensures LoadOk(s') && s'.cap == s.cap && s'.pcs.Keys == s.pcs.Keys
    decreases acts
  {
    if acts != [] {
      StepInv(s, acts[0]);
      StepLoad(s, acts[0]);
      RunLoad(Apply(s, acts[0]), acts[1..], s');
    }
  }

  /**
   With at most an eighth of the capacity in threads the table is never full, so every
   removal returns; one thread more still cannot make a restore find the table full.
   */
  lemma FewThreadsNeverFillTheTable(s0: State, acts: seq<Action>, s: State)
    requires Init(s0) && Run(s0, acts, s) && s0.pcs != map[]
    ensures |s0.pcs| <= s0.cap / 8 ==> |s.view| < s.cap
    ensures |s0.pcs| <= s0.cap / 8 + 1 ==>
              forall t :: t in s.pcs && s.pcs[t].Restoring? ==> |s.view| < s.cap
  {
    InitInv(s0);
    assert Holders(s0) == {} by {
      assert forall t :: t in s0.pcs ==> Token(s0.pcs[t]).None?;
    }
    assert |s0.pcs.Keys| > 0;
    hide Run, Inv;
    RunLoad(s0, acts, s);
    assert |s.pcs| == |s.pcs.Keys| == |s0.pcs|;
    forall t | t in s.pcs && s.pcs[t].Restoring? ensures |Holders(s)| >= 1 {
      assert t in Holders(s);
    }
  }

  // ---- and when it does fill ----

  ghost predicate Reach(s: State, s': State) { exists acts :: Run(s, acts, s') }

  lemma {:induction false} RunAppend(s: State, acts: seq<Action>, s': State, a: Action)
    requires Run(s, acts, s') && Enabled(s', a)
    ensures Run(s, acts + [a], Apply(s', a))
    decreases acts
  {
    hide Apply;
    if acts == [] {
      assert Run(Apply(s', a), [], Apply(s', a));
      assert [a][1..] == [];
    } else {
      RunAppend(Apply(s, acts[0]), acts[1..], s', a);
      assert (acts + [a])[1..] == acts[1..] + [a];
    }
  }

  lemma ReachStep(s0: State, s: State, a: Action)
    requires Reach(s0, s) && Inv(s) && Enabled(s, a)
    ensures Reach(s0, Apply(s, a)) && Inv(Apply(s, a))
  {
    var acts :| Run(s0, acts, s);
    RunAppend(s0, acts, s, a);
    StepInv(s, a);
  }

  /** Of threads `0..n`, the first `k` are about to restore a record; the table holds `m`. */
  ghost predicate Shape(s: State, k: int, n: int, m: int) {
    && 0 <= k <= n && |s.view| == m
    && (forall t :: t in s.pcs <==> 0 <= t < n)
    && (forall t :: 0 <= t < k ==> s.pcs[t].Restoring?)
    && (forall t :: k <= t < n ==> s.pcs[t].Idle?)
    && (forall a :: a in s.view ==> ClientHas(s, a))
    && s.nextInc >= 0 && (forall a :: a in s.live ==> a <= s.nextInc)
  }

  ghost predicate Staged(s0: State, s: State, k: int, n: int, m: int) {
    Reach(s0, s) && Inv(s) && s.cap == s0.cap && Shape(s, k, n, m)
  }

  lemma FillEffect(s: State, t: Tid, q: Addr)
    requires t in s.pcs && |s.view| < MaxLoad(s.cap) && q != 0 && q !in s.view
    ensures var s' := HookRecord(EngineAlloc(s, t, q), t);
            && s'.pcs == s.pcs[t := Idle] && s'.cap == s.cap && s'.nextInc == s.nextInc + 1
            && s'.view == s.view[q := s.nextInc] && s'.live == s.live[q := Obj(s.nextInc, None)]
  {
  }

  lemma FillShape(s: State, k: int, n: int, m: int)
    requires Shape(s, k, n, m) && k < n && m < MaxLoad(s.cap)
    ensures Shape(HookRecord(EngineAlloc(s, n - 1, s.nextInc + 1), n - 1), k, n, m + 1)
  {
    hide HookRecord, Shape;
    RoomForOneMore(s, k, n, m);
    FillEffect(s, n - 1, s.nextInc + 1);
    OneRecordMore(s, HookRecord(EngineAlloc(s, n - 1, s.nextInc + 1), n - 1), k, n, m);
  }

  lemma RoomForOneMore(s: State, k: int, n: int, m: int)
    requires Shape(s, k, n, m) && k < n
    ensures n - 1 in s.pcs && s.nextInc + 1 > 0 && s.nextInc + 1 !in s.view && |s.view| == m
  {
  }

  lemma OneRecordMore(s: State, s': State, k: int, n: int, m: int)
    requires Shape(s, k, n, m) && k < n && s'.pcs == s.pcs[n - 1 := Idle] && s'.nextInc == s.nextInc + 1
    requires var q := s.nextInc + 1; s'.view == s.view[q := s.nextInc] && s'.live == s.live[q := Obj(s.nextInc, None)]
    ensures Shape(s', k, n, m + 1)
  {
  }

  /** The last thread allocates one more sampled object. */
  lemma FillOne(s0: State, s: State, k: int, n: int, m: int) returns (s': State)
    requires Staged(s0, s, k, n, m) && k < n && m < MaxLoad(s.cap)
    ensures Staged(s0, s', k, n, m + 1)
  {
    hide Inv, Reach;
    var t, q := n - 1, s.nextInc + 1;
    ReachStep(s0, s, Action(t, SEngineAlloc(q)));
    var s1 := EngineAlloc(s, t, q);
    ReachStep(s0, s1, Action(t, SHookRecord));
    s' := HookRecord(s1, t);
    FillShape(s, k, n, m);
  }

  lemma TakeShape(s: State, k: int, n: int, m: int, p: Addr)
    requires Shape(s, k, n, m) && k < n && p in s.view
    ensures var s' := ReFail(Take(FilterHit(Begin(s, k, p, true), k), k), k); Shape(s', k + 1, n, m - 1)
  {
    assert |s.view - {p}| == m - 1;
  }

  /** Thread `k` takes a record for a realloc that then fails, and stops before restoring. */
  lemma TakeOne(s0: State, s: State, k: int, n: int, m: int) returns (s': State)
    requires Staged(s0, s, k, n, m) && k < n && 0 < m < s.cap
    ensures Staged(s0, s', k + 1, n, m - 1)
  {
    hide Inv, Reach;
    var p := SomeElement(s.view.Keys);
    ReachStep(s0, s, Action(k, SBegin(p, true)));
    var s1 := Begin(s, k, p, true);
    ReachStep(s0, s1, Action(k, SFilterHit));
    var s2 := FilterHit(s1, k);
    ReachStep(s0, s2, Action(k, STake));
    var s3 := Take(s2, k);
    ReachStep(s0, s3, Action(k, SReFail));
    s' := ReFail(s3, k);
    TakeShape(s, k, n, m, p);
  }

  lemma SomeElement<T>(s: set<T>) returns (x: T)
    requires s != {}
    ensures x in s
  {
    x :| x in s;
  }

  lemma RestoreShape(s: State, k: int, n: int, m: int)
    requires Shape(s, k, n, m) && 0 < k && m < s.cap
    requires var p := s.pcs[k - 1].p; p != 0 && p !in s.view && p in s.live
    ensures Shape(Restore(s, k - 1), k - 1, n, m + 1)
  {
  }

  lemma PendingIsLive(s: State, t: Tid)
    requires Inv(s) && t in s.pcs && s.pcs[t].Restoring?
    ensures var p := s.pcs[t].p; p != 0 && p !in s.view && p in s.live
  {
  }

  lemma RestoreOne(s0: State, s: State, k: int, n: int, m: int) returns (s': State)
    requires Staged(s0, s, k, n, m) && 0 < k && m < s.cap
    ensures Staged(s0, s', k - 1, n, m + 1)
  {
    hide Inv, Reach;
    PendingIsLive(s, k - 1);
    RestoreShape(s, k, n, m);
    ReachStep(s0, s, Action(k - 1, SRestore));
    s' := Restore(s, k - 1);
  }

  /** Fill to the load cap with `k` records in realloc hands on top. */
  lemma {:induction false} Stage(s0: State, s: State, k: int, j: int, n: int, m: int) returns (s': State)
    requires Staged(s0, s, k, n, m) && k <= j < n && m <= MaxLoad(s.cap)
    requires k < j ==> 0 < MaxLoad(s.cap) < s.cap
    ensures Staged(s0, s', j, n, MaxLoad(s0.cap))
    decreases j - k, MaxLoad(s.cap) - m
  {
    if m < MaxLoad(s.cap) {
      s' := FillOne(s0, s, k, n, m);
      s' := Stage(s0, s', k, j, n, m + 1);
    } else if k < j {
      s' := TakeOne(s0, s, k, n, m);
      s' := Stage(s0, s', k + 1, j, n, m - 1);
    } else {
      s' := s;
    }
  }

  lemma {:induction false} RestoreAll(s0: State, s: State, k: int, j: int, n: int, m: int) returns (s': State)
    requires Staged(s0, s, k, n, m) && 0 <= j <= k && m + (k - j) <= s.cap
    ensures Staged(s0, s', j, n, m + (k - j))
    decreases k - j
  {
    s' := s;
    if j < k {
      s' := RestoreOne(s0, s, k, n, m);
      s' := RestoreAll(s0, s', k - 1, j, n, m + 1);
    }
  }

  /**
   The bounds above are exact. With one thread more than an eighth of the capacity, some run
   fills the table, and from then on removing a record does not return; with one more than
   that, some run makes a failed realloc lose the record of a live object.
   */
  lemma ManyThreadsFillTheTable(s0: State, n: int)
    requires Init(s0) && s0.nextInc >= 0 && s0.cap >= 8
    requires forall t :: t in s0.pcs <==> 0 <= t < n
    ensures n > s0.cap / 8 ==> exists s :: Reach(s0, s) && |s.view| == s0.cap
    ensures n > s0.cap / 8 + 1 ==> exists s, t :: Reach(s0, s) && LosesRecord(s, t)
  {
    InitInv(s0);
    assert Run(s0, [], s0);
    hide Run, Inv, Reach;
    assert Shape(s0, 0, n, 0) || n < 0;
    var e := s0.cap / 8;
    if n > e {
      var s := Stage(s0, s0, 0, e, n, 0);
      s := RestoreAll(s0, s, e, 0, n, MaxLoad(s0.cap));
      assert Reach(s0, s) && |s.view| == s0.cap;
    }
    if n > e + 1 {
      var s := Stage(s0, s0, 0, e + 1, n, 0);
      s := RestoreAll(s0, s, e + 1, 1, n, MaxLoad(s0.cap));
      FullTableLoses(s);
      assert Reach(s0, s) && LosesRecord(s, 0);
    }
  }

  /** Thread `t`'s restore of a live object's record is about to be refused. */
  ghost predicate LosesRecord(s: State, t: Tid) {
    At(s, t).Restoring? && At(s, t).p in s.live && At(s, t).p !in Restore(s, t).view
  }

  lemma FullTableLoses(s: State)
    requires Inv(s) && 0 in s.pcs && s.pcs[0].Restoring? && |s.view| == s.cap
    ensures LosesRecord(s, 0)
  {
  }
}

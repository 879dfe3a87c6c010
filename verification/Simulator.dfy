/**
 The host simulator of the seLe4n backing provider: frames charged against a finite untyped
 pool, each walked through the whole capability lifecycle.

 `SimState` and the functions on it say what each operation does; class `Sele4nSim` is the
 provider itself, proved to do exactly that. The host allocator's answer and the contents of
 fresh memory are parameters.
 */
module Simulator {
  import opened Backend
  import opened Pages
  import opened Vecs
  import opened Wrappers

  const ISIZE_LIMIT: nat := 0x8000_0000_0000_0000

  /** A frame retyped from the pool; `charged` bytes are backed at `base`. */
  datatype Frame = Frame(base: nat, charged: nat, align: nat, state: ProviderState)

  /** `nonzero` holds the byte addresses whose contents are not zero. */
  datatype SimState = SimState(poolTotal: nat, pool: nat, frames: seq<Frame>, nonzero: set<int>)

  /** The host allocator's answer: an address, and which fresh bytes happen to be nonzero. */
  datatype HostAlloc = Null | At(base: nat, garbage: set<int>)

  // ---- what each operation does ----

  /** The allocation layout is representable. */
  predicate LayoutOk(size: nat, align: nat) { size + align <= ISIZE_LIMIT }

  predicate Apart(f: Frame, base: nat, len: nat) {
    f.base + f.charged <= base || base + len <= f.base
  }

  predicate HostGives(s: SimState, host: HostAlloc, size: nat, align: nat)
    requires align > 0
  {
    host.At? && host.base > 0 && host.base % align == 0 &&
    forall f :: f in s.frames ==> Apart(f, host.base, size)
  }

  function Zeroed(nonzero: set<int>, base: nat, len: nat): set<int> {
    set a | a in nonzero && !(base <= a < base + len)
  }

  function AfterReserve(s: SimState, size: nat, align: nat, host: HostAlloc): (SimState, Result<Region, BackendError>) {
    if size == 0 || !IsPow2(align) || !LayoutOk(size, align) then (s, Err(InvalidRequest))
    else if size > s.pool || !HostGives(s, host, size, align) then (s, Err(OutOfMemory))
    else (
      s.(pool := s.pool - size,
         frames := s.frames + [Frame(host.base, size, align, AllocatorCommitted)],
         nonzero := s.nonzero + (set a | a in host.garbage && host.base <= a < host.base + size)),
      Ok(Region(host.base, size)))
  }

  /** The region is a live frame, and the subrange lies within it. */
  predicate OwnsSubrange(s: SimState, r: Region, offset: nat, len: nat) {
    offset + len <= r.len && exists i :: 0 <= i < |s.frames| && s.frames[i].base == r.base && s.frames[i].charged == r.len
  }

  /** `commit` and `purge_lazy`: validation only. */
  function Validate(s: SimState, r: Region, offset: nat, len: nat): Outcome {
    if OwnsSubrange(s, r, offset, len) then Ok(()) else Err(InvalidRequest)
  }

  /** `decommit` and `purge_forced`: the contents read zero afterwards. */
  function AfterDiscard(s: SimState, r: Region, offset: nat, len: nat): (SimState, Outcome) {
    if OwnsSubrange(s, r, offset, len)
    then (s.(nonzero := Zeroed(s.nonzero, r.base + offset, len)), Ok(()))
    else (s, Err(InvalidRequest))
  }

  /** Index of the first frame at `base`. */
  function Position(frames: seq<Frame>, base: nat): (r: Option<nat>)
    ensures r.Some? ==> r.value < |frames| && frames[r.value].base == base
    ensures r.Some? ==> forall i :: 0 <= i < r.value ==> frames[i].base != base
    ensures r.None? ==> forall f :: f in frames ==> f.base != base
  {
    First(frames, (f: Frame) => f.base == base)
  }

  function AfterRelease(s: SimState, r: Region): (SimState, Outcome) {
    match Position(s.frames, r.base)
    case None => (s, Err(InvalidRequest))
    case Some(i) =>
      (s.(pool := s.pool + s.frames[i].charged,
          frames := SwapRemove(s.frames, i),
          nonzero := Zeroed(s.nonzero, s.frames[i].base, s.frames[i].charged)),
       Ok(()))
  }

  // ---- the invariant, over every run ----

  function Charges(frames: seq<Frame>): nat {
    if frames == [] then 0 else frames[0].charged + Charges(frames[1..])
  }

  ghost predicate Disjoint(frames: seq<Frame>) {
    forall i, j :: 0 <= i < j < |frames| ==> Apart(frames[i], frames[j].base, frames[j].charged)
  }

  /** Nothing is lost from the pool, and every live frame is committed. */
  ghost predicate Inv(s: SimState) {
    && s.pool + Charges(s.frames) == s.poolTotal
    && Disjoint(s.frames)
    && forall f :: f in s.frames ==> f.state == AllocatorCommitted && f.charged > 0
  }

  lemma {:induction false} ChargesAppend(frames: seq<Frame>, f: Frame)
    ensures Charges(frames + [f]) == Charges(frames) + f.charged
  {
    if frames != [] {
      assert (frames + [f])[1..] == frames[1..] + [f];
      ChargesAppend(frames[1..], f);
    }
  }

  lemma {:induction false} ChargesUpdate(frames: seq<Frame>, i: nat, f: Frame)
    requires i < |frames|
    ensures Charges(frames[i := f]) == Charges(frames) - frames[i].charged + f.charged
  {
    if i == 0 {
      assert frames[0 := f][1..] == frames[1..];
    } else {
      assert frames[i := f][1..] == frames[1..][i - 1 := f];
      ChargesUpdate(frames[1..], i - 1, f);
    }
  }

  lemma ChargesSwapRemove(frames: seq<Frame>, i: nat)
    requires i < |frames|
    ensures Charges(SwapRemove(frames, i)) == Charges(frames) - frames[i].charged
  {
    hide Charges;
    var n := |frames| - 1;
    var init := frames[..n];
    assert frames == init + [frames[n]];
    ChargesAppend(init, frames[n]);
    if i == n {
      assert SwapRemove(frames, i) == init;
    } else {
      assert SwapRemove(frames, i) == init[i := frames[n]];
      ChargesUpdate(init, i, frames[n]);
    }
  }

  lemma ReserveKeepsInv(s: SimState, size: nat, align: nat, host: HostAlloc)
    requires Inv(s)
    ensures Inv(AfterReserve(s, size, align, host).0)
  {
    var (s', r) := AfterReserve(s, size, align, host);
    if r.Ok? {
      ChargesAppend(s.frames, s'.frames[|s.frames|]);
      forall i, j | 0 <= i < j < |s'.frames| ensures Apart(s'.frames[i], s'.frames[j].base, s'.frames[j].charged) {
        assert s.frames[i] in s.frames;
      }
    }
  }

  lemma ReleaseKeepsInv(s: SimState, r: Region)
    requires Inv(s)
    ensures Inv(AfterRelease(s, r).0)
  {
    var p := Position(s.frames, r.base);
    if p.Some? {
      ChargesSwapRemove(s.frames, p.value);
      OthersRemain(s.frames, p.value);
      hide Position, Charges, Disjoint, SwapRemove, Zeroed;
    }
  }

  lemma OthersRemain(frames: seq<Frame>, i: nat)
    requires i < |frames| && Disjoint(frames)
    ensures Disjoint(SwapRemove(frames, i))
    ensures forall f :: f in SwapRemove(frames, i) ==> f in frames
  {
  }

  datatype Op =
    | OpReserve(size: nat, align: nat, host: HostAlloc)
    | OpValidate(r: Region, offset: nat, len: nat)
    | OpDiscard(r: Region, offset: nat, len: nat)
    | OpRelease(r: Region)

  function Do(s: SimState, op: Op): SimState {
    match op
    case OpReserve(size, align, host) => AfterReserve(s, size, align, host).0
    case OpValidate(_, _, _) => s
    case OpDiscard(r, offset, len) => AfterDiscard(s, r, offset, len).0
    case OpRelease(r) => AfterRelease(s, r).0
  }

  predicate Accepted(s: SimState, op: Op) {
    match op
    case OpReserve(size, align, host) => AfterReserve(s, size, align, host).1.Ok?
    case OpValidate(r, offset, len) => Validate(s, r, offset, len).Ok?
    case OpDiscard(r, offset, len) => AfterDiscard(s, r, offset, len).1.Ok?
    case OpRelease(r) => AfterRelease(s, r).1.Ok?
  }

  function Run(s: SimState, ops: seq<Op>): SimState
    decreases ops
  {
    if ops == [] then s else Run(Do(s, ops[0]), ops[1..])
  }

  function Fresh(poolTotal: nat): SimState { SimState(poolTotal, poolTotal, [], {}) }

  lemma DoKeepsInv(s: SimState, op: Op)
    requires Inv(s)
    ensures Inv(Do(s, op)) && Do(s, op).poolTotal == s.poolTotal
    ensures !Accepted(s, op) ==> Do(s, op) == s
  {
    match op
    case OpReserve(size, align, host) => ReserveKeepsInv(s, size, align, host);
    case OpRelease(r) => ReleaseKeepsInv(s, r);
    case _ =>
  }

  lemma {:induction false} RunKeepsInv(s: SimState, ops: seq<Op>)
    requires Inv(s)
    ensures Inv(Run(s, ops)) && Run(s, ops).poolTotal == s.poolTotal
    decreases ops
  {
    if ops != [] {
      DoKeepsInv(s, ops[0]);
      RunKeepsInv(Do(s, ops[0]), ops[1..]);
    }
  }

  /** Every run, whatever regions it names: the pool balances and live frames stay committed. */
  lemma PoolIsConserved(poolTotal: nat, ops: seq<Op>)
    ensures var s := Run(Fresh(poolTotal), ops);
            s.pool + Charges(s.frames) == poolTotal && s.pool <= poolTotal &&
            forall f :: f in s.frames ==> f.state == AllocatorCommitted
  {
    RunKeepsInv(Fresh(poolTotal), ops);
  }

  /** Reserving and releasing the region it returned is the identity on the pool and frames. */
  lemma ReserveThenRelease(s: SimState, size: nat, align: nat, host: HostAlloc)
    requires Inv(s) && AfterReserve(s, size, align, host).1.Ok?
    ensures var (s', r) := AfterReserve(s, size, align, host);
            var (s'', done) := AfterRelease(s', r.value);
            done.Ok? && s''.pool == s.pool && s''.frames == s.frames
  {
    var (s', r) := AfterReserve(s, size, align, host);
    assert forall f :: f in s.frames ==> f.base != host.base;
    assert s'.frames[|s.frames|] in s'.frames;
  }

  /** Reserving from an empty simulator, and releasing its only frame. */
  lemma ReserveFirst(s: SimState, size: nat, base: nat)
    requires s.frames == [] && 0 < size <= s.pool && LayoutOk(size, 16) && base > 0 && base % 16 == 0
    ensures var (s', r) := AfterReserve(s, size, 16, At(base, {}));
            && r == Ok(Region(base, size)) && s'.frames == [Frame(base, size, 16, AllocatorCommitted)]
            && s'.pool == s.pool - size && s'.nonzero == s.nonzero
  {
    SixteenIsPow2();
  }

  lemma ReleaseOnly(s: SimState, r: Region)
    requires |s.frames| == 1 && s.frames[0].base == r.base
    ensures var (s', done) := AfterRelease(s, r); done == Ok(()) && s'.frames == [] && s'.pool == s.pool + s.frames[0].charged
  {
    assert s.frames[0] in s.frames;
  }

  // ---- the provider ----

  const RESERVATION_CHAIN: seq<ProviderState> :=
    [ReservedUntyped, FrameCapMinted, MappedToServer, MappedToClient, AllocatorCommitted]

  const RELEASE_TAIL: seq<ProviderState> :=
    [AllocatorDirty, AllocatorMuzzyOrScrubbed, Unmapped, Revoked, RecyclableUntyped]

  /** Step `i` of `steps` is the legal successor of what precedes it. */
  predicate LegalStep(from: ProviderState, steps: seq<ProviderState>, i: nat)
    requires i < |steps|
  {
    CanTransition(if i == 0 then from else steps[i - 1], steps[i])
  }

  lemma ChainsAreLegal(i: nat)
    requires i < 5
    ensures LegalStep(AuthorizedUntyped, RESERVATION_CHAIN, i)
    ensures LegalStep(AllocatorCommitted, RELEASE_TAIL, i)
  {
  }

  /** Walks the chain `steps` from `fsm`; every step is legal. */
  method Walk(fsm: ProviderStateMachine, steps: seq<ProviderState>)
    requires forall i :: 0 <= i < |steps| ==> LegalStep(fsm.state, steps, i)
    modifies fsm
    ensures fsm.state == if steps == [] then old(fsm.state) else steps[|steps| - 1]
  {
    for i := 0 to |steps|
      invariant fsm.state == if i == 0 then old(fsm.state) else steps[i - 1]
    {
      assert LegalStep(old(fsm.state), steps, i);
      var step := fsm.Advance(steps[i]);
      assert step.Ok?; // the walk never meets an illegal transition
    }
  }

  method MintAndMap() returns (state: ProviderState)
    ensures state == AllocatorCommitted
  {
    var fsm := new ProviderStateMachine();
    forall i | 0 <= i < 5 ensures LegalStep(AuthorizedUntyped, RESERVATION_CHAIN, i) { ChainsAreLegal(i); }
    Walk(fsm, RESERVATION_CHAIN);
    state := fsm.state;
  }

  class Sele4nSim {
    const poolTotal: nat
    var poolRemaining: nat
    var frames: seq<Frame>
    var nonzero: set<int>

    ghost function State(): SimState
      reads this
    {
      SimState(poolTotal, poolRemaining, frames, nonzero)
    }

    constructor (poolBytes: nat)
      ensures State() == Fresh(poolBytes)
    {
      poolTotal := poolBytes;
      poolRemaining := poolBytes;
      frames := [];
      nonzero := {};
    }

    method CheckedSubrange(r: Region, offset: nat, len: nat) returns (p: Option<nat>)
      ensures p == if OwnsSubrange(State(), r, offset, len) then Some(r.base + offset) else None
    {
      if offset + len > r.len { return None; }
      for i := 0 to |frames|
        invariant forall k :: 0 <= k < i ==> !(frames[k].base == r.base && frames[k].charged == r.len)
      {
        if frames[i].base == r.base && frames[i].charged == r.len {
          return Some(r.base + offset);
        }
      }
      return None;
    }

    method Reserve(size: nat, align: nat, host: HostAlloc) returns (r: Result<Region, BackendError>)
      requires Inv(State())
      modifies this
      ensures Inv(State())
      ensures (State(), r) == AfterReserve(old(State()), size, align, host)
    {
      ReserveKeepsInv(State(), size, align, host);
      if size == 0 || !IsPow2(align) { return Err(InvalidRequest); }
      if !LayoutOk(size, align) { return Err(InvalidRequest); }
      if size > poolRemaining { return Err(OutOfMemory); }
      if !(host.At? && host.base > 0 && host.base % align == 0) ||
        exists f :: f in frames && !Apart(f, host.base, size) { return Err(OutOfMemory); }
      poolRemaining := poolRemaining - size;
      var state := MintAndMap();
      frames := frames + [Frame(host.base, size, align, state)];
      nonzero := nonzero + set a | a in host.garbage && host.base <= a < host.base + size;
      return Ok(Region(host.base, size));
    }

    method Commit(r: Region, offset: nat, len: nat) returns (done: Outcome)
      ensures done == Validate(State(), r, offset, len)
    {
      var p := CheckedSubrange(r, offset, len);
      return if p.Some? then Ok(()) else Err(InvalidRequest);
    }

    method Decommit(r: Region, offset: nat, len: nat) returns (done: Outcome)
      requires Inv(State())
      modifies this`nonzero
      ensures Inv(State()) && (State(), done) == AfterDiscard(old(State()), r, offset, len)
    {
      var p := CheckedSubrange(r, offset, len);
      if p.None? { return Err(InvalidRequest); }
      nonzero := Zeroed(nonzero, p.value, len);
      return Ok(());
    }

    method Release(r: Region) returns (done: Outcome)
      requires Inv(State())
      modifies this
      ensures Inv(State())
      ensures (State(), done) == AfterRelease(old(State()), r)
    {
      ReleaseKeepsInv(State(), r);
      var p := Position(frames, r.base);
      if p.None? { return Err(InvalidRequest); }
      var fr := frames[p.value];
      frames := SwapRemove(frames, p.value);
      var fsm := new ProviderStateMachine.StartingAt(fr.state);
      forall i | 0 <= i < 5 ensures LegalStep(AllocatorCommitted, RELEASE_TAIL, i) { ChainsAreLegal(i); }
      Walk(fsm, RELEASE_TAIL);
      poolRemaining := poolRemaining + fr.charged;
      nonzero := Zeroed(nonzero, fr.base, fr.charged);
      return Ok(());
    }
  }
}

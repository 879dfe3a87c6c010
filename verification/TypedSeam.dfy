/**
 The typed capability surface composed from the collapsed seam, as every provider gets it by
 default: windows, frames and mapped ranges over `reserve`, `commit`, `decommit` and
 `release`. Stated once for any provider, then for the POSIX provider and the simulator.
 */
module TypedSeam {
  import opened Backend
  import opened Pages
  import opened Posix
  import opened PosixRuns
  import S = Simulator
  import opened Vecs
  import opened Words
  import opened Wrappers

  datatype Rights = Rights(read: bool, write: bool)
  datatype CachePolicy = Cached | Uncached | WriteCombining
  datatype VWindow = VWindow(region: Region, rights: Rights, cache: CachePolicy)
  datatype FrameCap = FrameCap(size: nat, labelId: nat)
  datatype MappedRange = MappedRange(region: Region, rights: Rights)

  const PUBLIC: nat := 0

  type Fallible<T> = Result<T, BackendError>

  /** The collapsed operations of a provider with states `S`. */
  datatype Seam<!S> = Seam(
    reserve: (S, nat, nat) -> (S, Fallible<Region>),
    commit: (S, Region, nat, nat) -> (S, Outcome),
    decommit: (S, Region, nat, nat) -> (S, Outcome),
    release: (S, Region) -> (S, Outcome))

  // ---- the default methods ----

  function ReserveWindow<S>(p: Seam<S>, s: S, size: nat, align: nat, rights: Rights): (S, Fallible<VWindow>) {
    var (s', r) := p.reserve(s, size, align);
    (s', match r case Err(e) => Err(e) case Ok(region) => Ok(VWindow(region, rights, Cached)))
  }

  function CreateFrame(sizeBits: nat, labelId: nat): FrameCap {
    FrameCap(Pow2(if sizeBits < USIZE_BITS - 1 then sizeBits else USIZE_BITS - 1), labelId)
  }

  /** The frame must fill the window exactly. */
  function MapFrame<S>(p: Seam<S>, s: S, frame: FrameCap, w: VWindow, rights: Rights): (S, Fallible<MappedRange>) {
    if frame.size != w.region.len then (s, Err(InvalidRequest))
    else
      var (s', done) := p.commit(s, w.region, 0, w.region.len);
      (s', match done case Err(e) => Err(e) case Ok(_) => Ok(MappedRange(w.region, rights)))
  }

  function UnmapFrame<S>(p: Seam<S>, s: S, m: MappedRange): (S, Fallible<FrameCap>) {
    var (s', done) := p.decommit(s, m.region, 0, m.region.len);
    (s', match done case Err(e) => Err(e) case Ok(_) => Ok(FrameCap(m.region.len, PUBLIC)))
  }

  function Recycle<S>(p: Seam<S>, s: S, m: MappedRange): (S, Outcome) { p.release(s, m.region) }

  // ---- a whole life, typed and collapsed ----

  datatype Request = Request(size: nat, align: nat, bits: nat, labelId: nat, rights: Rights)

  /** Reserve a window, mint a frame and map it. */
  function TypedOpen<S>(p: Seam<S>, s: S, q: Request): (S, Fallible<MappedRange>) {
    var (s1, w) := ReserveWindow(p, s, q.size, q.align, q.rights);
    if w.Err? then (s1, Err(w.error))
    else MapFrame(p, s1, CreateFrame(q.bits, q.labelId), w.value, q.rights)
  }

  /** Open, unmap, recycle; stop at the first failure. */
  function TypedLife<S>(p: Seam<S>, s: S, q: Request): (S, Outcome) {
    var (s2, m) := TypedOpen(p, s, q);
    if m.Err? then (s2, Err(m.error)) else
    var (s3, f) := UnmapFrame(p, s2, m.value);
    if f.Err? then (s3, Err(f.error)) else
    Recycle(p, s3, m.value)
  }

  /** The same life through the collapsed seam. */
  function CollapsedLife<S>(p: Seam<S>, s: S, size: nat, align: nat): (S, Outcome) {
    var (s1, r) := p.reserve(s, size, align);
    if r.Err? then (s1, Err(r.error)) else
    var (s2, c) := p.commit(s1, r.value, 0, size);
    if c.Err? then (s2, c) else
    var (s3, d) := p.decommit(s2, r.value, 0, size);
    if d.Err? then (s3, d) else
    p.release(s3, r.value)
  }

  predicate FrameFits(q: Request) { q.size == CreateFrame(q.bits, q.labelId).size }

  /**
   For any provider whose reservation has the length asked for: the typed life is the collapsed
   one when the frame fills the window, and fails otherwise.
   */
  lemma TypedRefinesCollapsed<S>(p: Seam<S>, s: S, q: Request)
    requires var r := p.reserve(s, q.size, q.align).1; r.Ok? ==> r.value.len == q.size
    ensures TypedLife(p, s, q).1.Ok? <==> CollapsedLife(p, s, q.size, q.align).1.Ok? && FrameFits(q)
    ensures FrameFits(q) ==> TypedLife(p, s, q) == CollapsedLife(p, s, q.size, q.align)
  {
    hide CreateFrame;
    var (s1, r) := p.reserve(s, q.size, q.align);
    if r.Ok? && FrameFits(q) {
      var (s2, m) := TypedOpen(p, s, q);
      assert p.commit(s1, r.value, 0, q.size).0 == s2;
      if m.Ok? { assert UnmapFrame(p, s2, m.value).0 == p.decommit(s2, r.value, 0, q.size).0; }
    }
  }

  /** A frame's size is the power of two asked for, and always fits a word. */
  lemma FrameSizeNeverWraps(bits: nat, labelId: nat)
    ensures bits < USIZE_BITS ==> CreateFrame(bits, labelId).size == Pow2(bits)
    ensures 0 < CreateFrame(bits, labelId).size < W64
  {
    Pow2Of64();
    var k := if bits < USIZE_BITS - 1 then bits else USIZE_BITS - 1;
    Pow2Grows(k, USIZE_BITS - 1);
    assert Pow2(USIZE_BITS) == 2 * Pow2(USIZE_BITS - 1);
    hide Pow2;
  }

  // ---- the two providers ----

  /** The kernel's answers along one life. */
  datatype Answers = Answers(map_: MapAnswer, commit: SysAnswer, decommit: SysAnswer, unmapOk: bool)

  type Running = s: State | s.page > 0 witness State(1, false, map[], {}, [], {})

  function PosixSeam(k: Answers): Seam<Running> {
    Seam((s: Running, size: nat, align: nat) => PosixReserve(s, size, align, k.map_),
         (s: Running, r: Region, offset: nat, len: nat) => PosixPhysical(s, Commit, r, offset, len, k.commit),
         (s: Running, r: Region, offset: nat, len: nat) => PosixPhysical(s, Decommit, r, offset, len, k.decommit),
         (s: Running, r: Region) => PosixRelease(s, r, k.unmapOk))
  }

  function PosixReserve(s: Running, size: nat, align: nat, k: MapAnswer): (Running, Fallible<Region>) {
    AfterReserve(s, size, align, k)
  }

  function PosixPhysical(s: Running, kind: Kind, r: Region, offset: nat, len: nat, k: SysAnswer): (Running, Outcome) {
    AfterPhysical(s, kind, r, offset, len, k)
  }

  function PosixRelease(s: Running, r: Region, ok: bool): (Running, Outcome) { AfterRelease(s, r, ok) }

  function SimSeam(host: S.HostAlloc): Seam<S.SimState> {
    Seam((s: S.SimState, size: nat, align: nat) => S.AfterReserve(s, size, align, host),
         (s: S.SimState, r: Region, offset: nat, len: nat) => (s, S.Validate(s, r, offset, len)),
         (s: S.SimState, r: Region, offset: nat, len: nat) => S.AfterDiscard(s, r, offset, len),
         (s: S.SimState, r: Region) => S.AfterRelease(s, r))
  }

  /** Both providers reserve exactly the length asked for, so both have the typed surface. */
  lemma ProvidersServeTheTypedSurface(s: Running, t: S.SimState, q: Request, k: Answers, host: S.HostAlloc)
    ensures TypedLife(PosixSeam(k), s, q).1.Ok? <==> CollapsedLife(PosixSeam(k), s, q.size, q.align).1.Ok? && FrameFits(q)
    ensures FrameFits(q) ==> TypedLife(PosixSeam(k), s, q) == CollapsedLife(PosixSeam(k), s, q.size, q.align)
    ensures TypedLife(SimSeam(host), t, q).1.Ok? <==> CollapsedLife(SimSeam(host), t, q.size, q.align).1.Ok? && FrameFits(q)
    ensures FrameFits(q) ==> TypedLife(SimSeam(host), t, q) == CollapsedLife(SimSeam(host), t, q.size, q.align)
  {
    RegionHasSize(s, q.size, q.align, k.map_);
    TypedRefinesCollapsed(PosixSeam(k), s, q);
    TypedRefinesCollapsed(SimSeam(host), t, q);
    hide TypedLife, CollapsedLife;
  }

  lemma RegionHasSize(s: State, size: nat, align: nat, k: MapAnswer)
    requires s.page > 0
    ensures var r := AfterReserve(s, size, align, k).1; r.Ok? ==> r.value.len == size
  {
  }

  // ---- what a life leaves behind ----

  /** Same reservations, and every page and byte as before. */
  ghost predicate SameWorld(s: State, s': State) {
    && s'.owned == s.owned && s'.page == s.page && s'.guard == s.guard
    && (forall p :: p in s'.mem <==> p in s.mem)
    && (forall p :: p in s.mem && p in s'.mem ==> s'.mem[p] == s.mem[p])
    && (forall p :: p in s'.stray <==> p in s.stray)
    && (forall a :: a in s'.nonzero <==> a in s.nonzero)
  }

  /** `s'` is `s` with one reservation `o` more, its pages new, everything else untouched. */
  ghost predicate OneMore(s: State, s': State, o: Owned)
    requires s.page > 0
  {
    && s'.owned == s.owned + [o] && Inv(s') && NewPages(s, s', Lo(s.page, o), Hi(s.page, o))
  }

  ghost predicate NewPages(s: State, s': State, lo: int, hi: int) {
    && s'.page == s.page && s'.guard == s.guard
    && (forall p :: lo <= p < hi ==> p !in s.mem)
    && (forall p :: p in s'.mem <==> p in s.mem || lo <= p < hi)
    && (forall p :: p in s.mem && p in s'.mem ==> s'.mem[p] == s.mem[p])
    && (forall p :: p in s'.stray <==> p in s.stray)
    && (forall a :: a in s'.nonzero <==> a in s.nonzero)
  }

  lemma ReserveIsOneMore(s: State, size: nat, align: nat, k: MapAnswer) returns (o: Owned)
    requires Inv(s) && AfterReserve(s, size, align, k).1.Ok? && k.frontOk && k.tailOk
    ensures var (s', r) := AfterReserve(s, size, align, k);
            OneMore(s, s', o) && r.value == Region(o.base, size) && size <= o.mappedLen
  {
    o := ReserveMapsExactlyOneRange(s, size, align, k);
    DoKeepsInv(s, OpReserve(size, align, k));
    hide Inv, AfterReserve;
  }

  lemma LastIsAlone(s: State, s': State, o: Owned, i: nat)
    requires s.page > 0 && OneMore(s, s', o) && i < |s.owned|
    ensures s.owned[i].base != o.base
  {
    assert s'.owned[i] == s.owned[i] && s'.owned[|s.owned|] == o;
    assert Apart(s'.page, s'.owned[i], s'.owned[|s.owned|]);
    EntryHasPages(s', s'.owned[i]);
    EntryHasPages(s', o);
  }

  /** A call on the new pages changes nothing but them. */
  lemma CallOnNewPages(s: State, s': State, lo: int, hi: int, from: int, upto: int, accessible: bool)
    requires s.page > 0 && NewPages(s, s', lo, hi) && (from < upto ==> lo <= from && upto <= hi)
    requires forall a :: a in s.nonzero ==> PageOf(s.page, a) in s.mem
    ensures NewPages(s, SetAccess(s', from, upto, accessible), lo, hi)
    ensures NewPages(s, DropContents(s', from, upto), lo, hi)
  {
  }

  lemma PhysicalKeepsOneMore(s: State, s': State, o: Owned, kind: Kind, r: Region, len: nat, k: SysAnswer)
    requires Inv(s) && OneMore(s, s', o) && r.base == o.base && (kind == Commit || kind == Decommit)
    ensures OneMore(s, AfterPhysical(s', kind, r, 0, len, k).0, o)
  {
    PhysicalKeepsInv(s', kind, r, 0, len, k);
    if OwnedSubrange(s', r, 0, len).Some? {
      var i := SubrangeIsOwned(s', r, 0, len);
      if i < |s.owned| { LastIsAlone(s, s', o, i); }
      var from, upto := FirstPage(s.page, r.base), EndPage(s.page, r.base, len);
      assert from < upto ==> Covers(s', i, from) && Covers(s', i, upto - 1);
      CallOnNewPages(s, s', Lo(s.page, o), Hi(s.page, o), from, upto, true);
      CallOnNewPages(s, DropContents(s', from, upto), Lo(s.page, o), Hi(s.page, o), from, upto, false);
      hide Inv, Lo, Hi, FirstPage, EndPage, NewPages, SetAccess, DropContents;
    }
  }

  lemma NothingOnNewPages(s: State, s': State, o: Owned)
    requires Inv(s) && OneMore(s, s', o)
    ensures forall a :: Lo(s.page, o) <= PageOf(s.page, a) < Hi(s.page, o) ==> a !in s'.nonzero
  {
  }

  lemma ReleaseUndoesOneMore(s: State, s': State, o: Owned, r: Region)
    requires Inv(s) && OneMore(s, s', o) && r.base == o.base
    ensures AfterRelease(s', r, true).1 == Ok(()) && SameWorld(s, AfterRelease(s', r, true).0)
  {
    forall i | 0 <= i < |s.owned| ensures s.owned[i].base != o.base { LastIsAlone(s, s', o, i); }
    assert Position(s'.owned, o.base) == Some(|s.owned|) by {
      hide Inv, NewPages, Lo, Hi;
      assert s'.owned[|s.owned|] in s'.owned;
    }
    hide Position;
    assert SwapRemove(s'.owned, |s.owned|) == s.owned;
    NothingOnNewPages(s, s', o);
    assert forall p :: p in s.stray ==> p in s.mem;
    hide Inv, Lo, Hi, PageOf;
  }

  /** A completed life, its trims succeeding, leaves reservations, pages and bytes as they were. */
  lemma LifeLeavesNothing(s: State, size: nat, align: nat, k: Answers)
    requires Inv(s) && CollapsedLife(PosixSeam(k), s, size, align).1.Ok? && k.map_.frontOk && k.map_.tailOk
    ensures SameWorld(s, CollapsedLife(PosixSeam(k), s, size, align).0)
  {
    var (s1, r) := AfterReserve(s, size, align, k.map_);
    var o := ReserveIsOneMore(s, size, align, k.map_);
    hide AfterReserve, AfterPhysical, AfterRelease, SameWorld, Inv;
    PhysicalKeepsOneMore(s, s1, o, Commit, r.value, size, k.commit);
    var s2 := AfterPhysical(s1, Commit, r.value, 0, size, k.commit).0;
    PhysicalKeepsOneMore(s, s2, o, Decommit, r.value, size, k.decommit);
    var s3 := AfterPhysical(s2, Decommit, r.value, 0, size, k.decommit).0;
    ReleaseUndoesOneMore(s, s3, o, r.value);
  }

  /**
   Whatever makes the map fail, a frame that does not fill the window or the commit itself, the
   window is still owned, and releasing it undoes the reservation.
   */
  lemma RefusedMapKeepsWindow(s: State, q: Request, k: Answers) returns (o: Owned)
    requires Inv(s) && k.map_.MapAt? && k.map_.frontOk && k.map_.tailOk
    requires ReserveWindow(PosixSeam(k), s, q.size, q.align, q.rights).1.Ok? && TypedOpen(PosixSeam(k), s, q).1.Err?
    ensures var (s', done) := TypedLife(PosixSeam(k), s, q);
            && done == Err(TypedOpen(PosixSeam(k), s, q).1.error) && OneMore(s, s', o)
            && AfterRelease(s', Region(o.base, q.size), true).1 == Ok(())
            && SameWorld(s, AfterRelease(s', Region(o.base, q.size), true).0)
  {
    o := ReserveIsOneMore(s, q.size, q.align, k.map_);
    var s1 := AfterReserve(s, q.size, q.align, k.map_).0;
    hide AfterReserve, AfterPhysical, AfterRelease, OneMore, SameWorld, Inv;
    PhysicalKeepsOneMore(s, s1, o, Commit, Region(o.base, q.size), q.size, k.commit);
    var s' := TypedLife(PosixSeam(k), s, q).0;
    ReleaseUndoesOneMore(s, s', o, Region(o.base, q.size));
  }

  /** In the simulator a life completes whenever its reservation does, and pool and frames are as before. */
  lemma SimLifeLeavesNothing(s: S.SimState, size: nat, align: nat, host: S.HostAlloc)
    requires S.Inv(s)
    ensures var (s', done) := CollapsedLife(SimSeam(host), s, size, align);
            && (done.Ok? <==> S.AfterReserve(s, size, align, host).1.Ok?)
            && s'.pool == s.pool && s'.frames == s.frames
            && (forall a :: a in s'.nonzero ==> a in s.nonzero)
            && (forall a :: a in s.nonzero && a !in s'.nonzero ==> host.At? && host.base <= a < host.base + size)
  {
    var (s1, r) := S.AfterReserve(s, size, align, host);
    if r.Ok? {
      assert s1.frames[|s.frames|].base == r.value.base && s1.frames[|s.frames|].charged == r.value.len;
      S.ReserveThenRelease(s, size, align, host);
    }
  }

  /** A map refused in the simulator leaves the window charged, and releasing it returns the charge. */
  lemma SimRefusedMapKeepsWindow(s: S.SimState, q: Request, host: S.HostAlloc)
    requires S.Inv(s) && S.AfterReserve(s, q.size, q.align, host).1.Ok? && TypedOpen(SimSeam(host), s, q).1.Err?
    ensures var (s', done) := TypedLife(SimSeam(host), s, q);
            var (s'', released) := S.AfterRelease(s', Region(host.base, q.size));
            && !FrameFits(q) && done == Err(InvalidRequest) && s'.pool == s.pool - q.size
            && released.Ok? && s''.pool == s.pool && s''.frames == s.frames
  {
    var s1 := S.AfterReserve(s, q.size, q.align, host).0;
    assert s1.frames[|s.frames|].base == host.base && s1.frames[|s.frames|].charged == q.size;
    S.ReserveThenRelease(s, q.size, q.align, host);
  }
}

/**
 The POSIX backing provider over a simulated address space of pages.

 `State` is the kernel's page table and memory contents together with the provider's list of
 reservations; the functions on it say what each operation does, and class
 `PosixBackingProvider` (in its own file) is proved to do exactly that. What the kernel
 answers is a parameter of each operation. A system call takes effect as a whole or not at
 all. `stray` are the mapped pages the provider does not list: other code's mappings, and
 slack or reservations whose unmapping failed.
 */
module Posix {
  import opened Backend
  import opened Pages
  import opened Vecs
  import opened Words
  import opened Wrappers

  /** User mappings lie below this address. */
  const USER_LIMIT: int := 0x8000_0000_0000_0000

  /** One reservation: its base, the page-rounded length to unmap, the alignment asked for. */
  datatype Owned = Owned(base: nat, mappedLen: nat, align: nat)

  /** `lazy`: offered to the kernel for reclaim at any time before the next write. */
  datatype Page = Page(accessible: bool, lazy: bool)

  datatype State = State(
    page: nat,                 // bytes per page
    guard: bool,               // guard mode
    mem: map<int, Page>,       // mapped pages, by page number
    nonzero: set<int>,         // byte addresses whose contents are not zero
    owned: seq<Owned>,
    stray: set<int>)

  // ---- the kernel ----

  predicate Within(p: int, lo: int, hi: int) { lo <= p < hi }

  function Span(lo: int, hi: int): set<int> { set p | lo <= p < hi && Within(p, lo, hi) }

  predicate FreeSpan(s: State, lo: int, hi: int) {
    1 <= lo && hi * s.page <= USER_LIMIT && forall p :: lo <= p < hi ==> p !in s.mem
  }

  function MapSpan(s: State, lo: int, hi: int): (s': State)
    ensures s' == s.(mem := s'.mem)
  {
    s.(mem := map p | p in s.mem.Keys + Span(lo, hi) :: if lo <= p < hi then Page(!s.guard, false) else s.mem[p])
  }

  /** The nonzero bytes left once the pages in `[lo, hi)` are emptied. */
  function Emptied(s: State, lo: int, hi: int): set<int>
    requires s.page > 0
  {
    set a | a in s.nonzero && !(lo <= PageOf(s.page, a) < hi)
  }

  /** `munmap`: the pages go, or stay mapped with nobody listing them. */
  function Munmap(s: State, lo: int, hi: int, ok: bool): (s': State)
    requires s.page > 0
    ensures s' == s.(mem := s'.mem, nonzero := s'.nonzero, stray := s'.stray)
  {
    if ok then s.(mem := s.mem - Span(lo, hi), nonzero := Emptied(s, lo, hi), stray := s.stray - Span(lo, hi))
    else s.(stray := s.stray + Span(lo, hi))
  }

  /** `mprotect`. */
  function SetAccess(s: State, lo: int, hi: int, accessible: bool): State {
    s.(mem := map p | p in s.mem :: if lo <= p < hi then s.mem[p].(accessible := accessible) else s.mem[p])
  }

  /** `madvise(MADV_DONTNEED)` on private anonymous memory. */
  function DropContents(s: State, lo: int, hi: int): State
    requires s.page > 0
  {
    s.(mem := map p | p in s.mem :: if lo <= p < hi then s.mem[p].(lazy := false) else s.mem[p],
       nonzero := Emptied(s, lo, hi))
  }

  /** `madvise(MADV_FREE)`. */
  function OfferLazily(s: State, lo: int, hi: int): State {
    s.(mem := map p | p in s.mem :: if lo <= p < hi then s.mem[p].(lazy := true) else s.mem[p])
  }

  // ---- reserve ----

  datatype Plan = Refuse | MapExact(size: nat) | MapOver(size: nat, over: nat)

  /** How many bytes to ask the kernel for; never wraps. */
  function PlanReserve(page: nat, size: nat, align: nat): Plan
    requires page > 0
  {
    if size == 0 || !IsPow2(align) then Refuse
    else match RoundToPage(page, size)
      case None => Refuse
      case Some(msize) =>
        if align <= page then MapExact(msize)
        else if msize + align >= W64 then Refuse
        else MapOver(msize, msize + align)
  }

  /** The kernel's answers: where it maps (a page number), and whether the trims succeed. */
  datatype MapAnswer = NoMemory | MapAt(p: nat, frontOk: bool, tailOk: bool)

  predicate Granted(s: State, k: MapAnswer, bytes: nat)
    requires s.page > 0
  {
    k.MapAt? && FreeSpan(s, k.p, k.p + bytes / s.page)
  }

  function Trimmed(s: State, k: MapAnswer, size: nat, over: nat, align: nat): (State, nat)
    requires s.page > 0 && align > 0 && k.MapAt?
  {
    var page := s.page;
    var raw := k.p * page;
    var base := AlignUp(raw, align);
    var front := base - raw;
    var tail := over - front - size;
    var s := MapSpan(s, k.p, k.p + over / page);
    var s := if front > 0 then Munmap(s, k.p, EndPage(page, raw, front), k.frontOk) else s;
    var s := if tail > 0 then Munmap(s, FirstPage(page, base + size), EndPage(page, base + size, tail), k.tailOk) else s;
    (s, base)
  }

  function AfterReserve(s: State, size: nat, align: nat, k: MapAnswer): (State, Result<Region, BackendError>)
    requires s.page > 0
  {
    match PlanReserve(s.page, size, align)
    case Refuse => (s, Err(InvalidRequest))
    case MapExact(msize) =>
      if !Granted(s, k, msize) then (s, Err(OutOfMemory))
      else
        var base := k.p * s.page;
        (Push(MapSpan(s, k.p, k.p + msize / s.page), Owned(base, msize, align)), Ok(Region(base, size)))
    case MapOver(msize, over) =>
      if !Granted(s, k, over) then (s, Err(OutOfMemory))
      else
        var (s', base) := Trimmed(s, k, msize, over, align);
        (Push(s', Owned(base, msize, align)), Ok(Region(base, size)))
  }

  function Push(s: State, o: Owned): State { s.(owned := s.owned + [o]) }

  // ---- physical-state operations ----

  /** Address of a subrange of a live reservation that covers the region, or nothing. */
  function OwnedSubrange(s: State, r: Region, offset: nat, len: nat): Option<nat> {
    if offset + len <= r.len && exists i :: 0 <= i < |s.owned| && Matches(s.owned[i], r)
    then Some(r.base + offset)
    else None
  }

  predicate Matches(o: Owned, r: Region) { o.base == r.base && r.len <= o.mappedLen }

  /** The kernel's answers to the calls an operation makes. */
  datatype SysAnswer = SysAnswer(madvise: bool, mprotect: bool, einval: bool)

  /** The call reaches its pages: it starts on a page boundary and the kernel does not fail it. */
  predicate Reaches(s: State, addr: nat, ok: bool)
    requires s.page > 0
  {
    ok && addr % s.page == 0
  }

  datatype Kind = Commit | Decommit | PurgeLazy | PurgeForced | Protect(accessible: bool)

  /** What the operation does to `[addr, addr + len)` once ownership is established. */
  function SysCall(s: State, kind: Kind, addr: nat, len: nat, k: SysAnswer): (State, Outcome)
    requires s.page > 0
  {
    var lo, hi := FirstPage(s.page, addr), EndPage(s.page, addr, len);
    match kind
    case Commit =>
      if !s.guard then (s, Ok(()))
      else if Reaches(s, addr, k.mprotect) then (SetAccess(s, lo, hi, true), Ok(())) else (s, Err(OutOfMemory))
    case Decommit =>
      if !Reaches(s, addr, k.madvise) then (s, Err(OutOfMemory))
      else if !s.guard then (DropContents(s, lo, hi), Ok(()))
      else if k.mprotect then (SetAccess(DropContents(s, lo, hi), lo, hi, false), Ok(()))
      else (DropContents(s, lo, hi), Err(OutOfMemory))
    case PurgeLazy =>
      if Reaches(s, addr, k.madvise) then (OfferLazily(s, lo, hi), Ok(()))
      else if addr % s.page != 0 || k.einval then (s, Ok(()))
      else (s, Err(OutOfMemory))
    case PurgeForced =>
      if Reaches(s, addr, k.madvise) then (DropContents(s, lo, hi), Ok(())) else (s, Err(OutOfMemory))
    case Protect(accessible) =>
      if Reaches(s, addr, k.mprotect) then (SetAccess(s, lo, hi, accessible), Ok(())) else (s, Err(OutOfMemory))
  }

  function AfterPhysical(s: State, kind: Kind, r: Region, offset: nat, len: nat, k: SysAnswer): (State, Outcome)
    requires s.page > 0
  {
    match OwnedSubrange(s, r, offset, len)
    case None => (s, Err(InvalidRequest))
    case Some(addr) => if len == 0 then (s, Ok(())) else SysCall(s, kind, addr, len, k)
  }

  /** `bind_node` changes no page's contents or access. */
  function BindOutcome(s: State, r: Region, osNode: nat, ok: bool): Outcome {
    if OwnedSubrange(s, r, 0, r.len).None? then Err(InvalidRequest)
    else if r.len == 0 then Ok(())
    else if osNode >= 64 then Err(InvalidRequest)
    else if ok then Ok(()) else Err(OutOfMemory)
  }

  // ---- release ----

  /** Index of the first reservation at `base`. */
  function Position(owned: seq<Owned>, base: nat): (r: Option<nat>)
    ensures r.Some? ==> r.value < |owned| && owned[r.value].base == base
    ensures r.Some? ==> forall i :: 0 <= i < r.value ==> owned[i].base != base
    ensures r.None? ==> forall o :: o in owned ==> o.base != base
  {
    First(owned, (o: Owned) => o.base == base)
  }

  function AfterRelease(s: State, r: Region, ok: bool): (State, Outcome)
    requires s.page > 0
  {
    match Position(s.owned, r.base)
    case None => (s, Err(InvalidRequest))
    case Some(i) =>
      var o := s.owned[i];
      var s' := Munmap(s.(owned := SwapRemove(s.owned, i)), Lo(s.page, o), Hi(s.page, o), ok);
      (s', if ok then Ok(()) else Err(InvalidRequest))
  }

  function Lo(page: nat, o: Owned): int
    requires page > 0
  {
    FirstPage(page, o.base)
  }

  function Hi(page: nat, o: Owned): int
    requires page > 0
  {
    EndPage(page, o.base, o.mappedLen)
  }

  // ---- the world outside the provider ----

  /** A store to `a`: it lands if the page is mapped and accessible, else it faults. */
  function AfterWrite(s: State, a: int, zero: bool): State
    requires s.page > 0
  {
    var p := PageOf(s.page, a);
    if p !in s.mem || !s.mem[p].accessible then s
    else s.(mem := s.mem[p := s.mem[p].(lazy := false)], nonzero := if zero then s.nonzero - {a} else s.nonzero + {a})
  }

  /** Under pressure the kernel empties a page that was offered lazily. */
  function AfterReclaim(s: State, p: int): State
    requires s.page > 0
  {
    if p in s.mem && s.mem[p].lazy then DropContents(s, p, p + 1) else s
  }

  /** Other code maps fresh pages, or unmaps pages the provider does not list. */
  function AfterOtherMap(s: State, lo: int, hi: int): State {
    if FreeSpan(s, lo, hi) then MapSpan(s, lo, hi).(stray := s.stray + Span(lo, hi)) else s
  }

  function AfterOtherUnmap(s: State, lo: int, hi: int): State
    requires s.page > 0
  {
    if Span(lo, hi) <= s.stray then Munmap(s, lo, hi, true) else s
  }

  // ---- runs ----

  datatype Op =
    | OpReserve(size: nat, align: nat, map_: MapAnswer)
    | OpPhysical(kind: Kind, r: Region, offset: nat, len: nat, sys: SysAnswer)
    | OpRelease(r: Region, unmapOk: bool)
    | Write(a: int, zero: bool)
    | Reclaim(p: int)
    | OtherMap(lo: int, hi: int)
    | OtherUnmap(lo: int, hi: int)

  function Do(s: State, op: Op): (s': State)
    requires s.page > 0
    ensures s'.page == s.page && s'.guard == s.guard
  {
    match op
    case OpReserve(size, align, k) => AfterReserve(s, size, align, k).0
    case OpPhysical(kind, r, offset, len, k) => AfterPhysical(s, kind, r, offset, len, k).0
    case OpRelease(r, ok) => AfterRelease(s, r, ok).0
    case Write(a, zero) => AfterWrite(s, a, zero)
    case Reclaim(p) => AfterReclaim(s, p)
    case OtherMap(lo, hi) => AfterOtherMap(s, lo, hi)
    case OtherUnmap(lo, hi) => AfterOtherUnmap(s, lo, hi)
  }

  function Run(s: State, ops: seq<Op>): (s': State)
    requires s.page > 0
    ensures s'.page == s.page && s'.guard == s.guard
    decreases ops
  {
    if ops == [] then s else Run(Do(s, ops[0]), ops[1..])
  }

  // ---- the invariant ----

  ghost predicate EntryOk(page: nat, o: Owned)
    requires page > 0
  {
    && o.base > 0 && o.mappedLen > 0 && o.align > 0
    && o.base % page == 0 && o.mappedLen % page == 0 && o.base % o.align == 0
    && o.base + o.mappedLen <= USER_LIMIT
  }

  predicate Apart(page: nat, o: Owned, q: Owned)
    requires page > 0
  {
    Hi(page, o) <= Lo(page, q) || Hi(page, q) <= Lo(page, o)
  }

  /** The reservation at index `i` has page `p`. */
  predicate Covers(s: State, i: int, p: int)
    requires s.page > 0
  {
    0 <= i < |s.owned| && Lo(s.page, s.owned[i]) <= p < Hi(s.page, s.owned[i])
  }

  ghost predicate Listed(s: State, p: int)
    requires s.page > 0
  {
    exists i :: Covers(s, i, p)
  }

  /** The mapped pages are those of the reservations plus the stray ones, all disjoint. */
  ghost predicate Accounted(s: State)
    requires s.page > 0
  {
    && (forall i, j :: 0 <= i < j < |s.owned| ==> Apart(s.page, s.owned[i], s.owned[j]))
    && (forall p :: p in s.stray ==> p in s.mem)
    && (forall p :: p in s.stray ==> !Listed(s, p))
    && (forall i, p :: Covers(s, i, p) ==> p in s.mem)
    && (forall p :: p in s.mem ==> p in s.stray || Listed(s, p))
  }

  ghost predicate Inv(s: State) {
    && s.page > 0 && IsPow2(s.page)
    && (forall o :: o in s.owned ==> EntryOk(s.page, o))
    && Accounted(s)
    && forall a :: a in s.nonzero ==> PageOf(s.page, a) in s.mem
  }
}

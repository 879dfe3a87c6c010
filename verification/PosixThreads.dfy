/**
 The POSIX provider under concurrency: any number of threads reserving, releasing and making
 physical-state calls, interleaved with other code that maps and unmaps its own memory.

 The kernel gives every mapping a name of its own, so that a reused address is told from the
 mapping that had it before. The kernel may hand out any unmapped range at any time. A system
 call on a range is not one step: it runs from `SCheck` to `SReturn`, and other threads take
 steps meanwhile.
 */
module PosixThreads {
  import opened Backend
  import opened Pages
  import Posix
  import opened PosixRuns
  import opened Wrappers

  type Tid = int
  type Id = int      // name of a mapping

  /** Who is answerable for a mapping. */
  datatype Owner = Foreign | Held(t: Tid) | Listed | Gone

  /** A reservation, in page numbers. */
  datatype Entry = Entry(lo: int, hi: int)

  datatype PC =
    | Idle
    | Mapped(id: Id, g: Parts)                            // front and tail slack still mapped
    | FrontTrimmed(id: Id, g: Parts)
    | Ready(id: Id, g: Parts)                             // waiting for the lock to push
    | CallWait(r: Region, offset: nat, len: nat)          // waiting for the lock
    | CallLocked(r: Region, offset: nat, len: nat)        // has the lock, about to check
    | InCall(id: Id, from: int, upto: int)                // has the lock, in madvise/mprotect/mbind
    | ReleaseWait(base: nat)
    | ReleaseLocked(base: nat)
    | Unmapping(id: Id, e: Entry)                         // has the lock, entry removed, munmap pending

  datatype State = State(
    page: nat,
    mem: map<int, Id>,           // mapped pages
    owner: map<Id, Owner>,       // every mapping ever made
    list: map<Id, Entry>,        // the provider's reservations
    lock: Option<Tid>,
    nextId: int,
    unmapped: multiset<Id>,      // reservations passed to munmap
    pcs: map<Tid, PC>)

  predicate Init(s: State) {
    && s.page > 0 && s.list == map[] && s.lock == None && s.unmapped == multiset{}
    && (forall p :: p in s.mem ==> s.mem[p] in s.owner)
    && (forall id :: id in s.owner ==> id < s.nextId && s.owner[id] == Foreign)
    && forall t :: t in s.pcs ==> s.pcs[t] == Idle
  }

  // ---- steps ----

  predicate FreePages(s: State, lo: int, hi: int) { forall p :: lo <= p < hi ==> p !in s.mem }

  function Goto(s: State, t: Tid, pc: PC): State { s.(pcs := s.pcs[t := pc]) }

  function MapPages(s: State, lo: int, hi: int, o: Owner): (s': State)
    ensures s' == s.(mem := s'.mem, owner := s.owner[s.nextId := o], nextId := s.nextId + 1)
  {
    s.(mem := map p | p in s.mem.Keys + Posix.Span(lo, hi) :: if lo <= p < hi then s.nextId else s.mem[p],
       owner := s.owner[s.nextId := o], nextId := s.nextId + 1)
  }

  function UnmapPages(s: State, lo: int, hi: int, ok: bool): (s': State)
    ensures s' == s.(mem := s'.mem)
  {
    if ok then s.(mem := s.mem - Posix.Span(lo, hi)) else s
  }

  function Map(s: State, t: Tid, g: Parts): State {
    Goto(MapPages(s, g.first, g.end, Held(t)), t, Mapped(s.nextId, g))
  }

  function TrimFront(s: State, t: Tid, id: Id, g: Parts, ok: bool): State {
    Goto(UnmapPages(s, g.first, g.lo, ok), t, FrontTrimmed(id, g))
  }

  function TrimTail(s: State, t: Tid, id: Id, g: Parts, ok: bool): State {
    Goto(UnmapPages(s, g.hi, g.end, ok), t, Ready(id, g))
  }

  /** Lock, push, unlock. */
  function Push(s: State, t: Tid, id: Id, g: Parts): State {
    Goto(s.(list := s.list[id := Entry(g.lo, g.hi)], owner := s.owner[id := Listed]), t, Idle)
  }

  function Lock(s: State, t: Tid, pc: PC): State { Goto(s.(lock := Some(t)), t, pc) }
  function Unlock(s: State, t: Tid): State { Goto(s.(lock := None), t, Idle) }

  /** The reservation has this exact base and covers the region's length. */
  predicate Matches(s: State, e: Entry, r: Region) {
    e.lo * s.page == r.base && r.len <= (e.hi - e.lo) * s.page
  }

  /** The check succeeded on `id`: the call starts, on its pages if it is page-aligned. */
  function Check(s: State, t: Tid, id: Id, r: Region, offset: nat, len: nat): State
    requires s.page > 0
  {
    var addr := r.base + offset;
    Goto(s, t, if addr % s.page == 0
               then InCall(id, FirstPage(s.page, addr), EndPage(s.page, addr, len))
               else InCall(id, 0, 0))
  }

  function Remove(s: State, t: Tid, id: Id): State
    requires id in s.list
  {
    Goto(s.(list := s.list - {id}, owner := s.owner[id := Held(t)]), t, Unmapping(id, s.list[id]))
  }

  function Unmap(s: State, t: Tid, id: Id, e: Entry, ok: bool): State {
    Unlock(UnmapPages(s, e.lo, e.hi, ok).(owner := s.owner[id := Gone], unmapped := s.unmapped + multiset{id}), t)
  }

  datatype Step =
    | SMap(g: Parts) | STrimFront(ok: bool) | STrimTail(ok: bool) | SPush
    | SCall(r: Region, offset: nat, len: nat) | SLock | SCheck(id: Id) | SReject | SReturn
    | SRelease(base: nat) | SRemove(id: Id) | SUnmap(ok: bool)
    | SForeignMap(lo: int, hi: int) | SForeignUnmap(lo: int, hi: int)

  datatype Action = Action(t: Tid, step: Step)

  predicate ForeignPages(s: State, lo: int, hi: int) {
    forall p :: lo <= p < hi ==> p in s.mem && s.mem[p] in s.owner && s.owner[s.mem[p]] == Foreign
  }

  predicate NoMatch(s: State, pc: PC) {
    match pc
    case CallLocked(r, _, _) => forall id :: id in s.list ==> !Matches(s, s.list[id], r)
    case ReleaseLocked(base) => forall id :: id in s.list ==> s.list[id].lo * s.page != base
    case _ => false
  }

  predicate Enabled(s: State, a: Action) {
    a.t in s.pcs && s.page > 0 &&
    var pc := s.pcs[a.t];
    match a.step
    case SMap(g) => pc.Idle? && g.first <= g.lo < g.hi <= g.end && FreePages(s, g.first, g.end)
    case STrimFront(_) => pc.Mapped?
    case STrimTail(_) => pc.FrontTrimmed?
    case SPush => pc.Ready? && s.lock == None
    case SCall(r, offset, len) => pc.Idle? && offset + len <= r.len
    case SLock => (pc.CallWait? || pc.ReleaseWait?) && s.lock == None
    case SCheck(id) => pc.CallLocked? && id in s.list && Matches(s, s.list[id], pc.r)
    case SReject => NoMatch(s, pc)
    case SReturn => pc.InCall?
    case SRelease(base) => pc.Idle?
    case SRemove(id) => pc.ReleaseLocked? && id in s.list && s.list[id].lo * s.page == pc.base
    case SUnmap(_) => pc.Unmapping?
    case SForeignMap(lo, hi) => pc.Idle? && FreePages(s, lo, hi)
    case SForeignUnmap(lo, hi) => pc.Idle? && ForeignPages(s, lo, hi)
  }

  function Apply(s: State, a: Action): State
    requires Enabled(s, a)
  {
    var pc := s.pcs[a.t];
    match a.step
    case SMap(g) => Map(s, a.t, g)
    case STrimFront(ok) => TrimFront(s, a.t, pc.id, pc.g, ok)
    case STrimTail(ok) => TrimTail(s, a.t, pc.id, pc.g, ok)
    case SPush => Push(s, a.t, pc.id, pc.g)
    case SCall(r, offset, len) => Goto(s, a.t, CallWait(r, offset, len))
    case SLock => Lock(s, a.t, if pc.CallWait? then CallLocked(pc.r, pc.offset, pc.len) else ReleaseLocked(pc.base))
    case SCheck(id) => Check(s, a.t, id, pc.r, pc.offset, pc.len)
    case SReject => Unlock(s, a.t)
    case SReturn => Unlock(s, a.t)
    case SRelease(base) => Goto(s, a.t, ReleaseWait(base))
    case SRemove(id) => Remove(s, a.t, id)
    case SUnmap(ok) => Unmap(s, a.t, pc.id, pc.e, ok)
    case SForeignMap(lo, hi) => MapPages(s, lo, hi, Foreign)
    case SForeignUnmap(lo, hi) => UnmapPages(s, lo, hi, true)
  }

  ghost predicate Run(s: State, acts: seq<Action>, s': State)
    decreases acts
  {
    if acts == [] then s == s'
    else Enabled(s, acts[0]) && Run(Apply(s, acts[0]), acts[1..], s')
  }

  // ---- the invariant ----

  predicate Critical(pc: PC) { pc.CallLocked? || pc.InCall? || pc.ReleaseLocked? || pc.Unmapping? }

  /** The mapping a thread has in hand, and the pages of it still to be kept. */
  datatype Claim = NoClaim | Claim(id: Id, lo: int, hi: int)

  function ClaimOf(pc: PC): Claim {
    match pc
    case Mapped(id, g) => Claim(id, g.first, g.end)
    case FrontTrimmed(id, g) => Claim(id, g.lo, g.end)
    case Ready(id, g) => Claim(id, g.lo, g.hi)
    case Unmapping(id, e) => Claim(id, e.lo, e.hi)
    case _ => NoClaim
  }

  predicate Ordered(g: Parts) { g.first <= g.lo < g.hi <= g.end }

  /** All pages of `[lo, hi)` belong to mapping `id`. */
  ghost predicate Has(s: State, id: Id, lo: int, hi: int) {
    forall p :: lo <= p < hi ==> p in s.mem && s.mem[p] == id
  }

  ghost predicate ThreadOk(s: State, t: Tid)
    requires t in s.pcs
  {
    var pc := s.pcs[t];
    && (Critical(pc) <==> s.lock == Some(t))
    && (ClaimOf(pc).Claim? ==>
          Has(s, ClaimOf(pc).id, ClaimOf(pc).lo, ClaimOf(pc).hi) &&
          ClaimOf(pc).id in s.owner && s.owner[ClaimOf(pc).id] == Held(t))
    && ((pc.Mapped? || pc.FrontTrimmed? || pc.Ready?) ==> Ordered(pc.g))
    && (pc.Unmapping? ==> pc.e.lo < pc.e.hi)
    && ((pc.CallWait? || pc.CallLocked?) ==> pc.offset + pc.len <= pc.r.len)
    && (pc.InCall? ==> pc.id in s.list && (pc.from < pc.upto ==> s.list[pc.id].lo <= pc.from && pc.upto <= s.list[pc.id].hi))
  }

  ghost predicate ListOk(s: State) {
    forall id :: id in s.list ==>
      s.list[id].lo < s.list[id].hi && Has(s, id, s.list[id].lo, s.list[id].hi) && id in s.owner && s.owner[id] == Listed
  }

  ghost predicate Inv(s: State) {
    && s.page > 0
    && (forall id :: id in s.owner ==> id < s.nextId)
    && (forall p :: p in s.mem ==> s.mem[p] in s.owner)
    && ListOk(s)
    && (forall id :: id in s.unmapped ==> s.unmapped[id] == 1 && id in s.owner && s.owner[id] == Gone)
    && forall t :: t in s.pcs ==> ThreadOk(s, t)
  }

  lemma InitInv(s: State)
    requires Init(s)
    ensures Inv(s)
  {
  }

  // ---- every step keeps the invariant ----

  /** What a step of thread `t` leaves alone: other threads' mappings, and the list unless it has the lock. */
  ghost predicate Frame(s: State, s': State, t: Tid) {
    && s'.page == s.page && t in s'.pcs && s'.pcs == s.pcs[t := s'.pcs[t]]
    && (forall id :: id in s.owner ==> id in s'.owner)
    && (forall id :: id in s.owner && s.owner[id].Held? && s.owner[id].t != t ==> s'.owner[id] == s.owner[id])
    && (forall p :: p in s.mem && s.mem[p] in s.owner && s.owner[s.mem[p]] != Held(t) && s.owner[s.mem[p]] != Foreign ==>
          p in s'.mem && s'.mem[p] == s.mem[p])
    && (s.lock != Some(t) ==> forall id :: id in s.list ==> id in s'.list && s'.list[id] == s.list[id])
    && (s'.lock == s.lock || ((s.lock == None || s.lock == Some(t)) && (s'.lock == None || s'.lock == Some(t))))
  }

  lemma FrameThread(s: State, s': State, t: Tid, u: Tid)
    requires Inv(s) && Frame(s, s', t) && t in s.pcs && u in s.pcs && u != t
    ensures ThreadOk(s', u)
  {
  }

  /** The parts of the invariant that are not about one thread. */
  ghost predicate Shared(s: State) {
    && s.page > 0
    && (forall id :: id in s.owner ==> id < s.nextId)
    && (forall p :: p in s.mem ==> s.mem[p] in s.owner)
    && ListOk(s)
    && (forall id :: id in s.unmapped ==> s.unmapped[id] == 1 && id in s.owner && s.owner[id] == Gone)
  }

  lemma FrameInv(s: State, s': State, t: Tid)
    requires Inv(s) && Frame(s, s', t) && t in s.pcs && Shared(s') && ThreadOk(s', t)
    ensures Inv(s')
  {
    forall u | u in s'.pcs ensures ThreadOk(s', u) {
      if u != t { FrameThread(s, s', t, u); }
    }
  }

  lemma MapPagesEffect(s: State, lo: int, hi: int, o: Owner)
    requires Shared(s) && FreePages(s, lo, hi)
    ensures var s' := MapPages(s, lo, hi, o);
            && Shared(s') && Has(s', s.nextId, lo, hi)
            && forall p :: p in s.mem ==> p in s'.mem && s'.mem[p] == s.mem[p]
  {
  }

  lemma MapInv(s: State, t: Tid, g: Parts)
    requires Inv(s) && Enabled(s, Action(t, SMap(g)))
    ensures Inv(Map(s, t, g))
  {
    assert ThreadOk(s, t) && Shared(s);
    MapPagesEffect(s, g.first, g.end, Held(t));
    hide Inv, MapPages, FreePages;
    FrameInv(s, Map(s, t, g), t);
  }

  lemma TrimFrontInv(s: State, t: Tid, ok: bool)
    requires Inv(s) && Enabled(s, Action(t, STrimFront(ok)))
    ensures Inv(TrimFront(s, t, s.pcs[t].id, s.pcs[t].g, ok))
  {
    assert ThreadOk(s, t) && Shared(s);
    hide Inv;
    FrameInv(s, TrimFront(s, t, s.pcs[t].id, s.pcs[t].g, ok), t);
  }

  lemma TrimTailInv(s: State, t: Tid, ok: bool)
    requires Inv(s) && Enabled(s, Action(t, STrimTail(ok)))
    ensures Inv(TrimTail(s, t, s.pcs[t].id, s.pcs[t].g, ok))
  {
    assert ThreadOk(s, t) && Shared(s);
    hide Inv;
    FrameInv(s, TrimTail(s, t, s.pcs[t].id, s.pcs[t].g, ok), t);
  }

  lemma PushInv(s: State, t: Tid)
    requires Inv(s) && Enabled(s, Action(t, SPush))
    ensures Inv(Push(s, t, s.pcs[t].id, s.pcs[t].g))
  {
    assert ThreadOk(s, t) && Shared(s);
    hide Inv;
    FrameInv(s, Push(s, t, s.pcs[t].id, s.pcs[t].g), t);
  }

  /** The call's pages lie within the reservation that passed the check. */
  lemma CheckedPages(s: State, e: Entry, r: Region, offset: nat, len: nat)
    requires s.page > 0 && 0 <= e.lo < e.hi && Matches(s, e, r) && offset + len <= r.len
    ensures e.lo <= FirstPage(s.page, r.base + offset) && EndPage(s.page, r.base + offset, len) <= e.hi
  {
    var n: nat := e.hi - e.lo;
    MulDiv(e.lo, s.page);
    MulDiv(n, s.page);
    assert e.lo * s.page + n * s.page == e.hi * s.page;
    MulDiv(e.hi, s.page);
    SpanInside(s.page, r.base, n * s.page, r.base + offset, len);
  }

  lemma CheckInv(s: State, t: Tid, id: Id)
    requires Inv(s) && Enabled(s, Action(t, SCheck(id)))
    ensures var pc := s.pcs[t]; Inv(Check(s, t, id, pc.r, pc.offset, pc.len))
  {
    assert ThreadOk(s, t) && Shared(s);
    hide Inv;
    var pc := s.pcs[t];
    BaseIsNatural(s, s.list[id], pc.r);
    CheckedPages(s, s.list[id], pc.r, pc.offset, pc.len);
    hide FirstPage, EndPage;
    FrameInv(s, Check(s, t, id, pc.r, pc.offset, pc.len), t);
  }

  lemma BaseIsNatural(s: State, e: Entry, r: Region)
    requires s.page > 0 && Matches(s, e, r)
    ensures e.lo >= 0
  {
  }

  lemma RemoveInv(s: State, t: Tid, id: Id)
    requires Inv(s) && Enabled(s, Action(t, SRemove(id)))
    ensures Inv(Remove(s, t, id))
  {
    assert ThreadOk(s, t) && Shared(s);
    hide Inv;
    FrameInv(s, Remove(s, t, id), t);
  }

  lemma UnmapShared(s: State, t: Tid, id: Id, e: Entry, ok: bool)
    requires Shared(s) && Has(s, id, e.lo, e.hi) && id in s.owner && s.owner[id].Held?
    ensures Shared(Unmap(s, t, id, e, ok))
  {
  }

  lemma UnmapInv(s: State, t: Tid, ok: bool)
    requires Inv(s) && Enabled(s, Action(t, SUnmap(ok)))
    ensures Inv(Unmap(s, t, s.pcs[t].id, s.pcs[t].e, ok))
  {
    assert ThreadOk(s, t) && Shared(s);
    UnmapShared(s, t, s.pcs[t].id, s.pcs[t].e, ok);
    hide Inv, Enabled, Shared, ListOk;
    FrameInv(s, Unmap(s, t, s.pcs[t].id, s.pcs[t].e, ok), t);
  }

  /** Asking for the lock, taking it and giving it up. */
  lemma WaitInv(s: State, t: Tid, pc: PC)
    requires Inv(s) && t in s.pcs && s.pcs[t].Idle?
    requires pc.ReleaseWait? || (pc.CallWait? && pc.offset + pc.len <= pc.r.len)
    ensures Inv(Goto(s, t, pc))
  {
    assert ThreadOk(s, t) && Shared(s);
    hide Inv;
    FrameInv(s, Goto(s, t, pc), t);
  }

  lemma LockInv(s: State, t: Tid)
    requires Inv(s) && Enabled(s, Action(t, SLock))
    ensures Inv(Apply(s, Action(t, SLock)))
  {
    assert ThreadOk(s, t) && Shared(s);
    hide Inv;
    FrameInv(s, Apply(s, Action(t, SLock)), t);
  }

  lemma UnlockInv(s: State, t: Tid)
    requires Inv(s) && t in s.pcs && Critical(s.pcs[t]) && !s.pcs[t].Unmapping?
    ensures Inv(Unlock(s, t))
  {
    assert ThreadOk(s, t) && Shared(s);
    hide Inv;
    FrameInv(s, Unlock(s, t), t);
  }

  lemma ForeignMapInv(s: State, t: Tid, lo: int, hi: int)
    requires Inv(s) && Enabled(s, Action(t, SForeignMap(lo, hi)))
    ensures Inv(MapPages(s, lo, hi, Foreign))
  {
    assert ThreadOk(s, t) && Shared(s);
    MapPagesEffect(s, lo, hi, Foreign);
    hide Inv, MapPages, FreePages;
    FrameInv(s, MapPages(s, lo, hi, Foreign), t);
  }

  lemma ForeignUnmapInv(s: State, t: Tid, lo: int, hi: int)
    requires Inv(s) && Enabled(s, Action(t, SForeignUnmap(lo, hi)))
    ensures Inv(UnmapPages(s, lo, hi, true))
  {
    assert ThreadOk(s, t) && Shared(s);
    hide Inv;
    FrameInv(s, UnmapPages(s, lo, hi, true), t);
  }

  lemma StepInv(s: State, a: Action)
    requires Inv(s) && Enabled(s, a)
    ensures Inv(Apply(s, a))
  {
    hide Inv;
    match a.step
    case SMap(g) => MapInv(s, a.t, g);
    case STrimFront(ok) => TrimFrontInv(s, a.t, ok);
    case STrimTail(ok) => TrimTailInv(s, a.t, ok);
    case SPush => PushInv(s, a.t);
    case SCheck(id) => CheckInv(s, a.t, id);
    case SRemove(id) => RemoveInv(s, a.t, id);
    case SUnmap(ok) => UnmapInv(s, a.t, ok);
    case SForeignMap(lo, hi) => ForeignMapInv(s, a.t, lo, hi);
    case SForeignUnmap(lo, hi) => ForeignUnmapInv(s, a.t, lo, hi);
    case SCall(r, offset, len) => WaitInv(s, a.t, CallWait(r, offset, len));
    case SRelease(base) => WaitInv(s, a.t, ReleaseWait(base));
    case SLock => LockInv(s, a.t);
    case SReject => UnlockInv(s, a.t);
    case SReturn => UnlockInv(s, a.t);
  }

  lemma {:induction false} RunInv(s: State, acts: seq<Action>, s': State)
    requires Inv(s) && Run(s, acts, s')
    ensures Inv(s')
    decreases acts
  {
    if acts != [] {
      StepInv(s, acts[0]);
      RunInv(Apply(s, acts[0]), acts[1..], s');
    }
  }

  // ---- theorems ----

  /** In every interleaving the reservations are mapped and pairwise disjoint. */
  lemma ReservationsMappedAndDisjoint(s0: State, acts: seq<Action>, s: State, a: Id, b: Id, p: int)
    requires Init(s0) && Run(s0, acts, s) && a in s.list && s.list[a].lo <= p < s.list[a].hi
    ensures p in s.mem && s.mem[p] == a
    ensures b in s.list && b != a ==> !(s.list[b].lo <= p < s.list[b].hi)
  {
    InitInv(s0);
    RunInv(s0, acts, s);
  }

  /**
   From the check to the call's return, whatever other threads and the kernel do: the
   reservation stays listed, and every page of the call's range is that reservation's.
   */
  lemma CallsTouchOnlyOwnedPages(s0: State, acts: seq<Action>, s: State, t: Tid, p: int)
    requires Init(s0) && Run(s0, acts, s) && t in s.pcs && s.pcs[t].InCall?
    ensures var pc := s.pcs[t];
            pc.id in s.list && (pc.from <= p < pc.upto ==> p in s.mem && s.mem[p] == pc.id)
    ensures forall u :: u in s.pcs && u != t ==> !s.pcs[u].InCall? && !s.pcs[u].Unmapping?
  {
    InitInv(s0);
    RunInv(s0, acts, s);
    assert ThreadOk(s, t);
    forall u | u in s.pcs && u != t ensures !s.pcs[u].InCall? && !s.pcs[u].Unmapping? {
      assert ThreadOk(s, u);
    }
  }

  /** A release unmaps pages of the reservation it removed and no other, and never one twice. */
  lemma ReleaseUnmapsOnceAndOnlyItsOwn(s0: State, acts: seq<Action>, s: State, t: Tid, id: Id)
    requires Init(s0) && Run(s0, acts, s) && t in s.pcs
    ensures s.unmapped[id] <= 1
    ensures id in s.list ==> s.unmapped[id] == 0
    ensures s.pcs[t].Unmapping? ==>
              s.unmapped[s.pcs[t].id] == 0 && Has(s, s.pcs[t].id, s.pcs[t].e.lo, s.pcs[t].e.hi)
  {
    InitInv(s0);
    RunInv(s0, acts, s);
    assert ThreadOk(s, t);
  }
}

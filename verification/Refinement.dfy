/**
 One abstract provider that both backing providers refine.

 The abstract provider knows handles, not addresses: a handle is live from the reservation
 that made it to its release, has a size, and some of its bytes are known to read zero. The
 client names regions only by handle, so it passes to a provider exactly what `reserve` gave
 it, live or stale. A provider's answer to every command, and what it does to the handle that
 has the region's base by then, is given by handles alone; where the answer is the abstract
 provider's, so is the effect. Bytes known to read zero do.
 */
module Refinement {
  import opened Backend
  import opened Pages
  import opened Wrappers
  import P = Posix
  import PosixRuns
  import Vecs
  import S = Simulator

  type Handle = int

  /** A byte of a reservation. */
  datatype Byte = Byte(h: Handle, o: int)

  /** `zero`: bytes known to read zero. */
  datatype Abs = Abs(size: map<Handle, nat>, live: set<Handle>, zero: set<Byte>)

  datatype Cmd =
    | Reserve(h: Handle, size: nat, align: nat)
    | Physical(kind: P.Kind, h: Handle, offset: nat, len: nat)
    | Release(h: Handle)
    | Write(h: Handle, offset: nat, isZero: bool)

  predicate Discards(kind: P.Kind) { kind.Decommit? || kind.PurgeForced? }

  /** The client uses a fresh name for each reservation and otherwise handles it was given. */
  predicate WellFormed(a: Abs, c: Cmd) {
    match c
    case Reserve(h, _, _) => h !in a.size
    case Physical(kind, h, _, _) => h in a.size && !kind.Protect?
    case Release(h) => h in a.size
    case Write(h, offset, _) => h in a.live && h in a.size && offset < a.size[h]
  }

  function Answer(a: Abs, c: Cmd): Outcome
    requires WellFormed(a, c)
  {
    var ok := match c
      case Reserve(_, size, align) => size > 0 && IsPow2(align) && S.LayoutOk(size, align)
      case Physical(_, h, offset, len) => h in a.live && offset + len <= a.size[h]
      case Release(h) => h in a.live
      case Write(_, _, _) => true;
    if ok then Ok(()) else Err(InvalidRequest)
  }

  function ByteRange(h: Handle, from: int, upto: int): set<Byte> {
    set o | from <= o < upto && P.Within(o, from, upto) :: Byte(h, o)
  }

  function AbsNext(a: Abs, c: Cmd): Abs
    requires WellFormed(a, c)
  {
    if Answer(a, c).Err? then a
    else match c
      case Reserve(h, size, _) => a.(size := a.size[h := size], live := a.live + {h})
      case Physical(kind, h, offset, len) =>
        if Discards(kind) then a.(zero := a.zero + ByteRange(h, offset, offset + len)) else a
      case Release(h) => a.(live := a.live - {h})
      case Write(h, offset, _) => a.(zero := a.zero - {Byte(h, offset)})
  }

  /** Known-zero bytes lie within their handle. */
  ghost predicate AbsOk(a: Abs) {
    && (forall h :: h in a.live ==> h in a.size)
    && (forall h :: h in a.size ==> a.size[h] > 0)
    && (forall b :: b in a.zero ==> b.h in a.size && 0 <= b.o < a.size[b.h])
  }

  lemma NextOk(a: Abs, c: Cmd)
    requires AbsOk(a) && WellFormed(a, c)
    ensures AbsOk(AbsNext(a, c))
  {
  }

  // ---- the POSIX provider ----

  /** The kernel's answers to one command. */
  datatype PosixAnswer = PosixAnswer(map_: P.MapAnswer, sys: P.SysAnswer, unmapOk: bool)

  /** The region each handle stands for, and which live handle has each base. */
  datatype Names = Names(regs: map<Handle, Region>, at: map<int, Handle>)

  ghost predicate NamesOk(a: Abs, n: Names) {
    && (forall h :: h in a.size <==> h in n.regs)
    && (forall h :: h in a.size ==> n.regs[h].len == a.size[h])
    && (forall h :: h in a.live ==> h in n.regs)
    && (forall h :: h in a.live ==> n.regs[h].base in n.at && n.at[n.regs[h].base] == h)
    && (forall b :: b in n.at ==> n.at[b] in a.live && n.regs[n.at[b]].base == b)
  }

  ghost predicate PosixRel(a: Abs, n: Names, s: P.State) {
    && AbsOk(a) && P.Inv(s) && NamesOk(a, n)
    && EntriesMatch(a, n, s.page, s.owned)
    && ZeroHolds(a, n, s.nonzero)
  }

  /** The entry is the region's own: its length is the region's rounded up to whole pages. */
  predicate Fits(page: nat, o: P.Owned, r: Region) { o.base == r.base && r.len <= o.mappedLen < r.len + page }

  predicate Backed(page: nat, owned: seq<P.Owned>, r: Region) {
    exists i :: 0 <= i < |owned| && Fits(page, owned[i], r)
  }

  /** The reservations are exactly the live handles'. */
  ghost predicate EntriesMatch(a: Abs, n: Names, page: nat, owned: seq<P.Owned>) {
    && (forall h :: h in a.live && h in n.regs ==> Backed(page, owned, n.regs[h]))
    && (forall o :: o in owned ==> o.base in n.at)
  }

  ghost predicate ZeroHolds(a: Abs, n: Names, nonzero: set<int>) {
    forall b :: b in a.zero && b.h in a.live && b.h in n.regs ==> n.regs[b.h].base + b.o !in nonzero
  }

  function PosixOutcome(n: Names, s: P.State, c: Cmd, k: PosixAnswer): Outcome
    requires s.page > 0 && (c.Reserve? || c.h in n.regs)
  {
    match c
    case Reserve(_, size, align) =>
      (match P.AfterReserve(s, size, align, k.map_).1 case Ok(_) => Ok(()) case Err(e) => Err(e))
    case Physical(kind, h, offset, len) => P.AfterPhysical(s, kind, n.regs[h], offset, len, k.sys).1
    case Release(h) => P.AfterRelease(s, n.regs[h], k.unmapOk).1
    case Write(_, _, _) => Ok(())
  }

  function PosixNext(n: Names, s: P.State, c: Cmd, k: PosixAnswer): P.State
    requires s.page > 0 && (c.Reserve? || c.h in n.regs)
  {
    match c
    case Reserve(_, size, align) => P.AfterReserve(s, size, align, k.map_).0
    case Physical(kind, h, offset, len) => P.AfterPhysical(s, kind, n.regs[h], offset, len, k.sys).0
    case Release(h) => P.AfterRelease(s, n.regs[h], k.unmapOk).0
    case Write(h, offset, isZero) => P.AfterWrite(s, n.regs[h].base + offset, isZero)
  }

  /** Who has the region's base now: a provider goes by the base, so it acts on that handle. */
  function Target(n: Names, h: Handle): Handle
    requires h in n.regs
  {
    if n.regs[h].base in n.at then n.at[n.regs[h].base] else h
  }

  /** What a command does when the provider answered `done`, to whichever handle it acted on. */
  function Effect(a: Abs, n: Names, c: Cmd, done: Outcome): Abs
    requires WellFormed(a, c) && (c.Reserve? || c.h in n.regs)
  {
    if done.Err? then a
    else match c
      case Physical(kind, h, offset, len) =>
        var g := Target(n, h);
        if Discards(kind) && g in a.size
        then a.(zero := a.zero + ByteRange(g, offset, Min(offset + len, a.size[g])))
        else a
      case Release(h) => a.(live := a.live - {Target(n, h)})
      case _ => AbsNext(a, c)
  }

  /** The client's names after a command that returned region `r` (for a reservation). */
  function NamesEffect(n: Names, c: Cmd, r: Region, done: Outcome): Names
    requires c.Reserve? || c.h in n.regs
  {
    if done.Err? then n
    else match c
      case Reserve(h, _, _) => Names(n.regs[h := r], n.at[r.base := h])
      case Release(h) => n.(at := n.at - {n.regs[h].base})
      case _ => n
  }

  /** A provider that answers as the abstract one does what the abstract one does. */
  lemma RightAnswerRightEffect(a: Abs, n: Names, c: Cmd)
    requires NamesOk(a, n) && WellFormed(a, c)
    ensures Effect(a, n, c, Answer(a, c)) == AbsNext(a, c)
  {
  }

  function PosixRegion(s: P.State, c: Cmd, k: PosixAnswer): Region
    requires s.page > 0
  {
    if c.Reserve? && P.AfterReserve(s, c.size, c.align, k.map_).1.Ok?
    then P.AfterReserve(s, c.size, c.align, k.map_).1.value
    else Region(0, 0)
  }

  /** The kernel does not fail the calls. */
  predicate PosixCooperates(n: Names, s: P.State, c: Cmd, k: PosixAnswer)
    requires s.page > 0
  {
    match c
    case Reserve(_, size, align) =>
      (match P.PlanReserve(s.page, size, align)
       case Refuse => true
       case MapExact(m) => P.Granted(s, k.map_, m)
       case MapOver(_, over) => P.Granted(s, k.map_, over))
    case Physical(_, _, _, _) => k.sys.madvise && k.sys.mprotect
    case Release(_) => k.unmapOk
    case Write(_, _, _) => true
  }

  /** The reservation now at the region's base, whichever handle has it, covers the region by whole pages. */
  predicate PosixOwns(a: Abs, n: Names, page: nat, h: Handle, offset: nat, len: nat)
    requires page > 0 && h in a.size && h in n.regs
  {
    var base := n.regs[h].base;
    base in n.at && n.at[base] in a.size && offset + len <= a.size[h] <= AlignUp(a.size[n.at[base]], page)
  }

  /** The operation makes a system call whose failure it reports. */
  predicate NeedsAlignment(guard: bool, kind: P.Kind) { !kind.PurgeLazy? && (kind.Commit? ==> guard) }

  /** What POSIX answers to a physical operation, by handles alone. */
  function PhysicalVerdict(a: Abs, n: Names, page: nat, guard: bool, kind: P.Kind, h: Handle, offset: nat, len: nat): Outcome
    requires page > 0 && h in a.size && h in n.regs
  {
    if !PosixOwns(a, n, page, h, offset, len) then Err(InvalidRequest)
    else if len == 0 || !NeedsAlignment(guard, kind) || offset % page == 0 then Ok(())
    else Err(OutOfMemory)
  }

  /** What POSIX answers to a command its kernel does not fail. */
  function PosixVerdict(a: Abs, n: Names, page: nat, guard: bool, c: Cmd): Outcome
    requires page > 0 && WellFormed(a, c) && (c.Reserve? || c.h in n.regs)
  {
    match c
    case Physical(kind, h, offset, len) => PhysicalVerdict(a, n, page, guard, kind, h, offset, len)
    case Release(h) => if n.regs[h].base in n.at then Ok(()) else Err(InvalidRequest)
    case _ => Answer(a, c)
  }

  const MAX_PAGE: nat := 0x4000_0000_0000_0000

  lemma LayoutMeansPlan(page: nat, size: nat, align: nat)
    requires 0 < page <= MAX_PAGE && size > 0 && IsPow2(align)
    ensures S.LayoutOk(size, align) ==> !P.PlanReserve(page, size, align).Refuse?
  {
    if S.LayoutOk(size, align) { AlignUpIsLeast(size, page); }
  }

  /** What the kernel can map in user space has a representable layout. */
  lemma GrantMeansLayout(s: P.State, size: nat, align: nat, k: P.MapAnswer)
    requires P.Inv(s) && P.AfterReserve(s, size, align, k).1.Ok?
    ensures S.LayoutOk(size, align)
  {
    PosixRuns.PlanIsEnough(s.page, size, align);
    var plan := P.PlanReserve(s.page, size, align);
    if plan.MapOver? {
      LargerPow2IsMultiple(align, s.page);
      SumOfMultiples(plan.size, align, s.page);
    }
    var bytes := if plan.MapExact? then plan.size else plan.over;
    assert P.Granted(s, k, bytes);
    hide P.Inv, P.AfterReserve, P.PlanReserve;
    FitsUserSpace(s.page, k.p, bytes);
  }

  lemma FitsUserSpace(page: nat, p: nat, bytes: nat)
    requires page > 0 && 1 <= p && bytes % page == 0 && (p + bytes / page) * page <= P.USER_LIMIT
    ensures bytes + page <= P.USER_LIMIT
  {
    Whole(bytes, page);
    var q := bytes / page;
    MulMonotone(1 + q, p + q, page);
    assert (1 + q) * page == page + q * page;
  }

  /** The live handle's entry is the only one at its base. */
  lemma LiveEntry(a: Abs, n: Names, s: P.State, h: Handle) returns (i: nat)
    requires PosixRel(a, n, s) && h in a.live
    ensures i < |s.owned| && Fits(s.page, s.owned[i], n.regs[h]) && P.Position(s.owned, n.regs[h].base) == Some(i)
  {
    assert Backed(s.page, s.owned, n.regs[h]);
    var j :| 0 <= j < |s.owned| && Fits(s.page, s.owned[j], n.regs[h]);
    var at := P.Position(s.owned, n.regs[h].base);
    assert s.owned[j] in s.owned;
    i := at.value;
    if i != j { OneEntryPerBase(s, i, j); }
  }

  lemma OneEntryPerBase(s: P.State, i: nat, j: nat)
    requires P.Inv(s) && i < |s.owned| && j < |s.owned| && s.owned[i].base == s.owned[j].base
    ensures i == j
  {
    if i < j { SameBaseNotApart(s, i, j); }
    if j < i { SameBaseNotApart(s, j, i); }
  }

  lemma SameBaseNotApart(s: P.State, i: nat, j: nat)
    requires P.Inv(s) && i < j < |s.owned|
    ensures s.owned[i].base != s.owned[j].base
  {
    assert P.Apart(s.page, s.owned[i], s.owned[j]);
    PosixRuns.EntryHasPages(s, s.owned[i]);
    PosixRuns.EntryHasPages(s, s.owned[j]);
  }

  lemma RoundedUp(page: nat, size: nat, mapped: nat)
    requires page > 0 && size <= mapped < size + page && mapped % page == 0
    ensures mapped == AlignUp(size, page)
  {
    AlignUpIsLeast(size, page);
    var up := AlignUp(size, page);
    Whole(mapped, page);
    Whole(up, page);
    OneQuotient(mapped, page, mapped / page, up / page);
  }

  /** Ownership, live handle or stale, by handles alone. */
  lemma OwnedExactly(a: Abs, n: Names, s: P.State, h: Handle, offset: nat, len: nat)
    requires PosixRel(a, n, s) && h in a.size
    ensures P.OwnedSubrange(s, n.regs[h], offset, len).Some? <==> PosixOwns(a, n, s.page, h, offset, len)
    ensures P.OwnedSubrange(s, n.regs[h], offset, len).Some? ==> n.regs[h].base % s.page == 0
  {
    var r := n.regs[h];
    if r.base in n.at {
      var g := n.at[r.base];
      var i := LiveEntry(a, n, s, g);
      assert P.EntryOk(s.page, s.owned[i]);
      RoundedUp(s.page, a.size[g], s.owned[i].mappedLen);
      assert P.Matches(s.owned[i], r) <==> a.size[h] <= AlignUp(a.size[g], s.page);
      forall j | 0 <= j < |s.owned| && P.Matches(s.owned[j], r) ensures j == i { OneEntryPerBase(s, i, j); }
      hide AlignUp, P.Inv;
    } else {
      assert forall j :: 0 <= j < |s.owned| ==> s.owned[j] in s.owned;
      hide AlignUp, P.Inv;
    }
  }

  lemma PhysicalAnswersExactly(
    a: Abs, n: Names, s: P.State, kind: P.Kind, h: Handle, offset: nat, len: nat, k: P.SysAnswer)
    requires PosixRel(a, n, s) && h in a.size && k.madvise && k.mprotect
    ensures P.AfterPhysical(s, kind, n.regs[h], offset, len, k).1 ==
            PhysicalVerdict(a, n, s.page, s.guard, kind, h, offset, len)
  {
    OwnedExactly(a, n, s, h, offset, len);
    if n.regs[h].base % s.page == 0 { AddMultiple(n.regs[h].base, offset, s.page); }
    hide PosixRel, PosixOwns, P.OwnedSubrange;
    OwnedAddress(s, n.regs[h], offset, len);
  }

  lemma OwnedAddress(s: P.State, r: Region, offset: nat, len: nat)
    ensures P.OwnedSubrange(s, r, offset, len).Some? ==> P.OwnedSubrange(s, r, offset, len).value == r.base + offset
  {
  }

  lemma PosixReserveStep(a: Abs, n: Names, s: P.State, c: Cmd, k: PosixAnswer)
    requires PosixRel(a, n, s) && WellFormed(a, c) && c.Reserve? && s.page <= MAX_PAGE
    requires PosixCooperates(n, s, c, k)
    ensures PosixOutcome(n, s, c, k) == Answer(a, c)
    ensures PosixRel(AbsNext(a, c), NamesEffect(n, c, PosixRegion(s, c, k), Answer(a, c)), PosixNext(n, s, c, k))
  {
    NextOk(a, c);
    if c.size > 0 && IsPow2(c.align) { LayoutMeansPlan(s.page, c.size, c.align); }
    if PosixOutcome(n, s, c, k).Ok? {
      GrantMeansLayout(s, c.size, c.align, k.map_);
      PosixRuns.PlanIsEnough(s.page, c.size, c.align);
      PosixReserved(a, n, s, c, k);
    }
  }

  /** A fresh handle at a base no live handle has. */
  lemma NamesReserve(a: Abs, n: Names, c: Cmd, r: Region)
    requires AbsOk(a) && NamesOk(a, n) && WellFormed(a, c) && c.Reserve? && Answer(a, c).Ok?
    requires r.len == c.size && r.base !in n.at
    ensures NamesOk(AbsNext(a, c), NamesEffect(n, c, r, Answer(a, c)))
  {
    hide IsPow2;
  }

  /** Bytes that may become nonzero are those of the new handle. */
  lemma ZeroReserve(a: Abs, n: Names, c: Cmd, r: Region, before: set<int>, after: set<int>)
    requires AbsOk(a) && NamesOk(a, n) && WellFormed(a, c) && c.Reserve? && Answer(a, c).Ok?
    requires ZeroHolds(a, n, before)
    requires forall b :: b in a.zero && b.h in a.live && b.h in n.regs ==>
               n.regs[b.h].base + b.o in after ==> n.regs[b.h].base + b.o in before
    ensures ZeroHolds(AbsNext(a, c), NamesEffect(n, c, r, Answer(a, c)), after)
  {
  }

  lemma BackedAppend(page: nat, owned: seq<P.Owned>, o: P.Owned, r: Region)
    requires Backed(page, owned, r) || Fits(page, o, r)
    ensures Backed(page, owned + [o], r)
  {
    if Backed(page, owned, r) {
      var i :| 0 <= i < |owned| && Fits(page, owned[i], r);
      assert Fits(page, (owned + [o])[i], r);
    } else {
      assert Fits(page, (owned + [o])[|owned|], r);
    }
  }

  lemma FreshBase(a: Abs, n: Names, s: P.State, s': P.State, o: P.Owned)
    requires PosixRel(a, n, s) && P.Inv(s') && s'.owned == s.owned + [o]
    ensures o.base !in n.at
  {
    if o.base in n.at {
      var i := LiveEntry(a, n, s, n.at[o.base]);
      SameBaseNotApart(s', i, |s.owned|);
    }
  }

  lemma PosixReserved(a: Abs, n: Names, s: P.State, c: Cmd, k: PosixAnswer)
    requires PosixRel(a, n, s) && WellFormed(a, c) && c.Reserve? && Answer(a, c).Ok?
    requires P.AfterReserve(s, c.size, c.align, k.map_).1.Ok?
    ensures PosixRel(AbsNext(a, c), NamesEffect(n, c, PosixRegion(s, c, k), Answer(a, c)), PosixNext(n, s, c, k))
  {
    NextOk(a, c);
    var g, o := PosixRuns.ReserveEffect(s, c.size, c.align, k.map_);
    var s', r := PosixNext(n, s, c, k), PosixRegion(s, c, k);
    PosixRuns.AddEntry(s, s', g, k.map_, o, c.size, c.align);
    FreshBase(a, n, s, s', o);
    NamesReserve(a, n, c, r);
    ZeroReserve(a, n, c, r, s.nonzero, s'.nonzero);
    hide P.Inv, P.AfterReserve, IsPow2, NamesOk, AbsOk;
    var n' := NamesEffect(n, c, r, Answer(a, c));
    forall h | h in AbsNext(a, c).live && h in n'.regs ensures Backed(s.page, s'.owned, n'.regs[h]) {
      BackedAppend(s.page, s.owned, o, n'.regs[h]);
    }
  }

  /** The bytes of an aligned subrange lie on the pages a call on it reaches. */
  lemma ByteOnSpan(page: nat, addr: nat, len: nat, x: nat)
    requires page > 0 && addr <= x < addr + len
    ensures FirstPage(page, addr) <= PageOf(page, x) < EndPage(page, addr, len)
  {
    DivMonotone(addr, x, page);
    DivMonotone(x + page, addr + len + page - 1, page);
    var d := Quotient(x, page);
    assert (d + 1) * page <= x + page < (d + 2) * page;
    DivUnique(x + page, page, d + 1);
  }

  /** An accepted physical call zeroes what it discards and makes nothing nonzero. */
  lemma PosixPhysicalZero(s: P.State, kind: P.Kind, r: Region, offset: nat, len: nat, k: P.SysAnswer)
    requires P.Inv(s) && P.AfterPhysical(s, kind, r, offset, len, k).1.Ok?
    ensures var s' := P.AfterPhysical(s, kind, r, offset, len, k).0;
            && s'.owned == s.owned && s'.page == s.page
            && (forall x :: x in s'.nonzero ==> x in s.nonzero)
            && (Discards(kind) ==> forall x :: r.base + offset <= x < r.base + offset + len ==> x !in s'.nonzero)
  {
    var s' := P.AfterPhysical(s, kind, r, offset, len, k).0;
    hide P.Inv, FirstPage, EndPage, PageOf;
    forall x | r.base + offset <= x < r.base + offset + len && Discards(kind) ensures x !in s'.nonzero {
      ByteOnSpan(s.page, r.base + offset, len, x);
    }
  }

  lemma PosixPhysicalStep(a: Abs, n: Names, s: P.State, c: Cmd, k: PosixAnswer)
    requires PosixRel(a, n, s) && WellFormed(a, c) && c.Physical? && PosixCooperates(n, s, c, k)
    ensures PosixOutcome(n, s, c, k) == PosixVerdict(a, n, s.page, s.guard, c)
    ensures PosixRel(Effect(a, n, c, PosixOutcome(n, s, c, k)), n, PosixNext(n, s, c, k))
  {
    PhysicalAnswersExactly(a, n, s, c.kind, c.h, c.offset, c.len, k.sys);
    PosixRuns.PhysicalKeepsInv(s, c.kind, n.regs[c.h], c.offset, c.len, k.sys);
    if PosixOutcome(n, s, c, k).Ok? {
      PosixPhysicalZero(s, c.kind, n.regs[c.h], c.offset, c.len, k.sys);
    } else {
      FailedCallKeeps(s, c.kind, n.regs[c.h], c.offset, c.len, k.sys);
    }
    hide P.Inv, P.AfterPhysical, AlignUp;
  }

  lemma FailedCallKeeps(s: P.State, kind: P.Kind, r: Region, offset: nat, len: nat, k: P.SysAnswer)
    requires s.page > 0 && k.mprotect && P.AfterPhysical(s, kind, r, offset, len, k).1.Err?
    ensures P.AfterPhysical(s, kind, r, offset, len, k).0 == s
  {
  }

  lemma NamesRelease(a: Abs, n: Names, c: Cmd)
    requires AbsOk(a) && NamesOk(a, n) && WellFormed(a, c) && c.Release?
    ensures NamesOk(AbsNext(a, c), NamesEffect(n, c, Region(0, 0), Answer(a, c)))
  {
  }

  lemma BackedSwapRemove(page: nat, owned: seq<P.Owned>, i: nat, r: Region)
    requires i < |owned| && Backed(page, owned, r) && owned[i].base != r.base
    ensures Backed(page, Vecs.SwapRemove(owned, i), r)
  {
    var j :| 0 <= j < |owned| && Fits(page, owned[j], r);
    assert Fits(page, Vecs.SwapRemove(owned, i)[if j == |owned| - 1 then i else j], r);
  }

  lemma PosixReleaseStep(a: Abs, n: Names, s: P.State, c: Cmd, k: PosixAnswer)
    requires PosixRel(a, n, s) && WellFormed(a, c) && c.Release? && PosixCooperates(n, s, c, k)
    ensures PosixOutcome(n, s, c, k) == PosixVerdict(a, n, s.page, s.guard, c)
    ensures var done := PosixOutcome(n, s, c, k);
            PosixRel(Effect(a, n, c, done), NamesEffect(n, c, Region(0, 0), done), PosixNext(n, s, c, k))
  {
    var base := n.regs[c.h].base;
    if base in n.at {
      PosixReleaseLive(a, n, s, Release(n.at[base]), k);
    } else {
      assert forall o :: o in s.owned ==> o.base in n.at;
      assert P.Position(s.owned, base) == None;
    }
    hide P.Inv, EntriesMatch, ZeroHolds, P.Position;
  }

  lemma PosixReleaseLive(a: Abs, n: Names, s: P.State, c: Cmd, k: PosixAnswer)
    requires PosixRel(a, n, s) && WellFormed(a, c) && c.Release? && c.h in a.live && k.unmapOk
    ensures PosixOutcome(n, s, c, k) == Ok(())
    ensures PosixRel(AbsNext(a, c), NamesEffect(n, c, Region(0, 0), Answer(a, c)), PosixNext(n, s, c, k))
  {
    NextOk(a, c);
    NamesRelease(a, n, c);
    PosixRuns.DoKeepsInv(s, P.OpRelease(n.regs[c.h], k.unmapOk));
    PosixReleased(a, n, s, c, k);
    hide P.Inv, P.AfterRelease, EntriesMatch, ZeroHolds;
    ZeroForgets(a, n, c, PosixNext(n, s, c, k).nonzero);
  }

  lemma ZeroForgets(a: Abs, n: Names, c: Cmd, nonzero: set<int>)
    requires WellFormed(a, c) && c.Release? && c.h in n.regs && ZeroHolds(AbsNext(a, c), n, nonzero)
    ensures ZeroHolds(AbsNext(a, c), NamesEffect(n, c, Region(0, 0), Answer(a, c)), nonzero)
  {
  }

  lemma PosixReleased(a: Abs, n: Names, s: P.State, c: Cmd, k: PosixAnswer)
    requires PosixRel(a, n, s) && c.Release? && c.h in a.live && WellFormed(a, c) && k.unmapOk
    ensures PosixOutcome(n, s, c, k) == Ok(())
    ensures EntriesMatch(AbsNext(a, c), NamesEffect(n, c, Region(0, 0), Answer(a, c)), s.page, PosixNext(n, s, c, k).owned)
    ensures ZeroHolds(AbsNext(a, c), n, PosixNext(n, s, c, k).nonzero)
  {
    var i := LiveEntry(a, n, s, c.h);
    var s' := PosixNext(n, s, c, k);
    assert s'.owned == Vecs.SwapRemove(s.owned, i);
    forall h | h in a.live && h != c.h ensures Backed(s.page, s'.owned, n.regs[h]) {
      assert Backed(s.page, s.owned, n.regs[h]);
      BackedSwapRemove(s.page, s.owned, i, n.regs[h]);
    }
    forall o | o in s'.owned ensures o.base in n.at && o.base != n.regs[c.h].base {
      OthersElsewhere(s, i, o);
    }
  }

  lemma OthersElsewhere(s: P.State, i: nat, o: P.Owned)
    requires P.Inv(s) && i < |s.owned| && o in Vecs.SwapRemove(s.owned, i)
    ensures o in s.owned && o.base != s.owned[i].base
  {
    var j :| 0 <= j < |s.owned| - 1 && Vecs.SwapRemove(s.owned, i)[j] == o;
    var m := if j == i then |s.owned| - 1 else j;
    assert s.owned[m] == o;
    if i < m { SameBaseNotApart(s, i, m); } else { SameBaseNotApart(s, m, i); }
  }

  /** Distinct bytes of live handles have distinct addresses. */
  lemma BytesApart(a: Abs, n: Names, s: P.State, b: Byte, d: Byte)
    requires PosixRel(a, n, s) && b.h in a.live && d.h in a.live
    requires 0 <= b.o < a.size[b.h] && 0 <= d.o < a.size[d.h] && b != d
    ensures n.regs[b.h].base + b.o != n.regs[d.h].base + d.o
  {
    if b.h != d.h {
      var i := LiveEntry(a, n, s, b.h);
      var j := LiveEntry(a, n, s, d.h);
      assert n.at[n.regs[b.h].base] == b.h && n.at[n.regs[d.h].base] == d.h;
      EntriesApart(s, i, j, n.regs[b.h].base + b.o, n.regs[d.h].base + d.o);
    }
  }

  lemma EntriesApart(s: P.State, i: nat, j: nat, x: int, y: int)
    requires P.Inv(s) && i < |s.owned| && j < |s.owned| && i != j
    requires s.owned[i].base <= x < s.owned[i].base + s.owned[i].mappedLen
    requires s.owned[j].base <= y < s.owned[j].base + s.owned[j].mappedLen
    ensures x != y
  {
    var o, q := s.owned[i], s.owned[j];
    assert P.Apart(s.page, s.owned[if i < j then i else j], s.owned[if i < j then j else i]);
    ByteOnSpan(s.page, o.base, o.mappedLen, x);
    ByteOnSpan(s.page, q.base, q.mappedLen, y);
  }

  lemma PosixWriteStep(a: Abs, n: Names, s: P.State, c: Cmd, k: PosixAnswer)
    requires PosixRel(a, n, s) && WellFormed(a, c) && c.Write?
    ensures PosixRel(AbsNext(a, c), n, PosixNext(n, s, c, k))
  {
    NextOk(a, c);
    PosixRuns.DoKeepsInv(s, P.Write(n.regs[c.h].base + c.offset, c.isZero));
    StoreKeepsZero(a, n, s, c, PosixNext(n, s, c, k).nonzero);
    hide P.Inv, ZeroHolds, Fits;
  }

  lemma StoreKeepsZero(a: Abs, n: Names, s: P.State, c: Cmd, after: set<int>)
    requires PosixRel(a, n, s) && WellFormed(a, c) && c.Write?
    requires forall x :: x in after ==> x in s.nonzero || x == n.regs[c.h].base + c.offset
    ensures ZeroHolds(AbsNext(a, c), n, after)
  {
    forall b | b in AbsNext(a, c).zero && b.h in a.live && b.h in n.regs ensures n.regs[b.h].base + b.o !in after {
      assert b in a.zero && b != Byte(c.h, c.offset);
      BytesApart(a, n, s, b, Byte(c.h, c.offset));
    }
  }

  /**
   One command whose system calls are not failed: POSIX answers as the verdict says, and does
   what that answer means to whichever handle has the base.
   */
  lemma PosixStep(a: Abs, n: Names, s: P.State, c: Cmd, k: PosixAnswer)
    requires PosixRel(a, n, s) && WellFormed(a, c) && s.page <= MAX_PAGE && PosixCooperates(n, s, c, k)
    ensures PosixOutcome(n, s, c, k) == PosixVerdict(a, n, s.page, s.guard, c)
    ensures var done := PosixOutcome(n, s, c, k);
            PosixRel(Effect(a, n, c, done), NamesEffect(n, c, PosixRegion(s, c, k), done), PosixNext(n, s, c, k))
    ensures PosixNext(n, s, c, k).page == s.page
  {
    hide PosixRel;
    match c
    case Reserve(_, _, _) => PosixReserveStep(a, n, s, c, k);
    case Physical(_, _, _, _) => PosixPhysicalStep(a, n, s, c, k);
    case Release(_) => PosixReleaseStep(a, n, s, c, k);
    case Write(_, _, _) => PosixWriteStep(a, n, s, c, k);
  }
}

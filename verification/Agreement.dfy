/**
 The simulator refines the same abstract provider; and exactly when the two providers answer
 a command alike, whatever handle it names: stale regions whose base was handed out again and
 unaligned offsets included, and the operations the simulator leaves at their
 accept-everything default.
 */
module Agreement {
  import opened Backend
  import opened Pages
  import opened Refinement
  import opened Wrappers
  import P = Posix
  import S = Simulator
  import Vecs

  // ---- the simulator ----

  predicate FrameFor(frames: seq<S.Frame>, r: Region) {
    exists i :: 0 <= i < |frames| && frames[i].base == r.base && frames[i].charged == r.len
  }

  ghost predicate FramesMatch(a: Abs, n: Names, frames: seq<S.Frame>) {
    && (forall h :: h in a.live && h in n.regs ==> FrameFor(frames, n.regs[h]))
    && (forall f :: f in frames ==> f.base in n.at)
  }

  ghost predicate SimRel(a: Abs, n: Names, s: S.SimState) {
    AbsOk(a) && S.Inv(s) && NamesOk(a, n) && FramesMatch(a, n, s.frames) && ZeroHolds(a, n, s.nonzero)
  }

  function SimOutcome(n: Names, s: S.SimState, c: Cmd, host: S.HostAlloc): Outcome
    requires c.Reserve? || c.h in n.regs
  {
    match c
    case Reserve(_, size, align) =>
      (match S.AfterReserve(s, size, align, host).1 case Ok(_) => Ok(()) case Err(e) => Err(e))
    case Physical(kind, h, offset, len) =>
      if Discards(kind) then S.AfterDiscard(s, n.regs[h], offset, len).1 else S.Validate(s, n.regs[h], offset, len)
    case Release(h) => S.AfterRelease(s, n.regs[h]).1
    case Write(_, _, _) => Ok(())
  }

  function SimNext(n: Names, s: S.SimState, c: Cmd, host: S.HostAlloc): S.SimState
    requires c.Reserve? || c.h in n.regs
  {
    match c
    case Reserve(_, size, align) => S.AfterReserve(s, size, align, host).0
    case Physical(kind, h, offset, len) => if Discards(kind) then S.AfterDiscard(s, n.regs[h], offset, len).0 else s
    case Release(h) => S.AfterRelease(s, n.regs[h]).0
    case Write(h, offset, isZero) =>
      var x := n.regs[h].base + offset;
      s.(nonzero := if isZero then s.nonzero - {x} else s.nonzero + {x})
  }

  function SimRegion(s: S.SimState, c: Cmd, host: S.HostAlloc): Region {
    if c.Reserve? && S.AfterReserve(s, c.size, c.align, host).1.Ok?
    then S.AfterReserve(s, c.size, c.align, host).1.value
    else Region(0, 0)
  }

  /** The pool is not exhausted and the host allocator has room. */
  predicate SimCooperates(s: S.SimState, c: Cmd, host: S.HostAlloc) {
    c.Reserve? && c.size > 0 && IsPow2(c.align) && S.LayoutOk(c.size, c.align) ==>
      c.align > 0 && c.size <= s.pool && S.HostGives(s, host, c.size, c.align)
  }

  /** The frame now at the region's base, whichever handle has it, has the region's length. */
  predicate SimOwns(a: Abs, n: Names, h: Handle, offset: nat, len: nat)
    requires h in a.size && h in n.regs
  {
    var base := n.regs[h].base;
    base in n.at && n.at[base] in a.size && offset + len <= a.size[h] == a.size[n.at[base]]
  }

  /** What the simulator answers to a command, by handles alone. */
  function SimVerdict(a: Abs, n: Names, c: Cmd): Outcome
    requires WellFormed(a, c) && (c.Reserve? || c.h in n.regs)
  {
    match c
    case Physical(_, h, offset, len) => if SimOwns(a, n, h, offset, len) then Ok(()) else Err(InvalidRequest)
    case Release(h) => if n.regs[h].base in n.at then Ok(()) else Err(InvalidRequest)
    case _ => Answer(a, c)
  }

  lemma LiveFrame(a: Abs, n: Names, s: S.SimState, h: Handle) returns (i: nat)
    requires SimRel(a, n, s) && h in a.live
    ensures i < |s.frames| && s.frames[i].base == n.regs[h].base && s.frames[i].charged == n.regs[h].len
    ensures S.Position(s.frames, n.regs[h].base) == Some(i)
  {
    assert FrameFor(s.frames, n.regs[h]);
    var j :| 0 <= j < |s.frames| && s.frames[j].base == n.regs[h].base && s.frames[j].charged == n.regs[h].len;
    assert s.frames[j] in s.frames;
    i := S.Position(s.frames, n.regs[h].base).value;
    OneFramePerBase(s, i, j);
  }

  lemma OneFramePerBase(s: S.SimState, i: nat, j: nat)
    requires S.Inv(s) && i < |s.frames| && j < |s.frames| && s.frames[i].base == s.frames[j].base
    ensures i == j
  {
  }

  lemma FrameForAppend(frames: seq<S.Frame>, f: S.Frame, r: Region)
    requires FrameFor(frames, r) || (f.base == r.base && f.charged == r.len)
    ensures FrameFor(frames + [f], r)
  {
    if FrameFor(frames, r) {
      var i :| 0 <= i < |frames| && frames[i].base == r.base && frames[i].charged == r.len;
      assert (frames + [f])[i] == frames[i];
    } else {
      assert (frames + [f])[|frames|] == f;
    }
  }

  /** A range the host allocator gives out keeps clear of every live handle. */
  lemma HostIsFresh(a: Abs, n: Names, s: S.SimState, h: Handle, host: S.HostAlloc, size: nat, align: nat)
    requires SimRel(a, n, s) && h in a.live && align > 0 && size > 0 && S.HostGives(s, host, size, align)
    ensures var r := n.regs[h]; r.base + r.len <= host.base || host.base + size <= r.base
    ensures n.regs[h].base != host.base
  {
    var i := LiveFrame(a, n, s, h);
    assert s.frames[i] in s.frames;
  }

  lemma SimReserved(a: Abs, n: Names, s: S.SimState, c: Cmd, host: S.HostAlloc)
    requires SimRel(a, n, s) && WellFormed(a, c) && c.Reserve? && Answer(a, c).Ok?
    requires S.AfterReserve(s, c.size, c.align, host).1.Ok?
    ensures SimRel(AbsNext(a, c), NamesEffect(n, c, SimRegion(s, c, host), Answer(a, c)), SimNext(n, s, c, host))
  {
    NextOk(a, c);
    S.ReserveKeepsInv(s, c.size, c.align, host);
    var s', r := SimNext(n, s, c, host), SimRegion(s, c, host);
    forall h | h in a.live
      ensures n.regs[h].base + a.size[h] <= r.base || r.base + r.len <= n.regs[h].base
      ensures n.regs[h].base != r.base
    {
      HostIsFresh(a, n, s, h, host, c.size, c.align);
    }
    NamesReserve(a, n, c, r);
    hide S.Inv, IsPow2;
    ZeroReserve(a, n, c, r, s.nonzero, s'.nonzero);
    hide NamesOk, AbsOk, ZeroHolds;
    var n' := NamesEffect(n, c, r, Answer(a, c));
    forall h | h in AbsNext(a, c).live && h in n'.regs ensures FrameFor(s'.frames, n'.regs[h]) {
      FrameForAppend(s.frames, s'.frames[|s.frames|], n'.regs[h]);
    }
  }

  lemma SimReserveStep(a: Abs, n: Names, s: S.SimState, c: Cmd, host: S.HostAlloc)
    requires SimRel(a, n, s) && WellFormed(a, c) && c.Reserve? && SimCooperates(s, c, host)
    ensures SimOutcome(n, s, c, host) == Answer(a, c)
    ensures SimRel(AbsNext(a, c), NamesEffect(n, c, SimRegion(s, c, host), Answer(a, c)), SimNext(n, s, c, host))
  {
    if SimOutcome(n, s, c, host).Ok? { SimReserved(a, n, s, c, host); }
  }

  /** Ownership, live handle or stale, by handles alone. */
  lemma SimOwnsExactly(a: Abs, n: Names, s: S.SimState, h: Handle, offset: nat, len: nat)
    requires SimRel(a, n, s) && h in a.size
    ensures S.OwnsSubrange(s, n.regs[h], offset, len) <==> SimOwns(a, n, h, offset, len)
  {
    var r := n.regs[h];
    if r.base in n.at {
      var i := LiveFrame(a, n, s, n.at[r.base]);
      forall j | 0 <= j < |s.frames| && s.frames[j].base == r.base ensures j == i { OneFramePerBase(s, i, j); }
    } else {
      assert forall j :: 0 <= j < |s.frames| ==> s.frames[j] in s.frames;
    }
  }

  lemma SimPhysicalStep(a: Abs, n: Names, s: S.SimState, c: Cmd, host: S.HostAlloc)
    requires SimRel(a, n, s) && WellFormed(a, c) && c.Physical?
    ensures SimOutcome(n, s, c, host) == SimVerdict(a, n, c)
    ensures SimRel(Effect(a, n, c, SimOutcome(n, s, c, host)), n, SimNext(n, s, c, host))
  {
    SimOwnsExactly(a, n, s, c.h, c.offset, c.len);
    hide S.OwnsSubrange, S.Inv;
    assert S.Inv(SimNext(n, s, c, host)) by { DiscardKeepsInv(n, s, c, host); }
  }

  lemma DiscardKeepsInv(n: Names, s: S.SimState, c: Cmd, host: S.HostAlloc)
    requires S.Inv(s) && c.Physical? && c.h in n.regs
    ensures S.Inv(SimNext(n, s, c, host))
  {
  }

  lemma FrameForSwapRemove(frames: seq<S.Frame>, i: nat, r: Region)
    requires i < |frames| && FrameFor(frames, r) && frames[i].base != r.base
    ensures FrameFor(Vecs.SwapRemove(frames, i), r)
  {
    var j :| 0 <= j < |frames| && frames[j].base == r.base && frames[j].charged == r.len;
    assert Vecs.SwapRemove(frames, i)[if j == |frames| - 1 then i else j] == frames[j];
  }

  lemma OtherFramesElsewhere(s: S.SimState, i: nat, f: S.Frame)
    requires S.Inv(s) && i < |s.frames| && f in Vecs.SwapRemove(s.frames, i)
    ensures f in s.frames && f.base != s.frames[i].base
  {
  }

  lemma SimReleased(a: Abs, n: Names, s: S.SimState, c: Cmd, host: S.HostAlloc)
    requires SimRel(a, n, s) && c.Release? && c.h in a.live && WellFormed(a, c)
    ensures SimOutcome(n, s, c, host) == Ok(())
    ensures FramesMatch(AbsNext(a, c), NamesEffect(n, c, Region(0, 0), Answer(a, c)), SimNext(n, s, c, host).frames)
    ensures ZeroHolds(AbsNext(a, c), n, SimNext(n, s, c, host).nonzero)
  {
    var i := LiveFrame(a, n, s, c.h);
    var s' := SimNext(n, s, c, host);
    assert s'.frames == Vecs.SwapRemove(s.frames, i);
    forall h | h in a.live && h != c.h ensures FrameFor(s'.frames, n.regs[h]) {
      assert FrameFor(s.frames, n.regs[h]);
      FrameForSwapRemove(s.frames, i, n.regs[h]);
    }
    forall f | f in s'.frames ensures f.base in n.at && f.base != n.regs[c.h].base {
      OtherFramesElsewhere(s, i, f);
    }
  }

  lemma SimReleaseStep(a: Abs, n: Names, s: S.SimState, c: Cmd, host: S.HostAlloc)
    requires SimRel(a, n, s) && WellFormed(a, c) && c.Release?
    ensures SimOutcome(n, s, c, host) == SimVerdict(a, n, c)
    ensures var done := SimOutcome(n, s, c, host);
            SimRel(Effect(a, n, c, done), NamesEffect(n, c, Region(0, 0), done), SimNext(n, s, c, host))
  {
    var base := n.regs[c.h].base;
    if base in n.at {
      SimReleaseLive(a, n, s, Release(n.at[base]), host);
    } else {
      assert forall f :: f in s.frames ==> f.base in n.at;
      assert S.Position(s.frames, base) == None;
    }
    hide S.Inv, FramesMatch, ZeroHolds, S.Position;
  }

  lemma SimReleaseLive(a: Abs, n: Names, s: S.SimState, c: Cmd, host: S.HostAlloc)
    requires SimRel(a, n, s) && WellFormed(a, c) && c.Release? && c.h in a.live
    ensures SimOutcome(n, s, c, host) == Ok(())
    ensures SimRel(AbsNext(a, c), NamesEffect(n, c, Region(0, 0), Answer(a, c)), SimNext(n, s, c, host))
  {
    NextOk(a, c);
    NamesRelease(a, n, c);
    S.ReleaseKeepsInv(s, n.regs[c.h]);
    SimReleased(a, n, s, c, host);
    hide S.Inv, S.AfterRelease, FramesMatch, ZeroHolds;
    ZeroForgets(a, n, c, SimNext(n, s, c, host).nonzero);
  }

  lemma SimWriteStep(a: Abs, n: Names, s: S.SimState, c: Cmd, host: S.HostAlloc)
    requires SimRel(a, n, s) && WellFormed(a, c) && c.Write?
    ensures SimRel(AbsNext(a, c), n, SimNext(n, s, c, host))
  {
    NextOk(a, c);
    var s' := SimNext(n, s, c, host);
    forall b | b in AbsNext(a, c).zero && b.h in a.live && b.h in n.regs ensures n.regs[b.h].base + b.o !in s'.nonzero {
      assert b in a.zero && b != Byte(c.h, c.offset);
      if b.h != c.h {
        var i := LiveFrame(a, n, s, b.h);
        var j := LiveFrame(a, n, s, c.h);
        assert n.at[n.regs[b.h].base] == b.h && n.at[n.regs[c.h].base] == c.h;
        assert S.Apart(s.frames[if i < j then i else j], s.frames[if i < j then j else i].base, s.frames[if i < j then j else i].charged);
      }
    }
  }

  /** One command, as for POSIX. */
  lemma SimStep(a: Abs, n: Names, s: S.SimState, c: Cmd, host: S.HostAlloc)
    requires SimRel(a, n, s) && WellFormed(a, c) && SimCooperates(s, c, host)
    ensures SimOutcome(n, s, c, host) == SimVerdict(a, n, c)
    ensures var done := SimOutcome(n, s, c, host);
            SimRel(Effect(a, n, c, done), NamesEffect(n, c, SimRegion(s, c, host), done), SimNext(n, s, c, host))
  {
    hide SimRel;
    match c
    case Reserve(_, _, _) => SimReserveStep(a, n, s, c, host);
    case Physical(_, _, _, _) => SimPhysicalStep(a, n, s, c, host);
    case Release(_) => SimReleaseStep(a, n, s, c, host);
    case Write(_, _, _) => SimWriteStep(a, n, s, c, host);
  }

  // ---- both providers, side by side ----

  /** Each provider with the client's names for it, and what has become of each handle in it. */
  datatype World = World(pa: Abs, pn: Names, ps: P.State, sa: Abs, sn: Names, ss: S.SimState)

  /** One command, with what the kernel and the host allocator answer. */
  datatype Turn = Turn(c: Cmd, k: PosixAnswer, host: S.HostAlloc)

  ghost predicate Related(w: World) {
    && w.ps.page <= MAX_PAGE && w.pa.size == w.sa.size
    && PosixRel(w.pa, w.pn, w.ps) && SimRel(w.sa, w.sn, w.ss)
  }

  /** Any command by a name the client was given, the kernel and the host allocator not failing it. */
  predicate Tried(w: World, t: Turn) {
    && w.ps.page > 0 && WellFormed(w.pa, t.c) && WellFormed(w.sa, t.c)
    && (t.c.Reserve? || (t.c.h in w.pn.regs && t.c.h in w.sn.regs))
    && PosixCooperates(w.pn, w.ps, t.c, t.k) && SimCooperates(w.ss, t.c, t.host)
  }

  function After(w: World, t: Turn): World
    requires Tried(w, t)
  {
    var p, s := PosixOutcome(w.pn, w.ps, t.c, t.k), SimOutcome(w.sn, w.ss, t.c, t.host);
    World(Effect(w.pa, w.pn, t.c, p), NamesEffect(w.pn, t.c, PosixRegion(w.ps, t.c, t.k), p),
          PosixNext(w.pn, w.ps, t.c, t.k),
          Effect(w.sa, w.sn, t.c, s), NamesEffect(w.sn, t.c, SimRegion(w.ss, t.c, t.host), s),
          SimNext(w.sn, w.ss, t.c, t.host))
  }

  ghost predicate Run(w: World, turns: seq<Turn>, w': World)
    decreases turns
  {
    if turns == [] then w == w' else Tried(w, turns[0]) && Run(After(w, turns[0]), turns[1..], w')
  }

  lemma StayRelated(w: World, t: Turn)
    requires Related(w) && Tried(w, t)
    ensures Related(After(w, t))
  {
    PosixStep(w.pa, w.pn, w.ps, t.c, t.k);
    SimStep(w.sa, w.sn, w.ss, t.c, t.host);
    SizesStayEqual(w, t);
    hide PosixRel, SimRel, PosixOutcome, SimOutcome, PosixNext, SimNext, Effect, NamesEffect, PosixVerdict, SimVerdict;
  }

  lemma SizesStayEqual(w: World, t: Turn)
    requires w.pa.size == w.sa.size && Tried(w, t)
    requires PosixOutcome(w.pn, w.ps, t.c, t.k) == PosixVerdict(w.pa, w.pn, w.ps.page, w.ps.guard, t.c)
    requires SimOutcome(w.sn, w.ss, t.c, t.host) == SimVerdict(w.sa, w.sn, t.c)
    ensures After(w, t).pa.size == After(w, t).sa.size
  {
    hide PosixOutcome, SimOutcome, PosixNext, SimNext, PhysicalVerdict, SimOwns, IsPow2;
  }

  lemma {:induction false} RunStaysRelated(w: World, turns: seq<Turn>, w': World)
    requires Related(w) && Run(w, turns, w')
    ensures Related(w')
    decreases turns
  {
    if turns != [] {
      StayRelated(w, turns[0]);
      hide Related, Tried, After;
      RunStaysRelated(After(w, turns[0]), turns[1..], w');
    }
  }

  const NOTHING: Abs := Abs(map[], {}, {})
  const NO_NAMES: Names := Names(map[], map[])

  function Initially(page: nat, guard: bool, pool: nat): World {
    World(NOTHING, NO_NAMES, P.State(page, guard, map[], {}, [], {}), NOTHING, NO_NAMES, S.Fresh(pool))
  }

  lemma InitiallyRelated(page: nat, guard: bool, pool: nat)
    requires IsPow2(page) && page <= MAX_PAGE
    ensures Related(Initially(page, guard, pool))
  {
  }

  /**
   When the two answer alike. A release matches by base alone. A physical operation is taken by
   POSIX when the reservation at the base covers the region by whole pages, and by the simulator
   when the lengths are equal; beyond that POSIX wants a page-aligned offset wherever it makes a
   call it reports on.
   */
  predicate Agree(w: World, c: Cmd)
    requires w.ps.page > 0 && WellFormed(w.pa, c) && WellFormed(w.sa, c)
    requires c.Reserve? || (c.h in w.pn.regs && c.h in w.sn.regs)
  {
    match c
    case Release(h) => w.pn.regs[h].base in w.pn.at <==> w.sn.regs[h].base in w.sn.at
    case Physical(kind, h, offset, len) =>
      if PosixOwns(w.pa, w.pn, w.ps.page, h, offset, len)
      then SimOwns(w.sa, w.sn, h, offset, len) &&
           (len == 0 || !NeedsAlignment(w.ps.guard, kind) || offset % w.ps.page == 0)
      else !SimOwns(w.sa, w.sn, h, offset, len)
    case _ => true
  }

  lemma VerdictsAgree(w: World, c: Cmd)
    requires w.ps.page > 0 && WellFormed(w.pa, c) && WellFormed(w.sa, c)
    requires c.Reserve? || (c.h in w.pn.regs && c.h in w.sn.regs)
    ensures PosixVerdict(w.pa, w.pn, w.ps.page, w.ps.guard, c) == SimVerdict(w.sa, w.sn, c) <==> Agree(w, c)
  {
    hide PosixOwns, SimOwns, IsPow2;
  }

  lemma AgreeExactly(w: World, t: Turn)
    requires Related(w) && Tried(w, t)
    ensures PosixOutcome(w.pn, w.ps, t.c, t.k) == SimOutcome(w.sn, w.ss, t.c, t.host) <==> Agree(w, t.c)
  {
    PosixStep(w.pa, w.pn, w.ps, t.c, t.k);
    SimStep(w.sa, w.sn, w.ss, t.c, t.host);
    VerdictsAgree(w, t.c);
    hide PosixOutcome, SimOutcome, PosixRel, SimRel, PosixNext, SimNext, Effect, NamesEffect, PosixVerdict, SimVerdict, Agree;
  }

  /** In particular on a handle live in both at a page-aligned offset, and on a stale one whose bases are free. */
  lemma LiveAlignedAgree(w: World, c: Cmd)
    requires Related(w) && WellFormed(w.pa, c) && WellFormed(w.sa, c) && (c.Physical? || c.Release?)
    requires (c.h in w.pa.live && c.h in w.sa.live) || (w.pn.regs[c.h].base !in w.pn.at && w.sn.regs[c.h].base !in w.sn.at)
    requires c.Physical? ==> c.offset % w.ps.page == 0
    ensures Agree(w, c)
  {
    AlignUpIsLeast(w.pa.size[c.h], w.ps.page);
    hide AlignUp;
  }

  /** A byte of a live handle that was decommitted or force-purged and not written since. */
  predicate KnownZero(a: Abs, n: Names, b: Byte) { b in a.zero && b.h in a.live && b.h in n.regs }

  /**
   After any run, stale and unaligned commands included, the two providers answer the next
   command, whatever it is, alike exactly when the condition holds; and every byte known to
   read zero does, in each.
   */
  lemma ProvidersAgree(page: nat, guard: bool, pool: nat, turns: seq<Turn>, w: World, t: Turn)
    requires IsPow2(page) && page <= MAX_PAGE && Run(Initially(page, guard, pool), turns, w) && Tried(w, t)
    ensures PosixOutcome(w.pn, w.ps, t.c, t.k) == SimOutcome(w.sn, w.ss, t.c, t.host) <==> Agree(w, t.c)
    ensures forall b :: KnownZero(w.pa, w.pn, b) ==> w.pn.regs[b.h].base + b.o !in w.ps.nonzero
    ensures forall b :: KnownZero(w.sa, w.sn, b) ==> w.sn.regs[b.h].base + b.o !in w.ss.nonzero
  {
    InitiallyRelated(page, guard, pool);
    RunStaysRelated(Initially(page, guard, pool), turns, w);
    AgreeExactly(w, t);
    ZeroesRead(w);
    hide PosixOutcome, SimOutcome, Related, Agree, Tried, Initially;
  }

  lemma ZeroesRead(w: World)
    requires Related(w)
    ensures forall b :: KnownZero(w.pa, w.pn, b) ==> w.pn.regs[b.h].base + b.o !in w.ps.nonzero
    ensures forall b :: KnownZero(w.sa, w.sn, b) ==> w.sn.regs[b.h].base + b.o !in w.ss.nonzero
  {
    hide P.Inv, S.Inv, EntriesMatch, FramesMatch;
  }

  // ---- one abstract provider ----

  /**
   A command neither provider mistakes, by handles: a live one at an offset POSIX takes, or a
   stale one whose base, or in a physical operation its length there, gives it away.
   */
  predicate Unmistaken(w: World, c: Cmd)
    requires w.ps.page > 0 && WellFormed(w.pa, c) && WellFormed(w.sa, c)
    requires c.Reserve? || (c.h in w.pn.regs && c.h in w.sn.regs)
  {
    match c
    case Release(h) =>
      (h in w.pa.live || w.pn.regs[h].base !in w.pn.at) && (h in w.sa.live || w.sn.regs[h].base !in w.sn.at)
    case Physical(kind, h, offset, len) =>
      && (if h in w.pa.live
          then len == 0 || !NeedsAlignment(w.ps.guard, kind) || offset % w.ps.page == 0 || offset + len > w.pa.size[h]
          else !PosixOwns(w.pa, w.pn, w.ps.page, h, offset, len))
      && (h in w.sa.live || !SimOwns(w.sa, w.sn, h, offset, len))
    case _ => true
  }

  /** Exactly then each provider answers as the handle's own life demands. */
  lemma UnmistakenExactly(w: World, t: Turn)
    requires Related(w) && Tried(w, t)
    ensures Unmistaken(w, t.c) <==>
            && PosixVerdict(w.pa, w.pn, w.ps.page, w.ps.guard, t.c) == Answer(w.pa, t.c)
            && SimVerdict(w.sa, w.sn, t.c) == Answer(w.sa, t.c)
  {
    if t.c.Physical? { AlignUpIsLeast(w.pa.size[t.c.h], w.ps.page); }
    hide AlignUp, IsPow2, PosixCooperates, SimCooperates, EntriesMatch, FramesMatch, ZeroHolds, P.Inv, S.Inv;
  }

  predicate Fair(w: World, t: Turn) { Tried(w, t) && Unmistaken(w, t.c) }

  ghost predicate FairRun(w: World, turns: seq<Turn>, w': World)
    decreases turns
  {
    if turns == [] then w == w' else Fair(w, turns[0]) && FairRun(After(w, turns[0]), turns[1..], w')
  }

  lemma FairStep(w: World, t: Turn)
    requires Related(w) && Fair(w, t) && w.pa == w.sa
    ensures Related(After(w, t)) && After(w, t).pa == After(w, t).sa == AbsNext(w.pa, t.c)
    ensures PosixOutcome(w.pn, w.ps, t.c, t.k) == SimOutcome(w.sn, w.ss, t.c, t.host) == Answer(w.pa, t.c)
  {
    StayRelated(w, t);
    UnmistakenExactly(w, t);
    PosixStep(w.pa, w.pn, w.ps, t.c, t.k);
    SimStep(w.sa, w.sn, w.ss, t.c, t.host);
    RightAnswerRightEffect(w.pa, w.pn, t.c);
    RightAnswerRightEffect(w.sa, w.sn, t.c);
    hide PosixOutcome, SimOutcome, PosixRel, SimRel, PosixVerdict, SimVerdict, PosixNext, SimNext;
    hide Effect, NamesEffect, AbsNext, Answer, Unmistaken;
  }

  lemma {:induction false} FairRunStaysInStep(w: World, turns: seq<Turn>, w': World)
    requires Related(w) && w.pa == w.sa && FairRun(w, turns, w')
    ensures Related(w') && w'.pa == w'.sa
    decreases turns
  {
    if turns != [] {
      FairStep(w, turns[0]);
      hide Related, Fair, After, PosixOutcome, SimOutcome, Answer;
      FairRunStaysInStep(After(w, turns[0]), turns[1..], w');
    }
  }

  /** What a client controls: live handles at page-aligned offsets, and stale ones whose bases are free. */
  predicate Proper(w: World, c: Cmd) {
    && (c.Physical? || c.Release? ==>
          || (c.h in w.pa.live && c.h in w.sa.live)
          || (c.h !in w.pa.live && c.h !in w.sa.live && c.h in w.pn.regs && c.h in w.sn.regs &&
              w.pn.regs[c.h].base !in w.pn.at && w.sn.regs[c.h].base !in w.sn.at))
    && (c.Physical? ==> w.ps.page > 0 && c.offset % w.ps.page == 0)
  }

  lemma ProperIsFair(w: World, t: Turn)
    requires Related(w) && Tried(w, t) && Proper(w, t.c)
    ensures Fair(w, t)
  {
    hide P.Inv, S.Inv, EntriesMatch, FramesMatch, ZeroHolds, AlignUp, PosixCooperates, SimCooperates;
  }

  /** A run of reserves, stores and proper commands. */
  ghost predicate ProperRun(w: World, turns: seq<Turn>, w': World)
    decreases turns
  {
    if turns == [] then w == w'
    else Tried(w, turns[0]) && Proper(w, turns[0].c) && ProperRun(After(w, turns[0]), turns[1..], w')
  }

  lemma {:induction false} ProperRunIsFair(w: World, turns: seq<Turn>, w': World)
    requires Related(w) && ProperRun(w, turns, w')
    ensures FairRun(w, turns, w')
    decreases turns
  {
    if turns != [] {
      ProperIsFair(w, turns[0]);
      StayRelated(w, turns[0]);
      hide Related, Fair, Tried, Proper, After;
      ProperRunIsFair(After(w, turns[0]), turns[1..], w');
    }
  }

  /**
   From the start, through any run of commands neither provider mistakes, the two stay in step
   with one abstract provider that knows handles only; and both answer the next as it does
   exactly when neither mistakes that one.
   */
  lemma FairRunsShareOneAbstract(page: nat, guard: bool, pool: nat, turns: seq<Turn>, w: World, t: Turn)
    requires IsPow2(page) && page <= MAX_PAGE && FairRun(Initially(page, guard, pool), turns, w) && Tried(w, t)
    ensures w.pa == w.sa
    ensures PosixOutcome(w.pn, w.ps, t.c, t.k) == SimOutcome(w.sn, w.ss, t.c, t.host) == Answer(w.pa, t.c) <==>
            Unmistaken(w, t.c)
  {
    InitiallyRelated(page, guard, pool);
    FairRunStaysInStep(Initially(page, guard, pool), turns, w);
    PosixStep(w.pa, w.pn, w.ps, t.c, t.k);
    SimStep(w.sa, w.sn, w.ss, t.c, t.host);
    UnmistakenExactly(w, t);
    hide PosixOutcome, SimOutcome, PosixRel, SimRel, PosixVerdict, SimVerdict, PosixNext, SimNext, Effect, NamesEffect;
    hide Unmistaken, Answer, Initially;
  }

  /** From the start, through any run of proper commands, both answer the next proper one as the abstract provider. */
  lemma ProperRunsShareOneAbstract(page: nat, guard: bool, pool: nat, turns: seq<Turn>, w: World, t: Turn)
    requires IsPow2(page) && page <= MAX_PAGE && ProperRun(Initially(page, guard, pool), turns, w)
    requires Tried(w, t) && Proper(w, t.c)
    ensures w.pa == w.sa
    ensures PosixOutcome(w.pn, w.ps, t.c, t.k) == SimOutcome(w.sn, w.ss, t.c, t.host) == Answer(w.pa, t.c)
  {
    InitiallyRelated(page, guard, pool);
    ProperRunIsFair(Initially(page, guard, pool), turns, w);
    FairRunsShareOneAbstract(page, guard, pool, turns, w, t);
    FairRunStaysInStep(Initially(page, guard, pool), turns, w);
    ProperIsFair(w, t);
    hide PosixOutcome, SimOutcome, Related, Unmistaken, Answer, Initially, Proper;
  }

  // ---- where they part ----

  /** A 100-byte region released, its base reused for 200 bytes in both, then decommitted. */
  lemma StaleRegionDisagreement(k: P.SysAnswer)
    requires k.madvise
    ensures P.AfterPhysical(PosixReused(200), P.Decommit, Region(4096, 100), 0, 100, k).1 == Ok(())
    ensures S.AfterDiscard(SimReused(4096, 200), Region(4096, 100), 0, 100).1 == Err(InvalidRequest)
  {
    PosixReusedIs(200);
    SimReusedIs(4096, 200);
    hide PosixReused, SimReused;
    DecommitFirst(PosixReused(200), Region(4096, 100), 100, k);
  }

  /** The same with equal sizes, but the base reused in POSIX alone. */
  lemma OneSidedReuseDisagreement(k: P.SysAnswer)
    requires k.madvise
    ensures P.AfterPhysical(PosixReused(100), P.Decommit, Region(4096, 100), 0, 100, k).1 == Ok(())
    ensures S.AfterDiscard(SimReused(8192, 100), Region(4096, 100), 0, 100).1 == Err(InvalidRequest)
  {
    PosixReusedIs(100);
    SimReusedIs(8192, 100);
    hide PosixReused, SimReused;
    DecommitFirst(PosixReused(100), Region(4096, 100), 100, k);
  }

  /** A stale release, whatever the sizes, takes the new owner's reservation where the base was reused. */
  lemma StaleReleaseDisagreement()
    ensures P.AfterRelease(PosixReused(200), Region(4096, 100), true).1 == Ok(())
    ensures PosixReused(200).owned != [] && P.AfterRelease(PosixReused(200), Region(4096, 100), true).0.owned == []
    ensures S.AfterRelease(SimReused(8192, 200), Region(4096, 100)).1 == Err(InvalidRequest)
  {
    PosixReusedIs(200);
    SimReusedIs(8192, 200);
    hide PosixReused, SimReused;
    ReleaseFirst(PosixReused(200), Region(4096, 100));
  }

  /** An unaligned offset into a live region. */
  lemma UnalignedOffsetDisagreement(k: P.SysAnswer)
    ensures var s := P.AfterReserve(P.State(4096, false, map[], {}, [], {}), 100, 16, P.MapAt(1, true, true)).0;
            P.AfterPhysical(s, P.Decommit, Region(4096, 100), 50, 50, k).1 == Err(OutOfMemory)
    ensures var s := S.AfterReserve(S.Fresh(1000), 100, 16, S.At(4096, {})).0;
            S.AfterDiscard(s, Region(4096, 100), 50, 50).1 == Ok(())
  {
    var p0 := P.State(4096, false, map[], {}, [], {});
    ReserveAtPageOne(p0, 100);
    S.ReserveFirst(S.Fresh(1000), 100, 4096);
    hide P.AfterReserve, S.AfterReserve;
    UnalignedFails(P.AfterReserve(p0, 100, 16, P.MapAt(1, true, true)).0, k);
    hide P.AfterPhysical;
    var s1 := S.AfterReserve(S.Fresh(1000), 100, 16, S.At(4096, {})).0;
    assert s1.frames[0].base == 4096 && s1.frames[0].charged == 100;
  }

  lemma UnalignedFails(s: P.State, k: P.SysAnswer)
    requires s.page == 4096 && s.owned == [P.Owned(4096, 4096, 16)]
    ensures P.AfterPhysical(s, P.Decommit, Region(4096, 100), 50, 50, k).1 == Err(OutOfMemory)
  {
    assert P.Matches(s.owned[0], Region(4096, 100));
  }

  /** POSIX after reserving 100 bytes on page one, releasing them, and reserving `size` there. */
  function PosixReused(size: nat): P.State {
    var at := P.MapAt(1, true, true);
    var p1 := P.AfterReserve(P.State(4096, false, map[], {}, [], {}), 100, 16, at).0;
    var p2 := P.AfterRelease(p1, Region(4096, 100), true).0;
    P.AfterReserve(p2, size, 16, at).0
  }

  /** The simulator after the same, the host giving `base` the second time. */
  function SimReused(base: nat, size: nat): S.SimState {
    var s1 := S.AfterReserve(S.Fresh(1000), 100, 16, S.At(4096, {})).0;
    S.AfterReserve(S.AfterRelease(s1, Region(4096, 100)).0, size, 16, S.At(base, {})).0
  }

  lemma PosixReusedIs(size: nat)
    requires 0 < size <= 4096
    ensures var s := PosixReused(size); s.page == 4096 && s.owned == [P.Owned(4096, 4096, 16)] && !s.guard
  {
    var at := P.MapAt(1, true, true);
    var p0 := P.State(4096, false, map[], {}, [], {});
    ReserveAtPageOne(p0, 100);
    var p1 := P.AfterReserve(p0, 100, 16, at).0;
    ReleaseFirst(p1, Region(4096, 100));
    ReserveAtPageOne(P.AfterRelease(p1, Region(4096, 100), true).0, size);
    hide P.AfterReserve, P.AfterRelease;
  }

  lemma SimReusedIs(base: nat, size: nat)
    requires 0 < size <= 900 && 0 < base && base % 16 == 0
    ensures SimReused(base, size).frames == [S.Frame(base, size, 16, AllocatorCommitted)]
  {
    S.ReserveFirst(S.Fresh(1000), 100, 4096);
    var s1 := S.AfterReserve(S.Fresh(1000), 100, 16, S.At(4096, {})).0;
    S.ReleaseOnly(s1, Region(4096, 100));
    hide S.AfterReserve, S.AfterRelease;
    S.ReserveFirst(S.AfterRelease(s1, Region(4096, 100)).0, size, base);
  }

  lemma DecommitFirst(s: P.State, r: Region, len: nat, k: P.SysAnswer)
    requires s.page == 4096 && s.owned == [P.Owned(4096, 4096, 16)] && r.base == 4096 && len <= r.len <= 4096
    requires !s.guard && k.madvise
    ensures P.AfterPhysical(s, P.Decommit, r, 0, len, k).1 == Ok(())
  {
    assert P.Matches(s.owned[0], r);
  }

  lemma ReserveAtPageOne(s: P.State, size: nat)
    requires s.page == 4096 && s.owned == [] && 1 !in s.mem && 0 < size <= 4096
    ensures var (s', r) := P.AfterReserve(s, size, 16, P.MapAt(1, true, true));
            r == Ok(Region(4096, size)) && s'.owned == [P.Owned(4096, 4096, 16)] && s'.page == 4096 && s'.guard == s.guard
  {
    SixteenIsPow2();
    AlignUpIsLeast(size, 4096);
    assert AlignUp(size, 4096) == 4096;
  }

  lemma ReleaseFirst(s: P.State, r: Region)
    requires s.page == 4096 && s.owned == [P.Owned(4096, 4096, 16)] && r.base == 4096
    ensures var s' := P.AfterRelease(s, r, true).0; s'.owned == [] && 1 !in s'.mem && s'.page == 4096 && s'.guard == s.guard
  {
    assert 1 in P.Span(1, 2);
  }

  /** The simulator's `protect` and `bind_node`: the seam's accept-everything default. */
  function SimProtect(r: Region, offset: nat, len: nat, accessible: bool): Outcome { Ok(()) }
  function SimBind(r: Region, osNode: nat): Outcome { Ok(()) }

  /**
   With the kernel cooperating, `protect` agrees exactly on a region POSIX owns at an aligned
   offset, and `bind_node` exactly on a region it owns whole and a node below 64.
   */
  lemma ProtectAndBindAgreeExactly(w: World, h: Handle, offset: nat, len: nat, accessible: bool, osNode: nat)
    requires Related(w) && h in w.pa.size
    ensures var k := P.SysAnswer(true, true, false);
            P.AfterPhysical(w.ps, P.Protect(accessible), w.pn.regs[h], offset, len, k).1 ==
              SimProtect(w.sn.regs[h], offset, len, accessible) <==>
            PosixOwns(w.pa, w.pn, w.ps.page, h, offset, len) && (len == 0 || offset % w.ps.page == 0)
    ensures P.BindOutcome(w.ps, w.pn.regs[h], osNode, true) == SimBind(w.sn.regs[h], osNode) <==>
            PosixOwns(w.pa, w.pn, w.ps.page, h, 0, w.pa.size[h]) && osNode < 64
  {
    PhysicalAnswersExactly(w.pa, w.pn, w.ps, P.Protect(accessible), h, offset, len, P.SysAnswer(true, true, false));
    OwnedExactly(w.pa, w.pn, w.ps, h, 0, w.pa.size[h]);
    hide P.AfterPhysical, P.OwnedSubrange, PosixOwns;
  }
}

/**
 The simulator under several threads. Each operation holds the lock throughout, except
 `decommit` and `purge_forced`, which check the region under the lock and zero it after
 letting go. A release in between leaves the zeroing without an owner; exactly that does.
 */
module SimThreads {
  import opened Backend
  import opened Simulator
  import opened Wrappers

  type Tid = int

  /** A subrange that passed the check and is still to be zeroed. */
  datatype Discard = Discard(r: Region, offset: nat, len: nat)

  datatype Shared = Shared(sim: SimState, pending: map<Tid, Discard>)

  datatype Action =
    | Locked(op: Op)
    | Check(t: Tid, d: Discard)
    | Zero(t: Tid)
    | Store(addr: int)           // some client makes a byte of its own nonzero

  predicate Enabled(s: Shared, a: Action) {
    match a
    case Locked(op) => !op.OpDiscard?
    case Check(t, _) => t !in s.pending
    case Zero(t) => t in s.pending
    case Store(_) => true
  }

  function Apply(s: Shared, a: Action): Shared
    requires Enabled(s, a)
  {
    match a
    case Locked(op) => s.(sim := Do(s.sim, op))
    case Check(t, d) => if OwnsSubrange(s.sim, d.r, d.offset, d.len) then s.(pending := s.pending[t := d]) else s
    case Zero(t) =>
      var d := s.pending[t];
      Shared(s.sim.(nonzero := Zeroed(s.sim.nonzero, d.r.base + d.offset, d.len)), s.pending - {t})
    case Store(addr) => s.(sim := s.sim.(nonzero := s.sim.nonzero + {addr}))
  }

  ghost predicate Run(s: Shared, acts: seq<Action>, s': Shared)
    decreases acts
  {
    if acts == [] then s == s' else Enabled(s, acts[0]) && Run(Apply(s, acts[0]), acts[1..], s')
  }

  /** The zeroing to come lies in a live frame of the region's own length. */
  predicate StillOwned(s: Shared, t: Tid)
    requires t in s.pending
  {
    OwnsSubrange(s.sim, s.pending[t].r, s.pending[t].offset, s.pending[t].len)
  }

  ghost predicate AllOwned(s: Shared) { forall t :: t in s.pending ==> StillOwned(s, t) }

  /** The action releases a base some thread is about to zero. */
  ghost predicate Overtakes(s: Shared, a: Action) {
    a.Locked? && a.op.OpRelease? && exists t :: t in s.pending && s.pending[t].r.base == a.op.r.base
  }

  /** A step leaves every zeroing owned exactly when it is not such a release. */
  lemma StepIsSafeExactly(s: Shared, a: Action)
    requires Inv(s.sim) && AllOwned(s) && Enabled(s, a)
    ensures Inv(Apply(s, a).sim) && (AllOwned(Apply(s, a)) <==> !Overtakes(s, a))
  {
    if a.Locked? {
      DoKeepsInv(s.sim, a.op);
      LockedIsSafeExactly(s, a);
    }
  }

  lemma LockedIsSafeExactly(s: Shared, a: Action)
    requires Inv(s.sim) && AllOwned(s) && Enabled(s, a) && a.Locked?
    ensures AllOwned(Apply(s, a)) <==> !Overtakes(s, a)
  {
    var s' := Apply(s, a);
    forall t | t in s.pending
      ensures StillOwned(s', t) <==> !(a.op.OpRelease? && s.pending[t].r.base == a.op.r.base)
    {
      assert StillOwned(s, t);
      match a.op
      case OpReserve(size, align, host) => ReserveKeepsOwner(s.sim, s.pending[t], size, align, host);
      case OpRelease(r) => ReleaseTakesItsOwn(s.sim, s.pending[t], r);
      case _ =>
    }
  }

  lemma ReserveKeepsOwner(s: SimState, d: Discard, size: nat, align: nat, host: HostAlloc)
    requires OwnsSubrange(s, d.r, d.offset, d.len)
    ensures OwnsSubrange(AfterReserve(s, size, align, host).0, d.r, d.offset, d.len)
  {
    var i :| 0 <= i < |s.frames| && s.frames[i].base == d.r.base && s.frames[i].charged == d.r.len;
    assert AfterReserve(s, size, align, host).0.frames[i] == s.frames[i];
  }

  lemma ReleaseTakesItsOwn(s: SimState, d: Discard, r: Region)
    requires Inv(s) && OwnsSubrange(s, d.r, d.offset, d.len)
    ensures OwnsSubrange(AfterRelease(s, r).0, d.r, d.offset, d.len) <==> d.r.base != r.base
  {
    var i :| 0 <= i < |s.frames| && s.frames[i].base == d.r.base && s.frames[i].charged == d.r.len;
    assert s.frames[i] in s.frames;
    var at := Position(s.frames, r.base);
    if at.Some? {
      var j, s' := at.value, AfterRelease(s, r).0;
      if d.r.base == r.base {
        forall m | 0 <= m < |s'.frames| ensures s'.frames[m].base != d.r.base {
          assert s'.frames[m] == s.frames[if m == j then |s.frames| - 1 else m];
        }
      } else {
        assert s'.frames[if i == |s.frames| - 1 then j else i] == s.frames[i];
      }
    }
  }

  /** In a run where no release overtakes a discard, every zeroing stays inside a live frame. */
  lemma {:induction false} ZeroingIsOwned(s: Shared, acts: seq<Action>, s': Shared)
    requires Inv(s.sim) && AllOwned(s) && Run(s, acts, s') && NoneOvertake(s, acts)
    ensures Inv(s'.sim) && AllOwned(s')
    decreases acts
  {
    if acts != [] {
      StepIsSafeExactly(s, acts[0]);
      hide Inv, AllOwned, Overtakes, Apply, Enabled;
      ZeroingIsOwned(Apply(s, acts[0]), acts[1..], s');
    }
  }

  ghost predicate NoneOvertake(s: Shared, acts: seq<Action>)
    decreases acts
  {
    acts != [] ==> Enabled(s, acts[0]) && !Overtakes(s, acts[0]) && NoneOvertake(Apply(s, acts[0]), acts[1..])
  }

  /**
   When one does: thread 0's decommit of 100 bytes passes its check, the region is released and
   its base reserved anew for 200, the new owner stores a byte, and thread 0 then zeroes it.
   */
  lemma OvertakenDecommitZeroesAnother() returns (acts: seq<Action>, before: Shared, after: Shared)
    ensures Run(Shared(Fresh(1000), map[]), acts, before) && Enabled(before, Zero(0)) && after == Apply(before, Zero(0))
    ensures OwnsSubrange(before.sim, Region(4096, 200), 0, 200) && !AllOwned(before)
    ensures 4100 in before.sim.nonzero && 4100 !in after.sim.nonzero
  {
    var first, host := Region(4096, 100), At(4096, {});
    var a1, a2, a3 := Locked(OpReserve(100, 16, host)), Check(0, Discard(first, 0, 100)), Locked(OpRelease(first));
    var a4, a5 := Locked(OpReserve(200, 16, host)), Store(4100);
    var s0 := Shared(Fresh(1000), map[]);
    ReserveFirst(s0.sim, 100, 4096);
    var s1 := Apply(s0, a1);
    var s2 := CheckPasses(s1, 0, Discard(first, 0, 100));
    ReleaseOnly(s2.sim, first);
    var s3 := Apply(s2, a3);
    ReserveFirst(s3.sim, 200, 4096);
    hide AfterReserve, AfterRelease;
    var s4 := Apply(s3, a4);
    before, after := LateZero(s4, 0, Discard(first, 0, 100), 4100);
    acts := [a1, a2, a3, a4, a5];
    hide Apply;
    RunFirst(s4, a5, [], before);
    RunFirst(s3, a4, [a5], before);
    RunFirst(s2, a3, [a4, a5], before);
    RunFirst(s1, a2, [a3, a4, a5], before);
    RunFirst(s0, a1, [a2, a3, a4, a5], before);
  }

  lemma CheckPasses(s: Shared, t: Tid, d: Discard) returns (s': Shared)
    requires t !in s.pending && d.offset + d.len <= d.r.len
    requires |s.sim.frames| == 1 && s.sim.frames[0].base == d.r.base && s.sim.frames[0].charged == d.r.len
    ensures s' == Apply(s, Check(t, d)) == Shared(s.sim, s.pending[t := d])
  {
    s' := Apply(s, Check(t, d));
  }

  lemma LateZero(s: Shared, t: Tid, d: Discard, addr: int) returns (before: Shared, after: Shared)
    requires t in s.pending && s.pending[t] == d && d.r.base + d.offset <= addr < d.r.base + d.offset + d.len
    requires |s.sim.frames| == 1 && s.sim.frames[0].base == d.r.base && s.sim.frames[0].charged > d.r.len
    ensures before == Apply(s, Store(addr)) && Enabled(before, Zero(t)) && after == Apply(before, Zero(t))
    ensures OwnsSubrange(before.sim, Region(d.r.base, s.sim.frames[0].charged), 0, s.sim.frames[0].charged)
    ensures !AllOwned(before) && addr in before.sim.nonzero && addr !in after.sim.nonzero
  {
    before := Apply(s, Store(addr));
    after := Apply(before, Zero(t));
    assert !StillOwned(before, t);
  }

  lemma RunFirst(s: Shared, a: Action, rest: seq<Action>, s': Shared)
    requires Enabled(s, a) && Run(Apply(s, a), rest, s')
    ensures Run(s, [a] + rest, s')
  {
    assert ([a] + rest)[1..] == rest;
  }
}

/**
 The sharded fork gate: allocator operations count themselves in and out of one of many
 shards, and a forking thread closes every shard and waits until all counts are zero.

 Each shard word has a fork bit and a count. Entering is a single fetch-and-add whose old
 value decides admission; backing out, parking, setting a bit and reading a count are each
 separate steps, and the forker reads the shards one after another while other threads move.
 The forked child, which has one thread and resets everything, is left out.
 */
module ForkGate {
  import opened Wrappers

  type Tid = int

  datatype PC =
    | Out                                   // in no operation
    | Inside(shard: int, depth: nat)        // admitted; `depth` nested guards
    | Leaving(shard: int)                   // depth unwound, shard count not yet
    | Backing(shard: int, park: bool)       // found the fork bit set, about to take its count back
    | Parked(shard: int)                    // waiting for the fork bit to clear
    | Closing(k: int)                       // forker: bits of shards before `k` are set
    | Draining(k: int, sum: int)            // forker: adding up the counts
    | Quiesced(depth: nat)                  // forker: the fork happens here; `depth` exempt calls
    | Opening(k: int)                       // forker: clearing bits

  datatype State = State(
    shards: int,
    bit: map<int, bool>,
    count: map<int, int>,
    lock: Option<Tid>,
    pcs: map<Tid, PC>)

  predicate IsShard(s: State, i: int) { 0 <= i < s.shards }

  ghost predicate Init(s: State) {
    && s.shards > 0 && s.lock == None
    && (forall i :: IsShard(s, i) <==> i in s.bit) && (forall i :: IsShard(s, i) <==> i in s.count)
    && (forall i :: i in s.bit ==> !s.bit[i]) && (forall i :: i in s.count ==> s.count[i] == 0)
    && forall t :: t in s.pcs ==> s.pcs[t] == Out
  }

  // ---- steps ----

  function Goto(s: State, t: Tid, pc: PC): State { s.(pcs := s.pcs[t := pc]) }

  function Bump(s: State, i: int, delta: int): State
    requires i in s.count
  {
    s.(count := s.count[i := s.count[i] + delta])
  }

  /** Fetch-and-add on shard `i`: admitted if its fork bit was clear. */
  function Enter(s: State, t: Tid, i: int, park: bool): State
    requires i in s.count && i in s.bit
  {
    Goto(Bump(s, i, 1), t, if s.bit[i] then Backing(i, park) else Inside(i, 1))
  }

  /** A public operation parks; background maintenance gives up. */
  function BackOut(s: State, t: Tid, i: int, park: bool): State
    requires i in s.count
  {
    Goto(Bump(s, i, -1), t, if park then Parked(i) else Out)
  }

  function Exit(s: State, t: Tid, i: int): State
    requires i in s.count
  {
    Goto(Bump(s, i, -1), t, Out)
  }

  /** Sets the next shard's bit; after the last one the drain begins. */
  function CloseNext(s: State, t: Tid, k: int): State {
    Goto(s.(bit := s.bit[k := true]), t, if k + 1 == s.shards then Draining(0, 0) else Closing(k + 1))
  }

  /** Reads the next shard's count; after the last one the total decides. */
  function ReadNext(s: State, t: Tid, k: int, sum: int): State
    requires k in s.count
  {
    var total := sum + s.count[k];
    Goto(s, t, if k + 1 < s.shards then Draining(k + 1, total)
               else if total == 0 then Quiesced(0) else Draining(0, 0))
  }

  function OpenNext(s: State, t: Tid, k: int): State {
    Goto(s.(bit := s.bit[k := false]), t, Opening(k + 1))
  }

  datatype Step =
    | SEnter(i: int, park: bool) | SNest | SUnnest | SLeave | SExit | SBackOut | SUnpark
    | SForkLock | SClose | SRead | SExempt | SUnexempt | SResume | SOpen | SUnlock

  datatype Action = Action(t: Tid, step: Step)

  predicate Enabled(s: State, a: Action) {
    a.t in s.pcs && s.shards > 0 &&
    var pc := s.pcs[a.t];
    match a.step
    case SEnter(i, _) => pc.Out? && i in s.count && i in s.bit
    case SNest => pc.Inside?
    case SUnnest => pc.Inside? && pc.depth > 1
    case SLeave => pc.Inside? && pc.depth == 1
    case SExit => pc.Leaving? && pc.shard in s.count
    case SBackOut => pc.Backing? && pc.shard in s.count
    case SUnpark => pc.Parked? && pc.shard in s.bit && !s.bit[pc.shard]
    case SForkLock => pc.Out? && s.lock == None
    case SClose => pc.Closing?
    case SRead => pc.Draining? && pc.k in s.count
    case SExempt => pc.Quiesced?
    case SUnexempt => pc.Quiesced? && pc.depth > 0
    case SResume => pc.Quiesced? && pc.depth == 0
    case SOpen => pc.Opening? && pc.k < s.shards
    case SUnlock => pc.Opening? && pc.k == s.shards
  }

  function Apply(s: State, a: Action): State
    requires Enabled(s, a)
  {
    var pc := s.pcs[a.t];
    match a.step
    case SEnter(i, park) => Enter(s, a.t, i, park)
    case SNest => Goto(s, a.t, pc.(depth := pc.depth + 1))
    case SUnnest => Goto(s, a.t, pc.(depth := pc.depth - 1))
    case SLeave => Goto(s, a.t, Leaving(pc.shard))
    case SExit => Exit(s, a.t, pc.shard)
    case SBackOut => BackOut(s, a.t, pc.shard, pc.park)
    case SUnpark => Goto(s, a.t, Out)
    case SForkLock => Goto(s.(lock := Some(a.t)), a.t, Closing(0))
    case SClose => CloseNext(s, a.t, pc.k)
    case SRead => ReadNext(s, a.t, pc.k, pc.sum)
    case SExempt => Goto(s, a.t, Quiesced(pc.depth + 1))
    case SUnexempt => Goto(s, a.t, Quiesced(pc.depth - 1))
    case SResume => Goto(s, a.t, Opening(0))
    case SOpen => OpenNext(s, a.t, pc.k)
    case SUnlock => Goto(s.(lock := None), a.t, Out)
  }

  ghost predicate Run(s: State, acts: seq<Action>, s': State)
    decreases acts
  {
    if acts == [] then s == s'
    else Enabled(s, acts[0]) && Run(Apply(s, acts[0]), acts[1..], s')
  }

  // ---- the invariant ----

  predicate Forking(pc: PC) { pc.Closing? || pc.Draining? || pc.Quiesced? || pc.Opening? }

  /** Admitted to an operation that has not finished. */
  predicate Admitted(pc: PC, i: int) { (pc.Inside? || pc.Leaving?) && pc.shard == i }

  /** Counted in shard `i`, admitted or not. */
  predicate Counted(pc: PC, i: int) { (pc.Inside? || pc.Leaving? || pc.Backing?) && pc.shard == i }

  function CountedIn(s: State, i: int): set<Tid> { set t | t in s.pcs && Counted(s.pcs[t], i) }

  ghost predicate NoneAdmitted(s: State, i: int) { forall t :: t in s.pcs ==> !Admitted(s.pcs[t], i) }

  /** What the forker has established so far. */
  ghost predicate ForkerOk(s: State, pc: PC) {
    match pc
    case Closing(k) => 0 <= k < s.shards && forall i :: i in s.bit ==> (s.bit[i] <==> i < k)
    case Draining(k, sum) =>
      0 <= k < s.shards && 0 <= sum && (forall i :: i in s.bit ==> s.bit[i]) &&
      (sum == 0 ==> forall i :: 0 <= i < k ==> NoneAdmitted(s, i))
    case Quiesced(_) => (forall i :: i in s.bit ==> s.bit[i]) && forall i :: IsShard(s, i) ==> NoneAdmitted(s, i)
    case Opening(k) => 0 <= k <= s.shards && forall i :: i in s.bit ==> (s.bit[i] <==> k <= i)
    case _ => true
  }

  ghost predicate ThreadOk(s: State, t: Tid)
    requires t in s.pcs
  {
    var pc := s.pcs[t];
    && (Forking(pc) <==> s.lock == Some(t))
    && ForkerOk(s, pc)
    && ((pc.Inside? || pc.Leaving? || pc.Backing? || pc.Parked?) ==> IsShard(s, pc.shard))
    && (pc.Inside? ==> pc.depth > 0)
  }

  ghost predicate Inv(s: State) {
    && s.shards > 0
    && (forall i :: IsShard(s, i) <==> i in s.bit) && (forall i :: IsShard(s, i) <==> i in s.count)
    && (forall i :: i in s.count ==> s.count[i] == |CountedIn(s, i)|)
    && (s.lock.Some? ==> s.lock.value in s.pcs)
    && (s.lock == None ==> forall i :: i in s.bit ==> !s.bit[i])
    && forall t :: t in s.pcs ==> ThreadOk(s, t)
  }

  lemma NobodyCounted(s: State, i: int)
    requires forall t :: t in s.pcs ==> !s.pcs[t].Inside? && !s.pcs[t].Leaving? && !s.pcs[t].Backing?
    ensures |CountedIn(s, i)| == 0
  {
    assert forall t :: t in s.pcs ==> !Counted(s.pcs[t], i);
    assert CountedIn(s, i) == {};
  }

  lemma InitInv(s: State)
    requires Init(s)
    ensures Inv(s)
  {
    forall i | i in s.count ensures |CountedIn(s, i)| == 0 { NobodyCounted(s, i); }
  }

  /** Only thread `t` moved; counts follow it. */
  lemma CountsFollow(s: State, s': State, t: Tid, i: int)
    requires t in s.pcs && t in s'.pcs && s'.pcs == s.pcs[t := s'.pcs[t]]
    ensures |CountedIn(s', i)| == |CountedIn(s, i)| + (if Counted(s'.pcs[t], i) then 1 else 0) - (if Counted(s.pcs[t], i) then 1 else 0)
  {
    hide Counted;
    assert t in CountedIn(s, i) <==> Counted(s.pcs[t], i);
    assert CountedIn(s', i) == if Counted(s'.pcs[t], i) then CountedIn(s, i) + {t} else CountedIn(s, i) - {t};
  }

  /** What another thread's step may do to the forker: nothing but let admitted threads go. */
  ghost predicate Frame(s: State, s': State, t: Tid) {
    && s'.shards == s.shards && t in s.pcs && t in s'.pcs && s'.pcs == s.pcs[t := s'.pcs[t]]
    && (forall i :: i in s'.bit <==> i in s.bit)
    && (s.lock != Some(t) ==> forall i :: i in s.bit ==> s'.bit[i] == s.bit[i])
    && (forall i :: Admitted(s'.pcs[t], i) ==> Admitted(s.pcs[t], i) || (i in s.bit && !s.bit[i]))
    && (s'.lock == s.lock || ((s.lock == None || s.lock == Some(t)) && (s'.lock == None || s'.lock == Some(t))))
  }

  lemma NobodyReenters(s: State, s': State, t: Tid, i: int)
    requires t in s.pcs && Frame(s, s', t) && NoneAdmitted(s, i) && (i in s.bit ==> s.bit[i])
    ensures NoneAdmitted(s', i)
  {
  }

  lemma FrameThread(s: State, s': State, t: Tid, u: Tid)
    requires Inv(s) && t in s.pcs && u in s.pcs && u != t && Frame(s, s', t)
    ensures ThreadOk(s', u)
  {
    assert ThreadOk(s, u) && s'.pcs[u] == s.pcs[u];
    var pc := s.pcs[u];
    hide Admitted, NoneAdmitted;
    if pc.Draining? && pc.sum == 0 {
      forall i | 0 <= i < pc.k ensures NoneAdmitted(s', i) { NobodyReenters(s, s', t, i); }
    } else if pc.Quiesced? {
      forall i | IsShard(s, i) ensures NoneAdmitted(s', i) { NobodyReenters(s, s', t, i); }
    }
  }

  lemma FrameInv(s: State, s': State, t: Tid)
    requires Inv(s) && t in s.pcs && Frame(s, s', t) && ThreadOk(s', t)
    requires forall i :: IsShard(s, i) <==> i in s'.count
    requires forall i :: i in s.count && i in s'.count ==>
               s'.count[i] - s.count[i] == (if Counted(s'.pcs[t], i) then 1 else 0) - (if Counted(s.pcs[t], i) then 1 else 0)
    requires s'.lock == None ==> forall i :: i in s'.bit ==> !s'.bit[i]
    ensures Inv(s')
  {
    forall i | i in s'.count ensures s'.count[i] == |CountedIn(s', i)| { CountsFollow(s, s', t, i); }
    forall u | u in s'.pcs ensures ThreadOk(s', u) {
      if u != t { FrameThread(s, s', t, u); }
    }
  }

  lemma EnterInv(s: State, t: Tid, i: int, park: bool)
    requires Inv(s) && Enabled(s, Action(t, SEnter(i, park)))
    ensures Inv(Enter(s, t, i, park))
  {
    assert ThreadOk(s, t);
    FrameInv(s, Enter(s, t, i, park), t);
  }

  /** Taking back a count: a finished operation, or one that found the gate closed. */
  lemma CountBackInv(s: State, t: Tid, pc: PC)
    requires Inv(s) && t in s.pcs && (s.pcs[t].Leaving? || s.pcs[t].Backing?) && s.pcs[t].shard in s.count
    requires pc.Out? || pc == Parked(s.pcs[t].shard)
    ensures Inv(Goto(Bump(s, s.pcs[t].shard, -1), t, pc))
  {
    assert ThreadOk(s, t);
    FrameInv(s, Goto(Bump(s, s.pcs[t].shard, -1), t, pc), t);
  }

  /** Nesting, and unparking. */
  lemma QuietInv(s: State, t: Tid, pc: PC)
    requires Inv(s) && t in s.pcs
    requires match s.pcs[t]
             case Inside(i, d) => (pc.Inside? && pc.shard == i && pc.depth > 0) || pc == Leaving(i)
             case Parked(_) => pc.Out?
             case Quiesced(_) => pc.Quiesced? || pc == Opening(0)
             case _ => false
    ensures Inv(Goto(s, t, pc))
  {
    assert ThreadOk(s, t);
    FrameInv(s, Goto(s, t, pc), t);
  }

  lemma ForkLockInv(s: State, t: Tid)
    requires Inv(s) && Enabled(s, Action(t, SForkLock))
    ensures Inv(Goto(s.(lock := Some(t)), t, Closing(0)))
  {
    assert ThreadOk(s, t);
    FrameInv(s, Goto(s.(lock := Some(t)), t, Closing(0)), t);
  }

  lemma CloseInv(s: State, t: Tid)
    requires Inv(s) && Enabled(s, Action(t, SClose))
    ensures Inv(CloseNext(s, t, s.pcs[t].k))
  {
    assert ThreadOk(s, t);
    FrameInv(s, CloseNext(s, t, s.pcs[t].k), t);
  }

  lemma OpenInv(s: State, t: Tid)
    requires Inv(s) && Enabled(s, Action(t, SOpen))
    ensures Inv(OpenNext(s, t, s.pcs[t].k))
  {
    assert ThreadOk(s, t);
    FrameInv(s, OpenNext(s, t, s.pcs[t].k), t);
  }

  lemma UnlockInv(s: State, t: Tid)
    requires Inv(s) && Enabled(s, Action(t, SUnlock))
    ensures Inv(Goto(s.(lock := None), t, Out))
  {
    assert ThreadOk(s, t);
    FrameInv(s, Goto(s.(lock := None), t, Out), t);
  }

  lemma ReadInv(s: State, t: Tid)
    requires Inv(s) && Enabled(s, Action(t, SRead))
    ensures Inv(ReadNext(s, t, s.pcs[t].k, s.pcs[t].sum))
  {
    assert ThreadOk(s, t);
    ReadOk(s, t);
    var k, sum := s.pcs[t].k, s.pcs[t].sum;
    var s' := ReadNext(s, t, k, sum);
    if sum + s.count[k] == 0 {
      forall i | 0 <= i <= k ensures NoneAdmitted(s', i) {
        assert NoneAdmitted(s, i);
        forall u | u in s'.pcs ensures !Admitted(s'.pcs[u], i) { assert u != t ==> s'.pcs[u] == s.pcs[u]; }
      }
    }
    hide NoneAdmitted;
    FrameInv(s, s', t);
  }

  lemma StepInv(s: State, a: Action)
    requires Inv(s) && Enabled(s, a)
    ensures Inv(Apply(s, a))
  {
    var pc := s.pcs[a.t];
    assert ThreadOk(s, a.t);
    hide Inv, ThreadOk;
    match a.step
    case SEnter(i, park) => EnterInv(s, a.t, i, park);
    case SNest => QuietInv(s, a.t, pc.(depth := pc.depth + 1));
    case SUnnest => QuietInv(s, a.t, pc.(depth := pc.depth - 1));
    case SLeave => QuietInv(s, a.t, Leaving(pc.shard));
    case SExit => CountBackInv(s, a.t, Out);
    case SBackOut => CountBackInv(s, a.t, if pc.park then Parked(pc.shard) else Out);
    case SUnpark => QuietInv(s, a.t, Out);
    case SForkLock => ForkLockInv(s, a.t);
    case SClose => CloseInv(s, a.t);
    case SRead => ReadInv(s, a.t);
    case SExempt => QuietInv(s, a.t, Quiesced(pc.depth + 1));
    case SUnexempt => QuietInv(s, a.t, Quiesced(pc.depth - 1));
    case SResume => QuietInv(s, a.t, Opening(0));
    case SOpen => OpenInv(s, a.t);
    case SUnlock => UnlockInv(s, a.t);
  }

  /** A shard read as zero has no admitted thread. */
  lemma ReadOk(s: State, t: Tid)
    requires Inv(s) && t in s.pcs && s.pcs[t].Draining? && s.pcs[t].k in s.count
    ensures s.count[s.pcs[t].k] >= 0
    ensures s.count[s.pcs[t].k] == 0 ==> NoneAdmitted(s, s.pcs[t].k)
  {
    var k := s.pcs[t].k;
    if s.count[k] == 0 {
      forall u | u in s.pcs ensures !Admitted(s.pcs[u], k) {
        assert u !in CountedIn(s, k);
      }
    }
  }

  lemma {:induction false} RunInv(s: State, acts: seq<Action>, s': State)
    requires Inv(s) && Run(s, acts, s')
    ensures Inv(s')
    decreases acts
  {
    if acts != [] {
      StepInv(s, acts[0]);
      RunInv(Apply(s, acts[0]), acts[1..], s');
    }
  }

  // ---- theorems ----

  /** At the moment of a fork no thread is inside an admitted operation, in any shard. */
  lemma NoOperationAcrossAFork(s0: State, acts: seq<Action>, s: State, f: Tid, t: Tid)
    requires Init(s0) && Run(s0, acts, s) && f in s.pcs && s.pcs[f].Quiesced? && t in s.pcs
    ensures !s.pcs[t].Inside? && !s.pcs[t].Leaving?
    ensures t != f ==> !Forking(s.pcs[t])
  {
    InitInv(s0);
    RunInv(s0, acts, s);
    assert ThreadOk(s, f) && ThreadOk(s, t);
  }

  /** While nobody is forking every shard is open, so no parked thread stays parked. */
  lemma GateReopens(s0: State, acts: seq<Action>, s: State, t: Tid)
    requires Init(s0) && Run(s0, acts, s) && s.lock == None && t in s.pcs
    ensures s.pcs[t].Parked? ==> Enabled(s, Action(t, SUnpark))
    ensures forall i, park :: s.pcs[t].Out? && IsShard(s, i) ==> Enabled(s, Action(t, SEnter(i, park))) && !s.bit[i]
  {
    InitInv(s0);
    RunInv(s0, acts, s);
    assert ThreadOk(s, t);
  }

  /** Threads that are parked or outside hold up nobody: with no thread counted, the next scan quiesces. */
  lemma DrainEnds(s0: State, acts: seq<Action>, s: State, f: Tid)
    requires Init(s0) && Run(s0, acts, s) && f in s.pcs && s.pcs[f] == Draining(0, 0)
    requires forall t :: t in s.pcs ==> !s.pcs[t].Inside? && !s.pcs[t].Leaving? && !s.pcs[t].Backing?
    ensures exists scan, s' :: Run(s, scan, s') && f in s'.pcs && s'.pcs[f].Quiesced?
  {
    InitInv(s0);
    RunInv(s0, acts, s);
    forall i | i in s.count ensures s.count[i] == 0 { NobodyCounted(s, i); }
    var scan, s' := ScanZero(s, f, 0);
  }

  lemma {:induction false} ScanZero(s: State, f: Tid, k: int) returns (scan: seq<Action>, s': State)
    requires s.shards > 0 && (forall i :: IsShard(s, i) <==> i in s.count) && forall i :: i in s.count ==> s.count[i] == 0
    requires f in s.pcs && s.pcs[f] == Draining(k, 0) && 0 <= k < s.shards
    ensures Run(s, scan, s') && f in s'.pcs && s'.pcs[f].Quiesced?
    decreases s.shards - k
  {
    var a := Action(f, SRead);
    var s1 := Apply(s, a);
    if k + 1 == s.shards {
      scan, s' := [a], s1;
      assert [a][1..] == [];
      assert Run(s1, [], s1);
    } else {
      var rest;
      rest, s' := ScanZero(s1, f, k + 1);
      scan := [a] + rest;
      assert scan[1..] == rest;
    }
  }
}

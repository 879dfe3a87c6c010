/**
 Label-scoped statistics: what an observer at a label is shown, and what its calls can change.

 An observer other than the top one is shown only the arenas its label dominates and figures
 computed from them. Rendering to JSON is left out: the result here is what is rendered.
 */
module StatsView {
  import opened Words
  import opened Wrappers

  const OBSERVER_LABEL_TOP: nat := 0xFFFF_FFFF

  datatype Flags = Flags(
    byArena: bool, bySizeClass: bool, byCpu: bool, byNuma: bool, resetPeaks: bool, consistent: bool, unknownBits: bool)

  datatype ArenaLine = ArenaLine(id: nat, domain: nat, used: nat, reserved: nat)

  /** Aggregates over all domains; `counters` stands for every one but the peak. */
  datatype Aggregates = Aggregates(peak: nat, counters: seq<nat>)

  const NO_AGGREGATES: Aggregates := Aggregates(0, [])

  /** The process-wide state a snapshot reads. */
  datatype Engine = Engine(
    profile: nat,
    allocatedBytes: nat, freedBytes: nat,
    arenas: seq<ArenaLine>,
    aggregates: Aggregates,
    sizeClasses: seq<nat>, cpus: seq<nat>, nodes: seq<nat>)

  datatype State = State(epoch: u64, engine: Engine)

  datatype Stats = Stats(
    epoch: nat, profile: nat, live: nat, allocatedBytes: nat, freedBytes: nat, liveArenas: nat, aggregates: Aggregates)

  datatype Composed = Composed(
    summary: Stats, arenas: seq<ArenaLine>, sizeClasses: seq<nat>, cpus: seq<nat>, nodes: seq<nat>)

  // ---- what is shown ----

  /** The arena lines an observer dominates, in order. */
  function RedactArenas(arenas: seq<ArenaLine>, observer: nat): seq<ArenaLine> {
    if arenas == [] then []
    else (if arenas[0].domain <= observer then [arenas[0]] else []) + RedactArenas(arenas[1..], observer)
  }

  /** Exactly the dominated lines are kept, each as often as it occurred. */
  lemma {:induction false} RedactKeepsExactlyTheVisible(arenas: seq<ArenaLine>, observer: nat, line: ArenaLine)
    ensures multiset(RedactArenas(arenas, observer))[line] ==
            if line.domain <= observer then multiset(arenas)[line] else 0
  {
    if arenas != [] {
      RedactKeepsExactlyTheVisible(arenas[1..], observer, line);
      assert arenas == [arenas[0]] + arenas[1..];
    }
  }

  function UsedIn(arenas: seq<ArenaLine>): nat {
    if arenas == [] then 0 else arenas[0].used + UsedIn(arenas[1..])
  }

  function RedactSummary(full: Stats, visible: seq<ArenaLine>, observer: nat): Stats {
    if observer == OBSERVER_LABEL_TOP then full
    else Stats(full.epoch, full.profile, UsedIn(visible), UsedIn(visible), 0, |visible|, NO_AGGREGATES)
  }

  function NextEpoch(epoch: u64): u64 { (epoch + 1) % W64 }

  function LiveBytes(e: Engine): nat { if e.freedBytes <= e.allocatedBytes then e.allocatedBytes - e.freedBytes else 0 }

  /** The peak shown is never below the live bytes shown beside it. */
  function FullSummary(epoch: nat, e: Engine): Stats {
    Stats(epoch, e.profile, LiveBytes(e), e.allocatedBytes, e.freedBytes, |e.arenas|,
          e.aggregates.(peak := Max(e.aggregates.peak, LiveBytes(e))))
  }

  /** A snapshot for `observer`, or for an unscoped reader, and the state it leaves. */
  function AfterCompose(s: State, f: Flags, observer: Option<nat>, delivering: bool): (State, Composed) {
    var epoch := NextEpoch(s.epoch);
    var e := s.engine;
    var full := FullSummary(epoch, e);
    var redacting := observer.Some? && observer.value != OBSERVER_LABEL_TOP;
    var visible := if observer.Some? then RedactArenas(e.arenas, observer.value) else e.arenas;
    var summary := if observer.Some? then RedactSummary(full, visible, observer.value) else full;
    var e' := if f.resetPeaks && delivering && !redacting then e.(aggregates := e.aggregates.(peak := LiveBytes(e))) else e;
    (State(epoch, e'),
     Composed(summary,
              if f.byArena then visible else [],
              if f.bySizeClass && !redacting then e.sizeClasses else [],
              if f.byCpu && !redacting then e.cpus else [],
              if f.byNuma && !redacting then e.nodes else []))
  }

  /** `stats_json_for_label`: an unknown flag bit fails without a snapshot. */
  function AfterJsonForLabel(s: State, f: Flags, observer: nat, delivering: bool): (State, Option<Composed>) {
    if f.unknownBits then (s, None)
    else var (s', c) := AfterCompose(s, f, Some(observer), delivering); (s', Some(c))
  }

  /** Bytes used by the arenas a label dominates. */
  function UsedUpTo(arenas: seq<ArenaLine>, observer: nat): nat {
    if arenas == [] then 0
    else (if arenas[0].domain <= observer then arenas[0].used else 0) + UsedUpTo(arenas[1..], observer)
  }

  lemma {:induction false} RedactedUse(arenas: seq<ArenaLine>, observer: nat)
    ensures UsedIn(RedactArenas(arenas, observer)) == UsedUpTo(arenas, observer)
  {
    if arenas != [] {
      RedactedUse(arenas[1..], observer);
      var rest := RedactArenas(arenas[1..], observer);
      assert ([arenas[0]] + rest)[1..] == rest && [] + rest == rest;
    }
  }

  /** A non-top observer is told its own domains' live bytes, balanced, and no cross-domain figure. */
  lemma LowSummaryIsOwnTotals(s: State, f: Flags, low: nat, delivering: bool)
    requires low != OBSERVER_LABEL_TOP
    ensures var c := AfterCompose(s, f, Some(low), delivering).1;
            && c.summary.live == UsedUpTo(s.engine.arenas, low) == c.summary.allocatedBytes - c.summary.freedBytes
            && c.summary.aggregates == NO_AGGREGATES && c.sizeClasses == c.cpus == c.nodes == []
            && (f.byArena ==> |c.arenas| == c.summary.liveArenas)
  {
    RedactedUse(s.engine.arenas, low);
  }

  // ---- non-interference ----

  /** The two states look the same to `low`, the epoch aside. */
  predicate Alike(s: State, t: State, low: nat) {
    s.engine.profile == t.engine.profile && RedactArenas(s.engine.arenas, low) == RedactArenas(t.engine.arenas, low)
  }

  function WithoutEpoch(c: Composed): Composed { c.(summary := c.summary.(epoch := 0)) }

  function Seen(c: Option<Composed>): Option<Composed> {
    match c case None => None case Some(r) => Some(WithoutEpoch(r))
  }

  /**
   What a non-top observer is shown depends on what it may see and nothing else: alike states
   give the same result but for the epoch, and exactly the same result when the epochs agree.
   */
  lemma LowViewIsAFunctionOfLowState(s: State, t: State, f: Flags, low: nat, delivering: bool)
    requires low != OBSERVER_LABEL_TOP && Alike(s, t, low)
    ensures var (s', c) := AfterJsonForLabel(s, f, low, delivering);
            var (t', d) := AfterJsonForLabel(t, f, low, delivering);
            && Seen(c) == Seen(d) && (!f.unknownBits ==> (c == d <==> s.epoch == t.epoch))
            && s'.engine == s.engine && t'.engine == t.engine
  {
  }

  /** Something the system does: a call by the low observer, or anything at all by the others. */
  datatype Action =
    | LowCall(f: Flags, delivering: bool)
    | HighAct(to: State)

  /** Other domains may do anything that leaves the low observer's own arenas and the profile alone. */
  predicate Allowed(s: State, a: Action, low: nat) { a.HighAct? ==> Alike(s, a.to, low) }

  function Step(s: State, a: Action, low: nat): State {
    match a
    case LowCall(f, delivering) => AfterJsonForLabel(s, f, low, delivering).0
    case HighAct(to) => to
  }

  predicate AllowedRun(s: State, acts: seq<Action>, low: nat)
    decreases acts
  {
    acts == [] || (Allowed(s, acts[0], low) && AllowedRun(Step(s, acts[0], low), acts[1..], low))
  }

  /** What the low observer is shown, call by call, epochs aside. */
  function Views(s: State, acts: seq<Action>, low: nat): seq<Option<Composed>>
    decreases acts
  {
    if acts == [] then []
    else
      (match acts[0]
       case LowCall(f, delivering) => [Seen(AfterJsonForLabel(s, f, low, delivering).1)]
       case HighAct(_) => [])
      + Views(Step(s, acts[0], low), acts[1..], low)
  }

  /** The low observer's calls alone. */
  function LowCalls(acts: seq<Action>): seq<Action> {
    if acts == [] then [] else (if acts[0].LowCall? then [acts[0]] else []) + LowCalls(acts[1..])
  }

  lemma StepStaysAlike(s: State, a: Action, low: nat)
    requires low != OBSERVER_LABEL_TOP && Allowed(s, a, low)
    ensures Alike(s, Step(s, a, low), low)
  {
  }

  /**
   Whatever other domains do in between, the low observer is shown what it would be shown had
   they done nothing.
   */
  lemma {:induction false} HighActivityIsInvisible(s: State, t: State, acts: seq<Action>, low: nat)
    requires low != OBSERVER_LABEL_TOP && Alike(s, t, low) && AllowedRun(s, acts, low)
    ensures Views(s, acts, low) == Views(t, LowCalls(acts), low)
    decreases acts
  {
    if acts != [] {
      var a := acts[0];
      var s' := Step(s, a, low);
      StepStaysAlike(s, a, low);
      if a.LowCall? {
        LowViewIsAFunctionOfLowState(s, t, a.f, low, a.delivering);
        var t' := Step(t, a, low);
        StepStaysAlike(t, a, low);
        HighActivityIsInvisible(s', t', acts[1..], low);
        assert LowCalls(acts) == [a] + LowCalls(acts[1..]);
        assert LowCalls(acts)[1..] == LowCalls(acts[1..]);
      } else {
        HighActivityIsInvisible(s', t, acts[1..], low);
        assert LowCalls(acts) == LowCalls(acts[1..]);
      }
    }
  }

  /** Two runs with the same low calls, whatever the rest of the system does in each, look the same. */
  lemma LowRunsLookTheSame(s: State, t: State, xs: seq<Action>, ys: seq<Action>, low: nat)
    requires low != OBSERVER_LABEL_TOP && Alike(s, t, low)
    requires AllowedRun(s, xs, low) && AllowedRun(t, ys, low)
    requires LowCalls(xs) == LowCalls(ys)
    ensures Views(s, xs, low) == Views(t, ys, low)
  {
    HighActivityIsInvisible(s, s, xs, low);
    HighActivityIsInvisible(t, s, ys, low);
  }

  /** No sequence of calls by a non-top observer changes anything an authorized reader later reads but the epoch. */
  lemma {:induction false} LowCallsLeaveTheEngineAlone(s: State, acts: seq<Action>, low: nat)
    requires low != OBSERVER_LABEL_TOP && forall i :: 0 <= i < |acts| ==> acts[i].LowCall?
    ensures var s' := RunAll(s, acts, low); s'.engine == s.engine && s'.engine.aggregates.peak == s.engine.aggregates.peak
    decreases acts
  {
    if acts != [] {
      LowCallsLeaveTheEngineAlone(Step(s, acts[0], low), acts[1..], low);
    }
  }

  function RunAll(s: State, acts: seq<Action>, low: nat): State
    decreases acts
  {
    if acts == [] then s else RunAll(Step(s, acts[0], low), acts[1..], low)
  }

  // ---- the peak gauge, over every run ----

  /** Allocations and in-place growth, frees and in-place shrinking, and snapshots for anyone. */
  datatype Event =
    | Charged(bytes: nat)
    | Freed(bytes: nat)
    | Snapshot(f: Flags, observer: Option<nat>, delivering: bool)

  /** A charge raises the gauge to the live bytes it leaves. */
  function AfterCharge(e: Engine, bytes: nat): Engine {
    var e := e.(allocatedBytes := e.allocatedBytes + bytes);
    e.(aggregates := e.aggregates.(peak := Max(e.aggregates.peak, LiveBytes(e))))
  }

  function AfterEvent(s: State, v: Event): State {
    match v
    case Charged(bytes) => s.(engine := AfterCharge(s.engine, bytes))
    case Freed(bytes) => s.(engine := s.engine.(freedBytes := s.engine.freedBytes + bytes))
    case Snapshot(f, observer, delivering) => AfterCompose(s, f, observer, delivering).0
  }

  /** Only live bytes are freed. */
  predicate Possible(s: State, v: Event) { v.Freed? ==> s.engine.freedBytes + v.bytes <= s.engine.allocatedBytes }

  /** A history: each state follows from the one before. */
  ghost predicate History(states: seq<State>, events: seq<Event>) {
    && |states| == |events| + 1
    && forall i :: 0 <= i < |events| ==> Possible(states[i], events[i]) && states[i + 1] == AfterEvent(states[i], events[i])
  }

  /** Who may see the process-wide peak. */
  predicate Authorized(observer: Option<nat>) { observer == None || observer == Some(OBSERVER_LABEL_TOP) }

  /** A snapshot that asks for the reset, is delivered, and goes to a reader who may see the peak. */
  predicate Resets(v: Event) { v.Snapshot? && v.f.resetPeaks && v.delivering && Authorized(v.observer) }

  /** The index of the state after the last reset among the first `n` events, or 0. */
  function LastReset(events: seq<Event>, n: nat): (r: nat)
    requires n <= |events|
    ensures r <= n
  {
    if n == 0 then 0 else if Resets(events[n - 1]) then n else LastReset(events, n - 1)
  }

  /** `peak` is the most bytes live at any point from state `from` to state `n`. */
  ghost predicate IsHighWater(states: seq<State>, from: nat, n: nat, peak: nat)
    requires n < |states|
  {
    && (forall i :: from <= i <= n ==> LiveBytes(states[i].engine) <= peak)
    && (exists i :: from <= i <= n && LiveBytes(states[i].engine) == peak)
  }

  lemma {:induction false} GaugeIsHighWater(states: seq<State>, events: seq<Event>, n: nat)
    requires History(states, events) && n <= |events|
    requires states[0].engine.aggregates.peak == LiveBytes(states[0].engine)
    ensures IsHighWater(states, LastReset(events, n), n, states[n].engine.aggregates.peak)
  {
    if n > 0 {
      GaugeIsHighWater(states, events, n - 1);
      assert Possible(states[n - 1], events[n - 1]) && states[n] == AfterEvent(states[n - 1], events[n - 1]);
      var was, now := states[n - 1].engine, states[n].engine;
      var raised := if events[n - 1].Charged? then LiveBytes(now) else 0;
      assert !Resets(events[n - 1]) ==> now.aggregates.peak == Max(was.aggregates.peak, raised);
      assert Resets(events[n - 1]) ==> now.aggregates.peak == LiveBytes(now);
      hide AfterCompose, AfterCharge, RedactArenas;
    }
  }

  /**
   The peak an authorized reader is shown is the most bytes live at any point since the last
   reset an authorized reader had delivered, whatever other observers called in between.
   */
  lemma PeakIsHighWaterSinceLastReset(
    states: seq<State>, events: seq<Event>, f: Flags, observer: Option<nat>, delivering: bool)
    requires History(states, events) && Authorized(observer)
    requires states[0].engine.aggregates.peak == LiveBytes(states[0].engine)
    ensures var shown := AfterCompose(states[|events|], f, observer, delivering).1.summary.aggregates.peak;
            IsHighWater(states, LastReset(events, |events|), |events|, shown)
  {
    var n := |events|;
    GaugeIsHighWater(states, events, n);
    assert LiveBytes(states[n].engine) <= states[n].engine.aggregates.peak;
  }

  // ---- the snapshot as it is composed ----

  class StatsApi {
    var epoch: u64
    var engine: Engine

    ghost function Now(): State
      reads this
    {
      State(epoch, engine)
    }

    constructor (engine: Engine)
      ensures Now() == State(0, engine)
    {
      this.epoch := 0;
      this.engine := engine;
    }

    method RedactedArenas(observer: nat) returns (visible: seq<ArenaLine>)
      ensures visible == RedactArenas(engine.arenas, observer)
    {
      visible := [];
      var i := |engine.arenas|;
      while i > 0
        invariant 0 <= i <= |engine.arenas|
        invariant visible == RedactArenas(engine.arenas[i..], observer)
      {
        i := i - 1;
        assert engine.arenas[i..][1..] == engine.arenas[i + 1..];
        if engine.arenas[i].domain <= observer { visible := [engine.arenas[i]] + visible; }
      }
    }

    method Compose(f: Flags, observer: Option<nat>, delivering: bool) returns (c: Composed)
      modifies this
      ensures (Now(), c) == AfterCompose(old(Now()), f, observer, delivering)
    {
      epoch := NextEpoch(epoch);
      var s := FullSummary(epoch, engine);
      var summary, visible, redacting := s, engine.arenas, false;
      if observer.Some? {
        visible := RedactedArenas(observer.value);
        redacting := observer.value != OBSERVER_LABEL_TOP;
        summary := RedactSummary(s, visible, observer.value);
      }
      var e := engine;
      if f.resetPeaks && delivering && !redacting {
        engine := engine.(aggregates := engine.aggregates.(peak := LiveBytes(engine)));
      }
      c := Composed(summary,
                    if f.byArena then visible else [],
                    if f.bySizeClass && !redacting then e.sizeClasses else [],
                    if f.byCpu && !redacting then e.cpus else [],
                    if f.byNuma && !redacting then e.nodes else []);
    }
  }
}

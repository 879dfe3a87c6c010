/**
 Registration of the fork handlers and lazy construction of the global allocator, as an
 interleaving of thread steps.

 The guard word has three values, so that an attempt in progress is not mistaken for one
 that succeeded. Each load, compare-exchange and store of it is one step. A thread is a stack
 of calls: from inside the installer it may allocate or ask for registration again, and what
 that nested call does depends on the thread's two flags. The allocator itself is built once,
 by whichever thread gets there first. Forking during an attempt is not modelled.
 */
module Atfork {
  import opened Wrappers

  type Tid = int

  datatype Word = IDLE | IN_PROGRESS | DONE

  datatype Built = No | By(t: Tid) | Yes

  /** `slow`: the call goes on to build the allocator when registration is settled. */
  datatype PC =
    | FastPath                             // allocator found built; about to look at the guard word
    | Claiming(slow: bool)                 // about to compare-exchange
    | Claimed(slow: bool)                  // has the claim, about to open the window
    | Installing(slow: bool, saved: bool)  // inside the installer; `saved` is the flag to restore
    | Publishing(slow: bool, ok: bool)     // installer returned, outcome not yet stored
    | Awaiting(slow: bool)                 // found the claim taken
    | Settled                              // registration settled; about to enter the initializer
    | Building(saved: bool)

  /** The calls in progress, innermost last, and the thread-local flags. */
  datatype Thread = Thread(calls: seq<PC>, registering: bool, bootstrapping: bool)

  const IDLE_THREAD: Thread := Thread([], false, false)

  /** `window`: the registering thread's allocations are served from bootstrap storage. */
  datatype State = State(
    window: bool,
    word: Word,
    built: Built,
    holder: Option<Tid>,     // the thread whose claim is open
    installed: nat,          // successful installations
    failed: nat,             // failed attempts
    served: nat,             // allocations the system allocator served
    threads: map<Tid, Thread>)

  predicate Init(s: State) {
    s.word == IDLE && s.built == No && s.holder == None && s.installed == 0 && s.failed == 0 &&
    forall t :: t in s.threads ==> s.threads[t] == IDLE_THREAD
  }

  // ---- steps ----

  function Top(th: Thread): Option<PC> { if th.calls == [] then None else Some(th.calls[|th.calls| - 1]) }

  function Push(th: Thread, pc: PC): Thread { th.(calls := th.calls + [pc]) }

  function Pop(th: Thread): Thread
    requires th.calls != []
  {
    th.(calls := th.calls[..|th.calls| - 1])
  }

  function Goto(th: Thread, pc: PC): Thread
    requires th.calls != []
  {
    th.(calls := th.calls[..|th.calls| - 1] + [pc])
  }

  /** Registration returns: to its caller, or to the rest of `global`. */
  function Return(th: Thread, slow: bool): Thread
    requires th.calls != []
  {
    if slow then Goto(th, Settled) else Pop(th)
  }

  function Set(s: State, t: Tid, th: Thread): State { s.(threads := s.threads[t := th]) }

  /**
   An allocation: in a bootstrap window the system allocator serves it; otherwise it calls
   `global`, which takes the fast path if the allocator is built and else registers first.
   */
  function Allocate(s: State, t: Tid, th: Thread): State {
    if th.bootstrapping then s.(served := s.served + 1)
    else Set(s, t, Push(th, if s.built == Yes then FastPath else Claiming(true)))
  }

  /** A bare registration call, as the load-time constructor makes. */
  function Register(s: State, t: Tid, th: Thread): State { Set(s, t, Push(th, Claiming(false))) }

  /** Registration that has not completed is tried again. */
  function CheckRegistered(s: State, t: Tid, th: Thread): State
    requires th.calls != []
  {
    Set(s, t, if s.word == DONE then Pop(th) else Goto(th, Claiming(false)))
  }

  function TryClaim(s: State, t: Tid, th: Thread, slow: bool): State
    requires th.calls != []
  {
    if s.word == IDLE then Set(s.(word := IN_PROGRESS, holder := Some(t)), t, Goto(th, Claimed(slow)))
    else Set(s, t, Goto(th, Awaiting(slow)))
  }

  /** Marks the thread, and opens its bootstrap window. */
  function OpenWindow(s: State, t: Tid, th: Thread, slow: bool): State
    requires th.calls != []
  {
    var marked := th.(registering := true, bootstrapping := s.window || th.bootstrapping);
    Set(s, t, Goto(marked, Installing(slow, th.bootstrapping)))
  }

  /** The installer returns, and both flags are restored. */
  function Install(s: State, t: Tid, th: Thread, slow: bool, saved: bool, ok: bool): State
    requires th.calls != []
  {
    var s := if ok then s.(installed := s.installed + 1) else s.(failed := s.failed + 1);
    Set(s, t, Goto(th.(registering := false, bootstrapping := saved), Publishing(slow, ok)))
  }

  function Publish(s: State, t: Tid, th: Thread, slow: bool, ok: bool): State
    requires th.calls != []
  {
    Set(s.(word := if ok then DONE else IDLE, holder := None), t, Return(th, slow))
  }

  /** One turn of the wait: it ends at once for the registering thread, else when the attempt has ended. */
  function Spin(s: State, t: Tid, th: Thread, slow: bool): State
    requires th.calls != []
  {
    if th.registering || s.word != IN_PROGRESS then Set(s, t, Return(th, slow)) else s
  }

  /** The first to get here builds, in a bootstrap window; others find it built. */
  function StartBuild(s: State, t: Tid, th: Thread): State
    requires th.calls != []
  {
    if s.built == Yes then Set(s, t, Pop(th))
    else Set(s.(built := By(t)), t, Goto(th, Building(th.bootstrapping)).(bootstrapping := true))
  }

  function FinishBuild(s: State, t: Tid, th: Thread, saved: bool): State
    requires th.calls != []
  {
    Set(s.(built := Yes), t, Pop(th).(bootstrapping := saved))
  }

  datatype Step =
    SAllocate | SRegister | SCheck | SClaim | SOpen | SInstall(ok: bool) | SPublish | SSpin | SStart | SFinish

  datatype Action = Action(t: Tid, step: Step)

  /** Both an idle thread and one inside the installer may call in; the initializer only allocates. */
  predicate Enabled(s: State, a: Action) {
    a.t in s.threads &&
    var top := Top(s.threads[a.t]);
    match a.step
    case SAllocate => top.None? || top.value.Installing? || top.value.Building?
    case SRegister => top.None? || top.value.Installing?
    case SCheck => top.Some? && top.value.FastPath?
    case SClaim => top.Some? && top.value.Claiming?
    case SOpen => top.Some? && top.value.Claimed?
    case SInstall(_) => top.Some? && top.value.Installing?
    case SPublish => top.Some? && top.value.Publishing?
    case SSpin => top.Some? && top.value.Awaiting?
    case SStart => top.Some? && top.value.Settled? && !s.built.By?
    case SFinish => top.Some? && top.value.Building?
  }

  function Apply(s: State, a: Action): State
    requires Enabled(s, a)
  {
    var th := s.threads[a.t];
    match a.step
    case SAllocate => Allocate(s, a.t, th)
    case SRegister => Register(s, a.t, th)
    case SCheck => CheckRegistered(s, a.t, th)
    case SClaim => TryClaim(s, a.t, th, Top(th).value.slow)
    case SOpen => OpenWindow(s, a.t, th, Top(th).value.slow)
    case SInstall(ok) => Install(s, a.t, th, Top(th).value.slow, Top(th).value.saved, ok)
    case SPublish => Publish(s, a.t, th, Top(th).value.slow, Top(th).value.ok)
    case SSpin => Spin(s, a.t, th, Top(th).value.slow)
    case SStart => StartBuild(s, a.t, th)
    case SFinish => FinishBuild(s, a.t, th, Top(th).value.saved)
  }

  ghost predicate Run(s: State, acts: seq<Action>, s': State)
    decreases acts
  {
    if acts == [] then s == s'
    else Enabled(s, acts[0]) && Run(Apply(s, acts[0]), acts[1..], s')
  }

  // ---- the invariant ----

  predicate Attempting(pc: PC) { pc.Claimed? || pc.Installing? || pc.Publishing? }

  /** The thread is between claim and publication. */
  predicate HasClaim(th: Thread) { th.calls != [] && Attempting(th.calls[0]) }

  predicate InInstaller(s: State, t: Tid) { t in s.threads && Top(s.threads[t]).Some? && Top(s.threads[t]).value.Installing? }

  predicate InInitializer(s: State, t: Tid) { t in s.threads && Top(s.threads[t]).Some? && Top(s.threads[t]).value.Building? }

  /** Registered, or some attempt has failed. */
  predicate SettledOnce(s: State) { s.word == DONE || s.failed > 0 }

  /** A call nested in the installer, given the window, is only a registration that will return. */
  predicate NestedOk(pc: PC) { (pc.Claiming? || pc.Awaiting?) && !pc.slow }

  /** The shape of one thread's stack: nothing is nested but inside its installer, and the flags say where it is. */
  predicate ShapeOk(window: bool, th: Thread) {
    && |th.calls| <= 2
    && (|th.calls| == 2 ==> th.calls[0].Installing? && !Attempting(th.calls[1]) && (window ==> NestedOk(th.calls[1])))
    && (th.registering <==> th.calls != [] && th.calls[0].Installing?)
    && (th.bootstrapping <==> (window && th.registering) || (th.calls != [] && th.calls[|th.calls| - 1].Building?))
    && (forall i :: 0 <= i < |th.calls| && (th.calls[i].Installing? || th.calls[i].Building?) ==> !th.calls[i].saved)
  }

  ghost predicate ThreadOk(s: State, t: Tid)
    requires t in s.threads
  {
    var th := s.threads[t];
    && ShapeOk(s.window, th)
    && (HasClaim(th) <==> s.holder == Some(t))
    && (Top(th).Some? && Top(th).value.Building? <==> s.built == By(t))
    && (th.calls != [] ==> CallOk(s, th.calls[0]))
  }

  /** What an outermost call knows of the others. */
  predicate CallOk(s: State, pc: PC) {
    && (pc.Claimed? || pc.Installing? ==> s.installed == 0)
    && (pc.Publishing? ==> if pc.ok then s.installed == 1 else s.installed == 0 && s.failed > 0)
    && (s.window && pc.Awaiting? ==> s.word == IN_PROGRESS || SettledOnce(s))
    && (s.window && (pc.Settled? || pc.Building?) ==> SettledOnce(s))
  }

  predicate WordOk(s: State) {
    && (s.word == IN_PROGRESS <==> s.holder.Some?)
    && (s.holder.Some? ==> s.holder.value in s.threads)
    && (s.word == DONE ==> s.installed == 1)
    && (s.word == IDLE ==> s.installed == 0)
    && (s.built.By? ==> s.built.t in s.threads)
    && (s.window && s.built != No ==> SettledOnce(s))
  }

  ghost predicate Inv(s: State) { WordOk(s) && forall t :: t in s.threads ==> ThreadOk(s, t) }

  /** Nothing another thread relies on is taken away. */
  predicate Respects(s: State, s': State, t: Tid) {
    && s'.window == s.window
    && (s'.holder == s.holder || (s.holder == None && s'.holder == Some(t)) || (s.holder == Some(t) && s'.holder == None))
    && (s'.built == s.built || (s.built == No && s'.built == By(t)) || (s.built == By(t) && s'.built == Yes))
    && (s.holder == Some(t) || (s'.installed == s.installed && s'.failed == s.failed))
    && (SettledOnce(s) ==> SettledOnce(s'))
    && (s.word == IN_PROGRESS ==> s'.word == IN_PROGRESS || SettledOnce(s'))
  }

  /** It is enough to look at the word and at the thread that moved. */
  lemma OwnStepKeepsInv(s: State, s': State, t: Tid)
    requires Inv(s) && Respects(s, s', t) && WordOk(s')
    requires t in s'.threads && ThreadOk(s', t)
    requires forall u :: u in s'.threads && u != t ==> u in s.threads && s'.threads[u] == s.threads[u]
    ensures Inv(s')
  {
    hide ShapeOk, Top, SettledOnce, WordOk;
    forall u | u in s'.threads && u != t ensures ThreadOk(s', u) { assert ThreadOk(s, u); }
  }

  lemma AllocateKeepsInv(s: State, a: Action)
    requires Inv(s) && Enabled(s, a) && a.step.SAllocate?
    ensures Inv(Apply(s, a))
  {
    assert ThreadOk(s, a.t);
    OwnStepKeepsInv(s, Apply(s, a), a.t);
  }

  lemma RegisterKeepsInv(s: State, a: Action)
    requires Inv(s) && Enabled(s, a) && a.step.SRegister?
    ensures Inv(Apply(s, a))
  {
    assert ThreadOk(s, a.t);
    OwnStepKeepsInv(s, Apply(s, a), a.t);
  }

  lemma CheckKeepsInv(s: State, a: Action)
    requires Inv(s) && Enabled(s, a) && a.step.SCheck?
    ensures Inv(Apply(s, a))
  {
    assert ThreadOk(s, a.t);
    OwnStepKeepsInv(s, Apply(s, a), a.t);
  }

  lemma ClaimKeepsInv(s: State, a: Action)
    requires Inv(s) && Enabled(s, a) && a.step.SClaim?
    ensures Inv(Apply(s, a))
  {
    assert ThreadOk(s, a.t);
    OwnStepKeepsInv(s, Apply(s, a), a.t);
  }

  lemma OpenKeepsInv(s: State, a: Action)
    requires Inv(s) && Enabled(s, a) && a.step.SOpen?
    ensures Inv(Apply(s, a))
  {
    assert ThreadOk(s, a.t);
    OwnStepKeepsInv(s, Apply(s, a), a.t);
  }

  lemma InstallKeepsInv(s: State, a: Action)
    requires Inv(s) && Enabled(s, a) && a.step.SInstall?
    ensures Inv(Apply(s, a))
  {
    assert ThreadOk(s, a.t);
    OwnStepKeepsInv(s, Apply(s, a), a.t);
  }

  lemma PublishKeepsInv(s: State, a: Action)
    requires Inv(s) && Enabled(s, a) && a.step.SPublish?
    ensures Inv(Apply(s, a))
  {
    assert ThreadOk(s, a.t);
    OwnStepKeepsInv(s, Apply(s, a), a.t);
  }

  lemma SpinKeepsInv(s: State, a: Action)
    requires Inv(s) && Enabled(s, a) && a.step.SSpin?
    ensures Inv(Apply(s, a))
  {
    assert ThreadOk(s, a.t);
    OwnStepKeepsInv(s, Apply(s, a), a.t);
  }

  lemma StartKeepsInv(s: State, a: Action)
    requires Inv(s) && Enabled(s, a) && a.step.SStart?
    ensures Inv(Apply(s, a))
  {
    assert ThreadOk(s, a.t);
    var s', th := Apply(s, a), s.threads[a.t];
    if s.built == Yes {
      assert s'.threads[a.t] == Pop(th);
    } else {
      assert s'.threads[a.t].calls == th.calls[..|th.calls| - 1] + [Building(th.bootstrapping)];
    }
    assert ShapeOk(s.window, s'.threads[a.t]);
    hide ShapeOk;
    OwnStepKeepsInv(s, s', a.t);
  }

  lemma FinishKeepsInv(s: State, a: Action)
    requires Inv(s) && Enabled(s, a) && a.step.SFinish?
    ensures Inv(Apply(s, a))
  {
    assert ThreadOk(s, a.t);
    OwnStepKeepsInv(s, Apply(s, a), a.t);
  }

  lemma StepInv(s: State, a: Action)
    requires Inv(s) && Enabled(s, a)
    ensures Inv(Apply(s, a)) && Apply(s, a).window == s.window
  {
    hide Inv;
    match a.step
    case SAllocate => AllocateKeepsInv(s, a);
    case SRegister => RegisterKeepsInv(s, a);
    case SCheck => CheckKeepsInv(s, a);
    case SClaim => ClaimKeepsInv(s, a);
    case SOpen => OpenKeepsInv(s, a);
    case SInstall(_) => InstallKeepsInv(s, a);
    case SPublish => PublishKeepsInv(s, a);
    case SSpin => SpinKeepsInv(s, a);
    case SStart => StartKeepsInv(s, a);
    case SFinish => FinishKeepsInv(s, a);
  }

  lemma {:induction false} RunInv(s: State, acts: seq<Action>, s': State)
    requires Inv(s) && Run(s, acts, s')
    ensures Inv(s') && s'.window == s.window
    decreases acts
  {
    if acts != [] {
      StepInv(s, acts[0]);
      hide Inv, Enabled, Apply;
      RunInv(Apply(s, acts[0]), acts[1..], s');
    }
  }

  lemma Reached(s0: State, acts: seq<Action>, s: State)
    requires Init(s0) && Run(s0, acts, s)
    ensures Inv(s) && s.window == s0.window
  {
    assert Inv(s0);
    RunInv(s0, acts, s);
  }

  // ---- theorems ----

  /** At most one thread is between claim and publication, and at most one installation succeeds. */
  lemma OneInstaller(s0: State, acts: seq<Action>, s: State, t: Tid, u: Tid)
    requires Init(s0) && Run(s0, acts, s) && t in s.threads && u in s.threads
    ensures HasClaim(s.threads[t]) && HasClaim(s.threads[u]) ==> t == u
    ensures s.installed <= 1
    ensures InInstaller(s, t) ==> s.installed == 0 && HasClaim(s.threads[t])
  {
    Reached(s0, acts, s);
    assert ThreadOk(s, t) && ThreadOk(s, u);
    if s.holder.Some? { assert ThreadOk(s, s.holder.value); }
  }

  /** `registered` answers yes exactly when an installation has succeeded and been published. */
  lemma RegisteredIffInstalled(s0: State, acts: seq<Action>, s: State)
    requires Init(s0) && Run(s0, acts, s)
    ensures s.word == DONE <==> s.installed == 1 && forall t :: t in s.threads ==> !HasClaim(s.threads[t])
  {
    Reached(s0, acts, s);
    if s.holder.Some? { assert ThreadOk(s, s.holder.value) && HasClaim(s.threads[s.holder.value]); }
    forall t | t in s.threads && s.word == DONE ensures !HasClaim(s.threads[t]) { assert ThreadOk(s, t); }
  }

  /**
   A failed attempt can be claimed again: with nothing installed and no attempt open, the next
   claim succeeds, and a thread that was waiting moves on.
   */
  lemma FailureIsReclaimable(s0: State, acts: seq<Action>, s: State, t: Tid)
    requires Init(s0) && Run(s0, acts, s) && t in s.threads
    requires forall u :: u in s.threads ==> !HasClaim(s.threads[u])
    requires s.installed == 0
    ensures s.word == IDLE
    ensures Enabled(s, Action(t, SClaim)) ==> HasClaim(Apply(s, Action(t, SClaim)).threads[t])
    ensures Enabled(s, Action(t, SSpin)) ==> !Enabled(Apply(s, Action(t, SSpin)), Action(t, SSpin))
  {
    Reached(s0, acts, s);
    assert ThreadOk(s, t);
    assert s.holder.Some? && s.holder.value in s.threads ==> ThreadOk(s, s.holder.value);
  }

  /**
   Nobody waits for itself. A turn of the wait that does not end it finds another thread's
   attempt open, and a thread whose own initialization is running is inside it.
   */
  lemma WaitersWaitForAnother(s0: State, acts: seq<Action>, s: State, t: Tid)
    requires Init(s0) && Run(s0, acts, s) && t in s.threads
    ensures Enabled(s, Action(t, SSpin)) && Apply(s, Action(t, SSpin)) == s ==>
              s.holder.Some? && s.holder.value in s.threads && s.holder.value != t && HasClaim(s.threads[s.holder.value])
    ensures Top(s.threads[t]) == Some(Settled) ==> s.built != By(t)
  {
    Reached(s0, acts, s);
    assert ThreadOk(s, t);
    if s.holder.Some? { assert ThreadOk(s, s.holder.value); }
  }

  /**
   Calls from inside the installer. An allocation is served by the system allocator and never
   calls `global`; a registration finds the claim taken, does not wait, and returns to where
   the installer was.
   */
  lemma ReentrantCallReturns(s0: State, acts: seq<Action>, s: State, t: Tid)
    requires Init(s0) && s0.window && Run(s0, acts, s) && InInstaller(s, t)
    ensures Apply(s, Action(t, SAllocate)) == s.(served := s.served + 1)
    ensures Run(s, [Action(t, SRegister), Action(t, SClaim), Action(t, SSpin)], s)
  {
    Reached(s0, acts, s);
    assert ThreadOk(s, t);
    var th := s.threads[t];
    var s1 := Apply(s, Action(t, SRegister));
    assert s1 == Set(s, t, Push(th, Claiming(false)));
    var s2 := Apply(s1, Action(t, SClaim));
    assert s2 == Set(s, t, Push(th, Awaiting(false)));
    var s3 := Apply(s2, Action(t, SSpin));
    assert Pop(Push(th, Awaiting(false))) == th;
    assert s3.threads == s.threads;
    hide Inv, Apply;
    RunFirst(s2, Action(t, SSpin), [], s);
    RunFirst(s1, Action(t, SClaim), [Action(t, SSpin)], s);
    RunFirst(s, Action(t, SRegister), [Action(t, SClaim), Action(t, SSpin)], s);
  }

  lemma RunFirst(s: State, a: Action, rest: seq<Action>, s': State)
    requires Enabled(s, a) && Run(Apply(s, a), rest, s')
    ensures Run(s, [a] + rest, s')
  {
    assert ([a] + rest)[1..] == rest;
  }

  /**
   With the window, no thread is in the initializer unless the handlers are installed or some
   attempt has failed; and never two at once.
   */
  lemma NoUnguardedInit(s0: State, acts: seq<Action>, s: State, t: Tid)
    requires Init(s0) && s0.window && Run(s0, acts, s) && t in s.threads
    ensures InInitializer(s, t) ==> (s.word == DONE && s.installed == 1) || s.failed > 0
    ensures s.built != No ==> (s.word == DONE && s.installed == 1) || s.failed > 0
    ensures InInitializer(s, t) ==> forall u :: InInitializer(s, u) ==> u == t
  {
    Reached(s0, acts, s);
    assert ThreadOk(s, t);
    forall u | InInitializer(s, u) && InInitializer(s, t) ensures u == t { assert ThreadOk(s, u); }
  }

  /**
   Without it the registering thread's own allocation gets there: it does not wait for itself,
   so it goes on to build the allocator with its attempt still open and nothing settled.
   */
  lemma WindowIsNeeded(s0: State, t: Tid) returns (acts: seq<Action>, s: State)
    requires Init(s0) && !s0.window && t in s0.threads
    ensures Run(s0, acts, s) && InInitializer(s, t) && s.word == IN_PROGRESS && s.installed == 0 && s.failed == 0
  {
    var s1 := Apply(s0, Action(t, SAllocate));
    var s2 := Apply(s1, Action(t, SClaim));
    var s3 := Apply(s2, Action(t, SOpen));
    var outer := Thread([Installing(true, false)], true, false);
    assert s3.threads[t] == outer && s3.word == IN_PROGRESS;
    var nested, s' := NestedBuild(s3, t);
    acts, s := [Action(t, SAllocate), Action(t, SClaim), Action(t, SOpen)] + nested, s';
    hide Apply;
    RunFirst(s2, Action(t, SOpen), nested, s);
    RunFirst(s1, Action(t, SClaim), [Action(t, SOpen)] + nested, s);
    RunFirst(s0, Action(t, SAllocate), [Action(t, SClaim)] + ([Action(t, SOpen)] + nested), s);
    assert acts == [Action(t, SAllocate)] + ([Action(t, SClaim)] + ([Action(t, SOpen)] + nested));
  }

  /** From inside an installer without the window: allocate, find the claim taken, skip the wait, build. */
  lemma NestedBuild(s: State, t: Tid) returns (acts: seq<Action>, s': State)
    requires t in s.threads && s.threads[t] == Thread([Installing(true, false)], true, false)
    requires s.word == IN_PROGRESS && s.built == No
    ensures Run(s, acts, s') && InInitializer(s', t)
    ensures s'.word == IN_PROGRESS && s'.installed == s.installed && s'.failed == s.failed
  {
    var th := s.threads[t];
    var s1 := Apply(s, Action(t, SAllocate));
    assert s1 == Set(s, t, Push(th, Claiming(true)));
    var s2 := Apply(s1, Action(t, SClaim));
    assert s2 == Set(s, t, Push(th, Awaiting(true)));
    var s3 := Apply(s2, Action(t, SSpin));
    assert s3 == Set(s, t, Push(th, Settled));
    s' := Apply(s3, Action(t, SStart));
    acts := [Action(t, SAllocate), Action(t, SClaim), Action(t, SSpin), Action(t, SStart)];
    hide Apply;
    RunFirst(s3, Action(t, SStart), [], s');
    RunFirst(s2, Action(t, SSpin), [Action(t, SStart)], s');
    RunFirst(s1, Action(t, SClaim), [Action(t, SSpin), Action(t, SStart)], s');
    RunFirst(s, Action(t, SAllocate), [Action(t, SClaim), Action(t, SSpin), Action(t, SStart)], s');
  }

  /** Once the allocator is built, a lost registration is retried by the next call of `global`. */
  lemma FastPathRetries(s0: State, acts: seq<Action>, s: State, t: Tid) returns (s': State)
    requires Init(s0) && Run(s0, acts, s) && t in s.threads && s.threads[t].calls == []
    requires s.built == Yes && s.installed == 0 && forall u :: u in s.threads ==> !HasClaim(s.threads[u])
    ensures Run(s, [Action(t, SAllocate), Action(t, SCheck), Action(t, SClaim), Action(t, SOpen)], s') && InInstaller(s', t)
  {
    Reached(s0, acts, s);
    FailureIsReclaimable(s0, acts, s, t);
    assert ThreadOk(s, t);
    hide Inv;
    s' := RetryRun(s, t);
  }

  lemma RetryRun(s: State, t: Tid) returns (s': State)
    requires t in s.threads && s.threads[t] == IDLE_THREAD && s.built == Yes && s.word == IDLE
    ensures Run(s, [Action(t, SAllocate), Action(t, SCheck), Action(t, SClaim), Action(t, SOpen)], s') && InInstaller(s', t)
  {
    var th := s.threads[t];
    var s1 := Apply(s, Action(t, SAllocate));
    assert s1 == Set(s, t, Push(th, FastPath));
    var s2 := Apply(s1, Action(t, SCheck));
    assert s2 == Set(s, t, Push(th, Claiming(false)));
    var s3 := Apply(s2, Action(t, SClaim));
    s' := Apply(s3, Action(t, SOpen));
    hide Apply;
    RunFirst(s3, Action(t, SOpen), [], s');
    RunFirst(s2, Action(t, SClaim), [Action(t, SOpen)], s');
    RunFirst(s1, Action(t, SCheck), [Action(t, SClaim), Action(t, SOpen)], s');
    RunFirst(s, Action(t, SAllocate), [Action(t, SCheck), Action(t, SClaim), Action(t, SOpen)], s');
  }
}

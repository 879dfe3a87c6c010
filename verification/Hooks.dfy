/**
 Ownership of C hook adapters: each hooked arena has one heap-allocated adapter, borrowed by
 the engine's hook backend and tracked in a registry so that destroying the arena can free it.

 Adapters are named by the order they were allocated in, since a freed address may be
 reused. Each C call is one step; what the engine answers is a parameter.
 */
module Hooks {
  import opened Vecs
  import opened Wrappers

  datatype Entry = Entry(id: int, adapter: int)

  datatype State = State(
    registry: seq<Entry>,
    backends: map<int, int>,     // engine: arena id -> adapter its hook backend borrows
    active: set<int>,            // engine: arenas that can be destroyed
    quarantined: set<int>,       // engine: arenas kept after a failed destroy; their ids are not reused
    boxes: set<int>,             // adapters allocated and not freed
    freed: multiset<int>,        // adapters freed
    madeFor: map<int, int>,      // arena each adapter was registered for
    next: int)

  datatype CreateOutcome = CreateFailed | Created(id: int)
  datatype DestroyOutcome = Clean | TeardownFailed | DrainFailed | Rejected

  // ---- the engine ----

  predicate IdIsFree(s: State, id: int) { id > 0 && id !in s.active && id !in s.quarantined }

  /** A clean destroy and a failed teardown both drop the backend; a failed drain keeps it. */
  function EngineDestroy(s: State, id: int, outcome: DestroyOutcome): (State, bool) {
    if id !in s.active || outcome == Rejected then (s, false)
    else
      var gone := s.(active := s.active - {id});
      match outcome
      case Clean => (gone.(backends := s.backends - {id}), true)
      case TeardownFailed => (gone.(backends := s.backends - {id}, quarantined := s.quarantined + {id}), false)
      case DrainFailed => (gone.(quarantined := s.quarantined + {id}), false)
      case Rejected => (s, false)
  }

  /** An arena without hooks, created through the ordinary call. */
  function PlainCreate(s: State, id: int): State {
    if IdIsFree(s, id) then s.(active := s.active + {id}) else s
  }

  // ---- the C calls ----

  function Free(s: State, adapter: int): State {
    s.(boxes := s.boxes - {adapter}, freed := s.freed + multiset{adapter})
  }

  /** Index of the first entry for `id`. */
  function Position(r: seq<Entry>, id: int): (p: Option<nat>)
    ensures p.Some? ==> p.value < |r| && r[p.value].id == id
    ensures p.Some? ==> forall i :: 0 <= i < p.value ==> r[i].id != id
    ensures p.None? ==> forall e :: e in r ==> e.id != id
  {
    First(r, (e: Entry) => e.id == id)
  }

  /** Forget the adapter tracked for `id`, if any, and free it. */
  function Reclaim(s: State, id: int): State {
    match Position(s.registry, id)
    case None => s
    case Some(i) => Free(s.(registry := SwapRemove(s.registry, i)), s.registry[i].adapter)
  }

  /** Returns the new arena's id, or 0. */
  function CreateHooked(s: State, vtableOk: bool, up: bool, outcome: CreateOutcome): (State, int) {
    if !vtableOk || !up then (s, 0)
    else
      var adapter := s.next;
      var s := s.(boxes := s.boxes + {adapter}, next := s.next + 1);
      if outcome.Created? && IdIsFree(s, outcome.id) then
        (s.(backends := s.backends[outcome.id := adapter], active := s.active + {outcome.id},
            registry := s.registry + [Entry(outcome.id, adapter)], madeFor := s.madeFor[adapter := outcome.id]),
         outcome.id)
      else (Free(s, adapter), 0)
  }

  /** Returns whether the arena was destroyed cleanly. */
  function Destroy(s: State, up: bool, id: int, outcome: DestroyOutcome): (State, bool) {
    if !up then (s, false)
    else
      var (s', ok) := EngineDestroy(s, id, outcome);
      (if id in s'.backends then s' else Reclaim(s', id), ok)
  }

  // ---- every run ----

  datatype Call =
    | CallCreate(vtableOk: bool, up: bool, created: CreateOutcome)
    | CallPlainCreate(id: int)
    | CallDestroy(up: bool, id: int, destroyed: DestroyOutcome)

  function Step(s: State, c: Call): State {
    match c
    case CallCreate(vtableOk, up, outcome) => CreateHooked(s, vtableOk, up, outcome).0
    case CallPlainCreate(id) => PlainCreate(s, id)
    case CallDestroy(up, id, outcome) => Destroy(s, up, id, outcome).0
  }

  function Run(s: State, calls: seq<Call>): State
    decreases calls
  {
    if calls == [] then s else Run(Step(s, calls[0]), calls[1..])
  }

  function Initially(): State { State([], map[], {}, {}, {}, multiset{}, map[], 0) }

  predicate Borrows(s: State, id: int, adapter: int) { id in s.backends && s.backends[id] == adapter }

  /** Registry entries and hook backends are the same pairs, one entry to an arena. */
  ghost predicate Corresponds(s: State) {
    && (forall i, j :: 0 <= i < j < |s.registry| ==> s.registry[i].id != s.registry[j].id)
    && (forall e :: e in s.registry ==> e.id in s.backends && s.backends[e.id] == e.adapter)
    && (forall id :: id in s.backends ==> Entry(id, s.backends[id]) in s.registry)
  }

  /** The adapters alive are those the backends borrow; every other one was freed, once. */
  ghost predicate Owned(s: State) {
    && (forall id :: id in s.backends ==>
          s.backends[id] in s.boxes && s.backends[id] in s.madeFor && s.madeFor[s.backends[id]] == id)
    && (forall a :: a in s.boxes ==>
          0 <= a < s.next && a in s.madeFor && s.madeFor[a] in s.backends && s.backends[s.madeFor[a]] == a)
    && (forall a :: a in s.freed ==> s.freed[a] == 1 && 0 <= a < s.next && a !in s.boxes)
    && (forall a :: 0 <= a < s.next ==> a in s.boxes || a in s.freed)
  }

  ghost predicate Inv(s: State) {
    && Corresponds(s) && Owned(s) && s.next >= 0
    && forall id :: id in s.backends ==> id in s.active || id in s.quarantined
  }

  /** A fresh adapter registered for a free id. */
  lemma RegisteredKeepsInv(s: State, s': State, id: int)
    requires Inv(s) && IdIsFree(s, id)
    requires s' == State(s.registry + [Entry(id, s.next)], s.backends[id := s.next], s.active + {id}, s.quarantined,
                         s.boxes + {s.next}, s.freed, s.madeFor[s.next := id], s.next + 1)
    ensures Inv(s')
  {
    assert id !in s.backends;
    RegisteredCorresponds(s, s', id);
    hide Corresponds;
  }

  lemma RegisteredCorresponds(s: State, s': State, id: int)
    requires Corresponds(s) && id !in s.backends
    requires s'.registry == s.registry + [Entry(id, s.next)] && s'.backends == s.backends[id := s.next]
    ensures Corresponds(s')
  {
    assert forall e :: e in s'.registry <==> e in s.registry || e == Entry(id, s.next);
    forall i, j | 0 <= i < j < |s'.registry| ensures s'.registry[i].id != s'.registry[j].id {
      assert s.registry[i] in s.registry;
    }
  }

  /** A fresh adapter freed at once. */
  lemma FailedCreateKeepsInv(s: State)
    requires Inv(s)
    ensures Inv(Free(s.(boxes := s.boxes + {s.next}, next := s.next + 1), s.next))
  {
  }

  lemma CreateKeepsInv(s: State, vtableOk: bool, up: bool, outcome: CreateOutcome)
    requires Inv(s)
    ensures Inv(CreateHooked(s, vtableOk, up, outcome).0)
  {
    if vtableOk && up {
      if outcome.Created? && IdIsFree(s, outcome.id) {
        RegisteredKeepsInv(s, CreateHooked(s, vtableOk, up, outcome).0, outcome.id);
      } else {
        FailedCreateKeepsInv(s);
      }
    }
    hide Inv;
  }

  /** The entry removed is the only one for its arena. */
  lemma RemovedEntry(r: seq<Entry>, i: nat, e: Entry)
    requires i < |r| && forall j, k :: 0 <= j < k < |r| ==> r[j].id != r[k].id
    ensures e in SwapRemove(r, i) <==> e in r && e.id != r[i].id
  {
    if e in SwapRemove(r, i) {
      var j :| 0 <= j < |r| - 1 && SwapRemove(r, i)[j] == e;
      assert r[if j == i then |r| - 1 else j] == e;
    }
    if e in r && e.id != r[i].id {
      var j :| 0 <= j < |r| && r[j] == e;
      assert SwapRemove(r, i)[if j == |r| - 1 then i else j] == e;
    }
  }

  /** Reclaiming right after the engine dropped the backend of `id` restores the invariant. */
  lemma DroppedThenReclaimed(s: State, s1: State, id: int)
    requires Inv(s) && s1.registry == s.registry && s1.boxes == s.boxes && s1.freed == s.freed
    requires s1.madeFor == s.madeFor && s1.next == s.next && s1.backends == s.backends - {id}
    requires forall x :: x in s.active || x in s.quarantined ==> x == id || x in s1.active || x in s1.quarantined
    ensures Inv(Reclaim(s1, id))
  {
    assert id in s.backends ==> Entry(id, s.backends[id]) in s.registry;
    var p := Position(s.registry, id);
    if p.Some? {
      assert s.registry[p.value] in s.registry;
      EntryDropped(s, Reclaim(s1, id), p.value);
    }
  }

  /** One entry, its backend and its adapter go together. */
  lemma EntryDropped(s: State, s': State, i: nat)
    requires Inv(s) && i < |s.registry| && s'.registry == SwapRemove(s.registry, i)
    requires var e := s.registry[i];
             && s'.backends == s.backends - {e.id} && s'.boxes == s.boxes - {e.adapter}
             && s'.freed == s.freed + multiset{e.adapter} && s'.madeFor == s.madeFor && s'.next == s.next
             && forall x :: x in s.active || x in s.quarantined ==> x == e.id || x in s'.active || x in s'.quarantined
    ensures Inv(s')
  {
    var e := s.registry[i];
    assert e in s.registry;
    forall f ensures f in s'.registry <==> f in s.registry && f.id != e.id { RemovedEntry(s.registry, i, f); }
    forall x | x in s'.backends ensures Entry(x, s'.backends[x]) in s'.registry {
      assert Entry(x, s.backends[x]) in s.registry;
    }
  }

  lemma DestroyKeepsInv(s: State, up: bool, id: int, outcome: DestroyOutcome)
    requires Inv(s)
    ensures Inv(Destroy(s, up, id, outcome).0)
  {
    var s1 := EngineDestroy(s, id, outcome).0;
    if up && id !in s1.backends {
      DroppedThenReclaimed(s, s1, id);
    }
  }

  lemma StepKeepsInv(s: State, c: Call)
    requires Inv(s)
    ensures Inv(Step(s, c))
  {
    match c
    case CallCreate(vtableOk, up, outcome) => CreateKeepsInv(s, vtableOk, up, outcome);
    case CallPlainCreate(_) =>
    case CallDestroy(up, id, outcome) => DestroyKeepsInv(s, up, id, outcome);
  }

  lemma {:induction false} RunKeepsInv(s: State, calls: seq<Call>)
    requires Inv(s)
    ensures Inv(Run(s, calls))
    decreases calls
  {
    if calls != [] {
      StepKeepsInv(s, calls[0]);
      RunKeepsInv(Step(s, calls[0]), calls[1..]);
    }
  }

  /** In every run the registry mirrors the engine's hook backends exactly. */
  lemma RegistryMirrorsBackends(calls: seq<Call>, id: int, adapter: int)
    ensures var s := Run(Initially(), calls);
            (id in s.backends && s.backends[id] == adapter) <==> Entry(id, adapter) in s.registry
  {
    RunKeepsInv(Initially(), calls);
  }

  /**
   In every run an adapter a backend borrows is alive, and an adapter no backend borrows has
   been freed exactly once: nothing leaks and nothing is freed twice or early.
   */
  lemma AdaptersFreedExactlyOnce(calls: seq<Call>, adapter: int)
    requires 0 <= adapter < Run(Initially(), calls).next
    ensures var s := Run(Initially(), calls);
            if exists id :: Borrows(s, id, adapter)
            then s.freed[adapter] == 0 && adapter in s.boxes
            else s.freed[adapter] == 1 && adapter !in s.boxes
  {
    RunKeepsInv(Initially(), calls);
    var s := Run(Initially(), calls);
    if adapter in s.boxes { assert Borrows(s, s.madeFor[adapter], adapter); }
  }

  // ---- the calls as the source makes them ----

  class HookApi {
    var registry: seq<Entry>
    // The engine's side.
    var backends: map<int, int>
    var active: set<int>
    var quarantined: set<int>
    // The heap's side: adapters are numbered as they are boxed.
    var next: int
    ghost var boxes: set<int>
    ghost var freed: multiset<int>
    ghost var madeFor: map<int, int>

    ghost function Now(): State
      reads this
    {
      State(registry, backends, active, quarantined, boxes, freed, madeFor, next)
    }

    constructor ()
      ensures Now() == Initially()
    {
      registry, backends, active, quarantined, next := [], map[], {}, {}, 0;
      boxes, freed, madeFor := {}, multiset{}, map[];
    }

    /** Frees a box; it must be live. */
    method Drop(adapter: int)
      requires adapter in boxes
      modifies this`boxes, this`freed
      ensures Now() == Free(old(Now()), adapter)
    {
      boxes := boxes - {adapter};
      freed := freed + multiset{adapter};
    }

    method ReclaimChooks(id: int)
      requires forall e :: e in registry ==> e.adapter in boxes
      modifies this`registry, this`boxes, this`freed
      ensures Now() == Reclaim(old(Now()), id)
    {
      var i := 0;
      while i < |registry| && registry[i].id != id
        invariant 0 <= i <= |registry|
        invariant forall k :: 0 <= k < i ==> registry[k].id != id
      {
        i := i + 1;
      }
      FirstMatch(registry, id, i);
      if i < |registry| {
        var adapter := registry[i].adapter;
        registry := SwapRemove(registry, i);
        Drop(adapter);
      }
    }

    method TopoArenaCreateHooked(vtableOk: bool, up: bool, outcome: CreateOutcome) returns (id: int)
      requires Inv(Now())
      modifies this
      ensures (Now(), id) == CreateHooked(old(Now()), vtableOk, up, outcome) && Inv(Now())
    {
      CreateKeepsInv(Now(), vtableOk, up, outcome);
      hide Inv;
      if !vtableOk || !up { return 0; }
      var adapter := next;
      next := next + 1;
      boxes := boxes + {adapter};
      if outcome.Created? && outcome.id > 0 && outcome.id !in active && outcome.id !in quarantined {
        id := outcome.id;
        backends := backends[id := adapter];
        active := active + {id};
        registry := registry + [Entry(id, adapter)];
        madeFor := madeFor[adapter := id];
      } else {
        Drop(adapter);
        id := 0;
      }
    }

    method TopoArenaDestroy(up: bool, id: int, outcome: DestroyOutcome) returns (ok: bool)
      requires Inv(Now())
      modifies this
      ensures (Now(), ok) == Destroy(old(Now()), up, id, outcome) && Inv(Now())
    {
      DestroyKeepsInv(Now(), up, id, outcome);
      assert forall e :: e in registry ==> e.adapter in boxes;
      hide Inv, Corresponds, Owned;
      if !up { return false; }
      ok := id in active && outcome == Clean;
      if id in active && outcome != Rejected {
        active := active - {id};
        if outcome != DrainFailed { backends := backends - {id}; }
        if outcome != Clean { quarantined := quarantined + {id}; }
      }
      if id !in backends { ReclaimChooks(id); }
    }
  }

  lemma FirstMatch(r: seq<Entry>, id: int, i: nat)
    requires i <= |r| && (forall k :: 0 <= k < i ==> r[k].id != id) && (i < |r| ==> r[i].id == id)
    ensures Position(r, id) == if i < |r| then Some(i) else None
  {
    if i < |r| { assert r[i] in r; }
  }
}

/**
 The backing-provider seam: regions, errors, and the capability lifecycle every backing
 resource walks once, from authorized untyped memory to recyclable untyped memory.
 */
module Backend {
  import opened Wrappers

  /** A view of provider-owned memory; anyone may forge one. */
  datatype Region = Region(base: nat, len: nat)

  datatype BackendError = OutOfMemory | InvalidRequest | Unsupported

  type Outcome = Result<(), BackendError>

  datatype ProviderState =
    | AuthorizedUntyped | ReservedUntyped | FrameCapMinted | MappedToServer | MappedToClient
    | AllocatorCommitted | AllocatorDirty | AllocatorMuzzyOrScrubbed
    | Unmapped | Revoked | RecyclableUntyped

  function Next(s: ProviderState): Option<ProviderState> {
    match s
    case AuthorizedUntyped => Some(ReservedUntyped)
    case ReservedUntyped => Some(FrameCapMinted)
    case FrameCapMinted => Some(MappedToServer)
    case MappedToServer => Some(MappedToClient)
    case MappedToClient => Some(AllocatorCommitted)
    case AllocatorCommitted => Some(AllocatorDirty)
    case AllocatorDirty => Some(AllocatorMuzzyOrScrubbed)
    case AllocatorMuzzyOrScrubbed => Some(Unmapped)
    case Unmapped => Some(Revoked)
    case Revoked => Some(RecyclableUntyped)
    case RecyclableUntyped => None
  }

  predicate CanTransition(s: ProviderState, to: ProviderState) { Next(s) == Some(to) }

  /** Runtime tracker of one resource's lifecycle. */
  class ProviderStateMachine {
    var state: ProviderState

    constructor ()
      ensures state == AuthorizedUntyped
    {
      state := AuthorizedUntyped;
    }

    constructor StartingAt(s: ProviderState)
      ensures state == s
    {
      state := s;
    }

    /** Takes the one legal step, or refuses and stays put. */
    method Advance(to: ProviderState) returns (r: Outcome)
      modifies this
      ensures state == Advanced(old(state), to)
      ensures r.Ok? <==> CanTransition(old(state), to)
    {
      if !CanTransition(state, to) {
        return Err(InvalidRequest);
      }
      state := to;
      return Ok(());
    }
  }

  function Advanced(s: ProviderState, to: ProviderState): ProviderState {
    if CanTransition(s, to) then to else s
  }

  // ---- whole lifecycles ----

  /** The states visited from `s` under a sequence of attempted steps, legal or not. */
  function Trace(s: ProviderState, attempts: seq<ProviderState>): (tr: seq<ProviderState>)
    ensures |tr| == |attempts| + 1 && tr[0] == s
    decreases attempts
  {
    if attempts == [] then [s] else [s] + Trace(Advanced(s, attempts[0]), attempts[1..])
  }

  /** Position in the chain. */
  function Rank(s: ProviderState): (r: nat)
    ensures r <= 10
  {
    match s
    case AuthorizedUntyped => 0
    case ReservedUntyped => 1
    case FrameCapMinted => 2
    case MappedToServer => 3
    case MappedToClient => 4
    case AllocatorCommitted => 5
    case AllocatorDirty => 6
    case AllocatorMuzzyOrScrubbed => 7
    case Unmapped => 8
    case Revoked => 9
    case RecyclableUntyped => 10
  }

  /** A client or the server still has the backing mapped. */
  predicate IsMapped(s: ProviderState) { 3 <= Rank(s) <= 7 }

  /** Any sequence of attempts moves one rank at a time, never back. */
  lemma {:induction false} TraceClimbs(s: ProviderState, attempts: seq<ProviderState>, i: nat)
    requires i < |attempts|
    ensures var tr := Trace(s, attempts);
            Rank(tr[i]) <= Rank(tr[i + 1]) <= Rank(tr[i]) + 1
    decreases i
  {
    var tail := Trace(Advanced(s, attempts[0]), attempts[1..]);
    if i > 0 {
      TraceClimbs(Advanced(s, attempts[0]), attempts[1..], i - 1);
      assert Trace(s, attempts)[i] == tail[i - 1] && Trace(s, attempts)[i + 1] == tail[i];
    }
  }

  /** Between two ranks the trace visits every rank. */
  lemma {:induction false} TraceVisits(s: ProviderState, attempts: seq<ProviderState>, i: nat, k: nat, rank: nat)
    returns (j: nat)
    requires i <= k <= |attempts|
    requires Rank(Trace(s, attempts)[i]) <= rank <= Rank(Trace(s, attempts)[k])
    ensures i <= j <= k && Rank(Trace(s, attempts)[j]) == rank
    decreases k - i
  {
    j := i;
    if Rank(Trace(s, attempts)[i]) < rank {
      TraceClimbs(s, attempts, i);
      j := TraceVisits(s, attempts, i + 1, k, rank);
    }
  }

  /** Whatever is attempted, a resource recycled after being mapped was first unmapped, then revoked. */
  lemma RecycledOnlyAfterUnmapThenRevoke(s: ProviderState, attempts: seq<ProviderState>, i: nat, k: nat)
    returns (u: nat, v: nat)
    requires i <= k <= |attempts|
    requires IsMapped(Trace(s, attempts)[i]) && Trace(s, attempts)[k] == RecyclableUntyped
    ensures i < u < v < k && Trace(s, attempts)[u] == Unmapped && Trace(s, attempts)[v] == Revoked
    ensures forall m :: u <= m <= k ==> !IsMapped(Trace(s, attempts)[m])
  {
    u := TraceVisits(s, attempts, i, k, 8);
    v := TraceVisits(s, attempts, u, k, 9);
    forall m | u <= m <= k ensures !IsMapped(Trace(s, attempts)[m]) {
      TraceNeverFalls(s, attempts, u, m);
    }
  }

  lemma {:induction false} TraceNeverFalls(s: ProviderState, attempts: seq<ProviderState>, i: nat, k: nat)
    requires i <= k <= |attempts|
    ensures Rank(Trace(s, attempts)[i]) <= Rank(Trace(s, attempts)[k])
    decreases k - i
  {
    if i < k {
      TraceClimbs(s, attempts, i);
      TraceNeverFalls(s, attempts, i + 1, k);
    }
  }

  /** Recyclable is the end: no attempt leaves it, and only there is nothing legal. */
  lemma RecyclableIsTerminal(s: ProviderState)
    ensures (forall to :: !CanTransition(s, to)) <==> s == RecyclableUntyped
  {
    if s != RecyclableUntyped { assert CanTransition(s, Next(s).value); }
  }
}

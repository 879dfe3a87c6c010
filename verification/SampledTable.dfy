/**
 The live sampled-object set: an open-addressing table over a fixed array, with linear
 probing and backward-shift deletion (no tombstones). Every operation is proved to act on
 the table exactly as on a finite map from address to record.

 The table is generic in its power-of-two capacity, as the source is. Address 0 marks an
 empty slot.
 */
module SampledTable {
  import opened Words
  import opened Wrappers

  datatype Record = Record(stackId: nat, bytes: nat, usable: nat, allocMs: nat)

  datatype Slot = Slot(addr: nat, rec: Record)

  const EMPTY: Slot := Slot(0, Record(0, 0, 0, 0))

  // ---- what each operation does to the map of live records ----

  function MaxLoad(cap: nat): nat { cap - cap / 8 }

  /** A new sample is dropped at the 7/8 load cap; a duplicate address is overwritten. */
  function Admit<V>(view: map<int, V>, cap: nat, addr: int, v: V): map<int, V> {
    if addr == 0 || |view| >= MaxLoad(cap) then view else view[addr := v]
  }

  /** A restored record is refused only by a full table or by a newer record in its place. */
  function PutBack<V>(view: map<int, V>, cap: nat, addr: int, v: V): map<int, V> {
    if addr == 0 || |view| >= cap || addr in view then view else view[addr := v]
  }

  function SaturatingInc(n: nat): nat { if n + 1 < W64 then n + 1 else n }

  // ---- probe geometry ----

  /** Steps a probe takes from slot `a` to slot `b` in a ring of `n` slots. */
  function Dist(n: nat, a: nat, b: nat): nat
    requires a < n && b < n
  {
    if a <= b then b - a else b + n - a
  }

  function NextSlot(n: nat, i: nat): (r: nat)
    requires i < n
    ensures r < n
  {
    if i + 1 == n then 0 else i + 1
  }

  /** The home slot: bits 29 and up of the mixed address, masked to the capacity. */
  function Home(n: nat, addr: nat): (r: nat)
    requires n > 0
    ensures r < n
  {
    ((addr * 0x9e37_79b9_7f4a_7c15) % W64 / 0x2000_0000) % n
  }

  predicate Full(s: seq<Slot>, i: nat)
    requires i < |s|
  {
    s[i].addr != 0
  }

  // ---- table invariants ----

  /** No address is stored twice. */
  ghost predicate Distinct(s: seq<Slot>) {
    forall i, j :: 0 <= i < j < |s| && Full(s, i) && Full(s, j) ==> s[i].addr != s[j].addr
  }

  /** Entry `i` is reachable past slot `k`: a probe from its home meets `i` first. */
  ghost predicate Reaches(s: seq<Slot>, i: nat, k: nat)
    requires i < |s| && k < |s|
  {
    var h := Home(|s|, s[i].addr);
    Dist(|s|, h, i) < Dist(|s|, h, k)
  }

  /** No empty slot interrupts the probe from an entry's home to the entry. */
  ghost predicate Chained(s: seq<Slot>) {
    forall i, k :: 0 <= i < |s| && 0 <= k < |s| && Full(s, i) && !Full(s, k) ==> Reaches(s, i, k)
  }

  ghost predicate Holds(s: seq<Slot>, a: nat) {
    exists i :: 0 <= i < |s| && Full(s, i) && s[i].addr == a
  }

  ghost predicate Stores(s: seq<Slot>, view: map<nat, Record>) {
    && (forall i :: 0 <= i < |s| && Full(s, i) ==> s[i].addr in view && view[s[i].addr] == s[i].rec)
    && (forall a :: a in view ==> Holds(s, a))
  }

  function Count(s: seq<Slot>): nat {
    if s == [] then 0 else Count(s[..|s| - 1]) + (if s[|s| - 1].addr != 0 then 1 else 0)
  }

  lemma {:induction false} CountUpdate(s: seq<Slot>, i: nat, v: Slot)
    requires i < |s|
    ensures Count(s[i := v]) + (if s[i].addr != 0 then 1 else 0) == Count(s) + (if v.addr != 0 then 1 else 0)
  {
    var n := |s| - 1;
    if i == n {
      assert s[i := v][..n] == s[..n];
    } else {
      assert s[i := v][..n] == s[..n][i := v];
      CountUpdate(s[..n], i, v);
    }
  }

  lemma {:induction false} CountBound(s: seq<Slot>)
    ensures Count(s) <= |s|
    ensures Count(s) == |s| <==> AllFull(s)
  {
    if s != [] {
      var n := |s| - 1;
      CountBound(s[..n]);
      assert forall i :: 0 <= i < n ==> Full(s[..n], i) == Full(s, i);
      if AllFull(s[..n]) && Full(s, n) {
        forall i | 0 <= i < |s| ensures Full(s, i) {
          if i < n { assert Full(s[..n], i); }
        }
      }
    }
  }

  ghost predicate AllFull(s: seq<Slot>) { forall i :: 0 <= i < |s| ==> Full(s, i) }

  /** The occupied-slot count is the number of records. */
  lemma {:induction false} CountIsSize(s: seq<Slot>, view: map<nat, Record>)
    requires Distinct(s) && Stores(s, view)
    ensures Count(s) == |view|
  {
    if s == [] {
      assert forall a :: a in view ==> Holds(s, a);
      assert view.Keys == {};
    } else {
      var n := |s| - 1;
      var last := s[n].addr;
      var rest := if last != 0 then view - {last} else view;
      PrefixStores(s, view, rest);
      CountIsSize(s[..n], rest);
      if last != 0 {
        assert Full(s, n);
        assert view.Keys == rest.Keys + {last};
      }
    }
  }

  lemma PrefixStores(s: seq<Slot>, view: map<nat, Record>, rest: map<nat, Record>)
    requires s != [] && Distinct(s) && Stores(s, view)
    requires rest == if s[|s| - 1].addr != 0 then view - {s[|s| - 1].addr} else view
    ensures Distinct(s[..|s| - 1]) && Stores(s[..|s| - 1], rest)
  {
  }

  ghost predicate WellFormed(s: seq<Slot>, view: map<nat, Record>) {
    Distinct(s) && Chained(s) && Stores(s, view) && 0 !in view
  }

  lemma EmptySlotExists(s: seq<Slot>, view: map<nat, Record>) returns (e: nat)
    requires WellFormed(s, view) && |view| < |s|
    ensures e < |s| && !Full(s, e)
  {
    CountIsSize(s, view);
    CountBound(s);
    e :| 0 <= e < |s| && !Full(s, e);
  }

  // ---- filling an empty slot ----

  /** Every slot a probe from `h` visits before `i` is occupied by some other address. */
  ghost predicate Probed(s: seq<Slot>, h: nat, i: nat, addr: nat)
    requires h < |s| && i < |s|
  {
    forall k :: 0 <= k < |s| && Dist(|s|, h, k) < Dist(|s|, h, i) ==> Full(s, k) && s[k].addr != addr
  }

  /** The first `c` slots a probe from `h` visits are all occupied by other addresses. */
  ghost predicate ProbedSteps(s: seq<Slot>, h: nat, c: nat, addr: nat)
    requires h < |s|
  {
    forall k :: 0 <= k < |s| && Dist(|s|, h, k) < c ==> Full(s, k) && s[k].addr != addr
  }

  lemma ProbeOneMore(s: seq<Slot>, h: nat, i: nat, c: nat, addr: nat)
    requires h < |s| && i < |s| && Dist(|s|, h, i) == c
    requires ProbedSteps(s, h, c, addr) && Full(s, i) && s[i].addr != addr
    ensures ProbedSteps(s, h, c + 1, addr)
    ensures c + 1 < |s| ==> Dist(|s|, h, NextSlot(|s|, i)) == c + 1
  {
  }

  lemma ProbeExhausted(s: seq<Slot>, view: map<nat, Record>, h: nat, addr: nat)
    requires Stores(s, view) && h < |s| && ProbedSteps(s, h, |s|, addr)
    ensures addr !in view
  {
  }

  /** The first empty slot of the probe proves the address absent. */
  lemma ProbeMisses(s: seq<Slot>, view: map<nat, Record>, addr: nat, i: nat)
    requires WellFormed(s, view) && addr != 0 && i < |s|
    requires !Full(s, i) && Probed(s, Home(|s|, addr), i, addr)
    ensures addr !in view
  {
  }

  /** A probe that meets another address moves one slot on, still short of the empty slot `e`. */
  lemma ProbeStep(s: seq<Slot>, h: nat, i: nat, e: nat, addr: nat)
    requires h < |s| && i < |s| && e < |s| && Probed(s, h, i, addr)
    requires Full(s, i) && s[i].addr != addr && !Full(s, e) && Dist(|s|, h, i) <= Dist(|s|, h, e)
    ensures var j := NextSlot(|s|, i);
            Probed(s, h, j, addr) && Dist(|s|, h, j) == Dist(|s|, h, i) + 1 <= Dist(|s|, h, e)
  {
  }

  lemma ProbeHits(s: seq<Slot>, view: map<nat, Record>, addr: nat, i: nat)
    requires WellFormed(s, view) && i < |s| && Full(s, i) && s[i].addr == addr
    ensures addr in view && s[i].rec == view[addr]
  {
  }

  lemma FillKeepsWellFormed(s: seq<Slot>, view: map<nat, Record>, i: nat, addr: nat, rec: Record)
    requires WellFormed(s, view) && addr != 0 && i < |s|
    requires !Full(s, i) && Probed(s, Home(|s|, addr), i, addr)
    ensures WellFormed(s[i := Slot(addr, rec)], view[addr := rec])
  {
    ProbeMisses(s, view, addr, i);
    var t := s[i := Slot(addr, rec)];
    assert forall k :: 0 <= k < |s| && k != i ==> t[k] == s[k] && (Full(t, k) <==> Full(s, k));
    forall j, k | 0 <= j < |t| && 0 <= k < |t| && Full(t, j) && !Full(t, k) ensures Reaches(t, j, k) {
      if j != i { assert Reaches(s, j, k); }
    }
    forall a | a in view[addr := rec] ensures Holds(t, a) {
      if a == addr { assert Full(t, i); } else {
        assert Holds(s, a);
        var k :| 0 <= k < |s| && Full(s, k) && s[k].addr == a;
        assert Full(t, k);
      }
    }
    forall j, k | 0 <= j < k < |t| && Full(t, j) && Full(t, k) ensures t[j].addr != t[k].addr {
      if j == i { assert s[k].addr in view; } else if k == i { assert s[j].addr in view; }
    }
  }

  lemma OverwriteKeepsWellFormed(s: seq<Slot>, view: map<nat, Record>, i: nat, rec: Record)
    requires WellFormed(s, view) && i < |s| && Full(s, i)
    ensures WellFormed(s[i := Slot(s[i].addr, rec)], view[s[i].addr := rec])
  {
    var t := s[i := Slot(s[i].addr, rec)];
    assert forall k :: 0 <= k < |s| ==> t[k].addr == s[k].addr && (Full(t, k) <==> Full(s, k));
    forall j, k | 0 <= j < |t| && 0 <= k < |t| && Full(t, j) && !Full(t, k) ensures Reaches(t, j, k) {
      assert Reaches(s, j, k);
    }
    forall a | a in view[s[i].addr := rec] ensures Holds(t, a) {
      assert Holds(s, a);
      var k :| 0 <= k < |s| && Full(s, k) && s[k].addr == a;
      assert Full(t, k);
    }
  }

  // ---- backward-shift deletion ----

  /** The source's test that slot `j`'s entry, at home `home`, may fill `hole`. */
  predicate CanMove(hole: nat, j: nat, home: nat) {
    if hole <= j then !(hole < home && home <= j) else !(home > hole || home <= j)
  }

  /** The cyclic window test says exactly that a probe from the home meets the hole first. */
  lemma CanMoveMeansHoleFirst(n: nat, hole: nat, j: nat, home: nat)
    requires hole < n && j < n && home < n && hole != j
    ensures CanMove(hole, j, home) <==> Dist(n, home, hole) < Dist(n, home, j)
  {
  }

  /** Reachability holds except, possibly, past the hole for entries not yet scanned. */
  ghost predicate ChainedBut(t: seq<Slot>, hole: nat, j: nat)
    requires hole < |t| && j < |t|
  {
    forall i, k :: 0 <= i < |t| && 0 <= k < |t| && Full(t, i) && !Full(t, k) ==>
      (k == hole && !(0 < Dist(|t|, hole, i) <= Dist(|t|, hole, j))) || Reaches(t, i, k)
  }

  /** Mid-deletion state: slot `hole` is to be read as empty; slots up to `j` are scanned. */
  ghost predicate HoleAt(s: seq<Slot>, hole: nat, j: nat, view: map<nat, Record>) {
    && hole < |s| && j < |s|
    && Distinct(s[hole := EMPTY]) && Stores(s[hole := EMPTY], view) && 0 !in view
    && ChainedBut(s[hole := EMPTY], hole, j)
  }

  lemma StartHole(s: seq<Slot>, view: map<nat, Record>, i: nat)
    requires WellFormed(s, view) && i < |s| && Full(s, i)
    ensures HoleAt(s, i, i, view - {s[i].addr})
  {
    var t := s[i := EMPTY];
    assert forall k :: 0 <= k < |s| && k != i ==> t[k] == s[k] && Full(t, k) == Full(s, k);
    forall j, k | 0 <= j < |t| && 0 <= k < |t| && Full(t, j) && !Full(t, k) && k != i ensures Reaches(t, j, k) {
      assert Reaches(s, j, k);
    }
    forall a | a in view - {s[i].addr} ensures Holds(t, a) {
      assert Holds(s, a);
      var k :| 0 <= k < |s| && Full(s, k) && s[k].addr == a;
      assert Full(t, k);
    }
    forall k | 0 <= k < |t| && Full(t, k) ensures t[k].addr in view - {s[i].addr} {
      assert Full(s, k);
    }
  }

  /** Reaching an empty slot ends the scan: nothing beyond it can have probed past the hole. */
  lemma StopHole(s: seq<Slot>, view: map<nat, Record>, hole: nat, j: nat, j': nat)
    requires HoleAt(s, hole, j, view) && j' == NextSlot(|s|, j)
    requires j' != hole && !Full(s, j')
    ensures WellFormed(s[hole := EMPTY], view)
  {
    var t := s[hole := EMPTY];
    forall i, k | 0 <= i < |t| && 0 <= k < |t| && Full(t, i) && !Full(t, k) ensures Reaches(t, i, k) {
      if k == hole && Dist(|t|, hole, i) > Dist(|t|, hole, j) {
        assert !Full(t, j') && Reaches(t, i, j');
      }
    }
  }

  lemma SkipEntry(s: seq<Slot>, view: map<nat, Record>, hole: nat, j: nat, j': nat)
    requires HoleAt(s, hole, j, view) && j' == NextSlot(|s|, j)
    requires j' != hole && Full(s, j') && !CanMove(hole, j', Home(|s|, s[j'].addr))
    ensures HoleAt(s, hole, j', view)
  {
    var t := s[hole := EMPTY];
    CanMoveMeansHoleFirst(|s|, hole, j', Home(|s|, s[j'].addr));
    forall i, k | 0 <= i < |t| && 0 <= k < |t| && Full(t, i) && !Full(t, k) &&
                  (k != hole || 0 < Dist(|t|, hole, i) <= Dist(|t|, hole, j')) ensures Reaches(t, i, k) {
      if k == hole && i == j' {
        assert Dist(|t|, Home(|t|, t[i].addr), i) != Dist(|t|, Home(|t|, t[i].addr), hole);
      }
    }
  }

  lemma MoveEntry(s: seq<Slot>, view: map<nat, Record>, hole: nat, j: nat, j': nat)
    requires HoleAt(s, hole, j, view) && j' == NextSlot(|s|, j)
    requires j' != hole && Full(s, j') && CanMove(hole, j', Home(|s|, s[j'].addr))
    ensures HoleAt(s[hole := s[j']], j', j', view)
  {
    var t := s[hole := EMPTY];
    var t' := s[hole := s[j']][j' := EMPTY];
    assert forall k :: 0 <= k < |s| && k != hole && k != j' ==> t'[k] == t[k] && Full(t', k) == Full(t, k);
    assert Full(t, j') && t'[hole] == t[j'];
    CanMoveMeansHoleFirst(|s|, hole, j', Home(|s|, s[j'].addr));
    forall i, k | 0 <= i < |t'| && 0 <= k < |t'| && Full(t', i) && !Full(t', k) && k != j' ensures Reaches(t', i, k) {
      if i == hole { assert Reaches(t, j', k); } else { assert Reaches(t, i, k); }
    }
    forall a | a in view ensures Holds(t', a) {
      assert Holds(t, a);
      var k :| 0 <= k < |t| && Full(t, k) && t[k].addr == a;
      if k == j' { assert Full(t', hole); } else { assert Full(t', k); }
    }
    forall a, b | 0 <= a < b < |t'| && Full(t', a) && Full(t', b) ensures t'[a].addr != t'[b].addr {
      if a == hole { assert t[j'].addr != t[b].addr; } else if b == hole { assert t[j'].addr != t[a].addr; }
    }
  }

  // ---- the in-place table ----

  /** The removal probe, bounded by the capacity: how far it went and where it stopped. */
  method ScanFor(a: array<Slot>, h: nat, addr: nat) returns (c: nat, i: nat)
    requires h < a.Length && addr != 0
    ensures c <= a.Length && ProbedSteps(a[..], h, c, addr)
    ensures c < a.Length ==> i < a.Length && Dist(a.Length, h, i) == c && (a[i].addr == 0 || a[i].addr == addr)
  {
    var n := a.Length;
    i, c := h, 0;
    while c < n && a[i].addr != 0 && a[i].addr != addr
      invariant i < n && c <= n
      invariant c < n ==> Dist(n, h, i) == c
      invariant ProbedSteps(a[..], h, c, addr)
    {
      ProbeOneMore(a[..], h, i, c, addr);
      i := NextSlot(n, i);
      c := c + 1;
    }
  }

  class SampledObjects {
    const slots: array<Slot>
    var len: nat
    var dropped: nat
    ghost var view: map<nat, Record>

    ghost predicate Valid()
      reads this, slots
    {
      && slots.Length > 0
      && WellFormed(slots[..], view)
      && len == |view| <= slots.Length
    }

    constructor (cap: nat)
      requires cap > 0
      ensures Valid() && fresh(slots)
      ensures slots.Length == cap && view == map[] && len == 0 && dropped == 0
    {
      slots := new Slot[cap](_ => EMPTY);
      len, dropped := 0, 0;
      view := map[];
    }

    /** Linear probe from the home slot: the entry's slot, or the first empty one. */
    method Probe(addr: nat) returns (i: nat)
      requires Valid() && addr != 0 && len < slots.Length
      ensures i < slots.Length
      ensures addr in view <==> Full(slots[..], i)
      ensures addr in view ==> slots[i].addr == addr && slots[i].rec == view[addr]
      ensures addr !in view ==> Probed(slots[..], Home(slots.Length, addr), i, addr)
    {
      var n := slots.Length;
      ghost var s := slots[..];
      ghost var h := Home(n, addr);
      ghost var e := EmptySlotExists(s, view);
      i := Home(n, addr);
      assert Probed(s, h, i, addr) && Dist(n, h, i) <= Dist(n, h, e);
      hide WellFormed, Probed, Dist, NextSlot, Home;
      while slots[i].addr != 0 && slots[i].addr != addr
        invariant i < n
        invariant Dist(n, h, i) <= Dist(n, h, e)
        invariant Probed(s, h, i, addr)
        decreases n - Dist(n, h, i)
      {
        ProbeStep(s, h, i, e, addr);
        i := NextSlot(n, i);
      }
      if slots[i].addr == 0 {
        ProbeMisses(s, view, addr, i);
      } else {
        ProbeHits(s, view, addr, i);
      }
    }

    /** Record a sampled allocation; `ok` says the record is newly tracked. */
    method OnAlloc(addr: nat, rec: Record) returns (ok: bool)
      requires Valid()
      modifies this, slots
      ensures Valid()
      ensures view == Admit(old(view), slots.Length, addr, rec)
      ensures ok <==> addr != 0 && |old(view)| < MaxLoad(slots.Length) && addr !in old(view)
      ensures dropped == if addr != 0 && |old(view)| >= MaxLoad(slots.Length) then SaturatingInc(old(dropped)) else old(dropped)
    {
      if addr == 0 { return false; }
      if len >= MaxLoad(slots.Length) {
        dropped := SaturatingInc(dropped);
        return false;
      }
      var i := Probe(addr);
      ghost var s := slots[..];
      if slots[i].addr == 0 {
        FillKeepsWellFormed(s, view, i, addr, rec);
        slots[i] := Slot(addr, rec);
        len := len + 1;
        ok := true;
      } else {
        OverwriteKeepsWellFormed(s, view, i, rec);
        slots[i] := Slot(addr, rec);
        ok := false;
      }
      assert slots[..] == s[i := Slot(addr, rec)];
      view := view[addr := rec];
    }

    /** Put back a record taken for a realloc that then failed. */
    method OnAllocRestore(addr: nat, rec: Record) returns (ok: bool)
      requires Valid()
      modifies this, slots
      ensures Valid()
      ensures view == PutBack(old(view), slots.Length, addr, rec)
      ensures ok <==> addr != 0 && |old(view)| < slots.Length && addr !in old(view)
      ensures dropped == if addr != 0 && |old(view)| >= slots.Length then SaturatingInc(old(dropped)) else old(dropped)
    {
      if addr == 0 { return false; }
      if len >= slots.Length {
        dropped := SaturatingInc(dropped);
        return false;
      }
      var i := Probe(addr);
      ghost var s := slots[..];
      if slots[i].addr != 0 { return false; }
      FillKeepsWellFormed(s, view, i, addr, rec);
      slots[i] := Slot(addr, rec);
      assert slots[..] == s[i := Slot(addr, rec)];
      len := len + 1;
      view := view[addr := rec];
      return true;
    }

    /** The slot holding `addr`, if any does. */
    method Find(addr: nat) returns (r: Option<nat>)
      requires Valid() && addr != 0
      ensures r.Some? <==> addr in view
      ensures r.Some? ==> r.value < slots.Length && slots[r.value].addr == addr && slots[r.value].rec == view[addr]
    {
      var h := Home(slots.Length, addr);
      var c, i := ScanFor(slots, h, addr);
      ghost var s := slots[..];
      if c == slots.Length {
        ProbeExhausted(s, view, h, addr);
        r := None;
      } else if slots[i].addr == 0 {
        ProbeMisses(s, view, addr, i);
        r := None;
      } else {
        assert Full(s, i);
        r := Some(i);
      }
    }

    /**
     Resolve and remove the record for `addr`. On a full table a hit never returns (see
     `RemovalStopsExactlyWhenASlotIsEmpty`), so the full table is admitted only for a miss.
     */
    method OnFree(addr: nat) returns (r: Option<Record>)
      requires Valid() && (len < slots.Length || addr !in view)
      modifies this, slots
      ensures Valid() && dropped == old(dropped)
      ensures view == old(view) - {addr}
      ensures r == if addr in old(view) then Some(old(view)[addr]) else None
    {
      if addr == 0 {
        assert view - {addr} == view;
        return None;
      }
      var i := Find(addr);
      if i.None? {
        assert view - {addr} == view;
        return None;
      }
      r := Some(slots[i.value].rec);
      RemoveAt(i.value);
      len := len - 1;
    }

    /** Knuth's Algorithm R: empty slot `i`, pulling back later entries of its probe chain. */
    method RemoveAt(i: nat)
      requires Valid() && len < slots.Length && i < slots.Length && slots[i].addr != 0
      modifies this`view, slots
      ensures WellFormed(slots[..], view)
      ensures view == old(view) - {old(slots[i].addr)}
    {
      var n := slots.Length;
      ghost var s := slots[..];
      ghost var e := EmptySlotExists(s, view);
      ghost var addr := slots[i].addr;
      ghost var rest := view - {addr};
      StartHole(s, view, i);
      var hole, j := i, i;
      while true
        invariant slots[..] == s && |s| == n && view == old(view)
        invariant hole < n && j < n && HoleAt(s, hole, j, rest)
        invariant s[hole].addr != 0 && s[e].addr == 0
        invariant Dist(n, i, hole) <= Dist(n, i, j) < Dist(n, i, e)
        decreases n - Dist(n, i, j)
      {
        ghost var j0 := j;
        j := NextSlot(n, j);
        Advance(n, i, hole, j0, j, e);
        if slots[j].addr == 0 {
          StopHole(s, rest, hole, j0, j);
          break;
        }
        if CanMove(hole, j, Home(n, slots[j].addr)) {
          MoveEntry(s, rest, hole, j0, j);
          slots[hole] := slots[j];
          s := s[hole := s[j]];
          hole := j;
        } else {
          SkipEntry(s, rest, hole, j0, j);
        }
      }
      slots[hole] := EMPTY;
      assert slots[..] == s[hole := EMPTY];
      view := rest;
    }
  }

  /** The cursor moves one slot on, stays off the hole, and does not pass the empty slot. */
  lemma Advance(n: nat, i: nat, hole: nat, j: nat, j': nat, e: nat)
    requires i < n && hole < n && j < n && e < n && j' == NextSlot(n, j)
    requires Dist(n, i, hole) <= Dist(n, i, j) < Dist(n, i, e)
    ensures j' < n && Dist(n, i, j') == Dist(n, i, j) + 1 <= Dist(n, i, e)
    ensures j' != hole && (j' == e <==> Dist(n, i, j') == Dist(n, i, e))
  {
  }

  // ---- when the deletion scan stops ----

  /** The deletion loop's state: running with a hole and a cursor, or stopped. */
  datatype Scan = Running(s: seq<Slot>, hole: nat, j: nat) | Stopped(s: seq<Slot>)

  predicate ScanOk(st: Scan) {
    st.Running? ==> st.hole < |st.s| && st.j < |st.s| && st.s[st.hole].addr != 0
  }

  /** One pass through the loop body of `RemoveAt`. */
  function ScanStep(st: Scan): (r: Scan)
    requires ScanOk(st)
    ensures ScanOk(r) && |r.s| == |st.s|
  {
    match st
    case Stopped(_) => st
    case Running(s, hole, j) =>
      var j' := NextSlot(|s|, j);
      if s[j'].addr == 0 then Stopped(s[hole := EMPTY])
      else if CanMove(hole, j', Home(|s|, s[j'].addr)) then Running(s[hole := s[j']], j', j')
      else Running(s, hole, j')
  }

  function Scans(st: Scan, n: nat): (r: Scan)
    requires ScanOk(st)
    ensures ScanOk(r)
    decreases n
  {
    if n == 0 then st else Scans(ScanStep(st), n - 1)
  }

  /** With every slot occupied the scan never meets an empty slot, however long it runs. */
  lemma {:induction false} FullTableScanNeverStops(st: Scan, n: nat)
    requires ScanOk(st) && st.Running? && AllFull(st.s)
    ensures Scans(st, n).Running?
    decreases n
  {
    if n > 0 {
      var j' := NextSlot(|st.s|, st.j);
      assert Full(st.s, j');
      var st' := ScanStep(st);
      assert forall k :: 0 <= k < |st'.s| ==> Full(st.s, k) && st'.s[k].addr != 0;
      FullTableScanNeverStops(st', n - 1);
    }
  }

  /** With slot `e` empty the scan stops no later than on reaching it. */
  lemma {:induction false} ScanStopsByEmptySlot(st: Scan, e: nat)
    requires ScanOk(st) && st.Running? && e < |st.s| && !Full(st.s, e) && st.j != e
    ensures Scans(st, Dist(|st.s|, st.j, e)).Stopped?
    decreases Dist(|st.s|, st.j, e)
  {
    var n := |st.s|;
    var d := Dist(n, st.j, e);
    var st' := ScanStep(st);
    if st'.Running? {
      assert !Full(st'.s, e);
      assert Dist(n, st'.j, e) == d - 1;
      ScanStopsByEmptySlot(st', e);
    } else {
      StoppedStays(st', d - 1);
    }
  }

  lemma {:induction false} StoppedStays(st: Scan, n: nat)
    requires st.Stopped?
    ensures Scans(st, n) == st
    decreases n
  {
    if n > 0 { StoppedStays(st, n - 1); }
  }

  /**
   The exact condition for `RemoveAt` to return: some slot of the table is empty. A table
   filled to its capacity makes the loop run forever.
   */
  lemma RemovalStopsExactlyWhenASlotIsEmpty(s: seq<Slot>, i: nat)
    requires i < |s| && Full(s, i)
    ensures (exists n: nat :: Scans(Running(s, i, i), n).Stopped?) <==> Count(s) < |s|
  {
    CountBound(s);
    if AllFull(s) {
      forall n: nat ensures Scans(Running(s, i, i), n).Running? {
        FullTableScanNeverStops(Running(s, i, i), n);
      }
    } else {
      var e :| 0 <= e < |s| && !Full(s, e);
      ScanStopsByEmptySlot(Running(s, i, i), e);
    }
  }
}

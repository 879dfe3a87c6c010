/**
 The POSIX backing provider as the source has it: a list of reservations that operations
 push to, search and remove from, and the system calls they make. Every method is proved
 against the specification functions of module `Posix`, of which module `PosixRuns` proves
 the run properties.
 */
module PosixProvider {
  import opened Backend
  import opened Pages
  import opened Posix
  import opened PosixRuns
  import opened Vecs
  import opened Words
  import opened Wrappers

  class PosixBackingProvider {
    const page: nat
    const guard: bool
    var owned: seq<Owned>
    // The kernel's side: what the system calls change.
    var mem: map<int, Page>
    var nonzero: set<int>
    var stray: set<int>

    ghost function Now(): State
      reads this
    {
      State(page, guard, mem, nonzero, owned, stray)
    }

    constructor (page: nat, guard: bool, mem: map<int, Page>, nonzero: set<int>)
      requires IsPow2(page) && forall a :: a in nonzero ==> PageOf(page, a) in mem
      ensures Start(Now()) && Now() == State(page, guard, mem, nonzero, [], mem.Keys)
    {
      this.page, this.guard := page, guard;
      this.owned := [];
      this.mem, this.nonzero, this.stray := mem, nonzero, mem.Keys;
    }

    /** Installs the kernel's new state. */
    method Kernel(s: State)
      modifies this`mem, this`nonzero, this`stray
      ensures mem == s.mem && nonzero == s.nonzero && stray == s.stray
    {
      mem, nonzero, stray := s.mem, s.nonzero, s.stray;
    }

    /** Map, over-mapping and trimming when the alignment exceeds the page. */
    method SysReserve(size: nat, align: nat, k: MapAnswer) returns (r: Result<(nat, nat), BackendError>)
      requires page > 0 && size > 0 && IsPow2(align)
      modifies this`mem, this`nonzero, this`stray
      ensures var (s', done) := AfterReserve(old(Now()), size, align, k);
              if r.Ok? then
                done == Ok(Region(r.value.0, size)) && s' == Push(Now(), Owned(r.value.0, r.value.1, align))
              else done == Err(r.error) && s' == Now()
    {
      hide MapSpan, Trimmed, FreeSpan, IsPow2, AlignUp;
      var rounded := RoundToPage(page, size);
      if rounded.None? { return Err(InvalidRequest); }
      var msize := rounded.value;
      if align <= page {
        if !Granted(State(page, guard, mem, nonzero, owned, stray), k, msize) { return Err(OutOfMemory); }
        Kernel(MapSpan(State(page, guard, mem, nonzero, owned, stray), k.p, k.p + msize / page));
        return Ok((k.p * page, msize));
      }
      var over := msize + align;
      if over >= W64 { return Err(InvalidRequest); }
      if !Granted(State(page, guard, mem, nonzero, owned, stray), k, over) { return Err(OutOfMemory); }
      var base := OverMap(k, msize, over, align);
      return Ok((base, msize));
    }

    /** Maps `over` bytes and gives back the slack on either side of the aligned range. */
    method OverMap(k: MapAnswer, msize: nat, over: nat, align: nat) returns (aligned: nat)
      requires page > 0 && align > 0 && k.MapAt?
      modifies this`mem, this`nonzero, this`stray
      ensures (Now(), aligned) == Trimmed(old(Now()), k, msize, over, align)
    {
      hide MapSpan, Munmap, AlignUp, FirstPage, EndPage;
      var raw := k.p * page;
      Kernel(MapSpan(State(page, guard, mem, nonzero, owned, stray), k.p, k.p + over / page));
      aligned := AlignUp(raw, align);
      var front := aligned - raw;
      var tail := over - front - msize;
      if front > 0 {
        Kernel(Munmap(State(page, guard, mem, nonzero, owned, stray), k.p, EndPage(page, raw, front), k.frontOk));
      }
      if tail > 0 {
        Kernel(Munmap(State(page, guard, mem, nonzero, owned, stray), FirstPage(page, aligned + msize),
                      EndPage(page, aligned + msize, tail), k.tailOk));
      }
    }

    method Reserve(size: nat, align: nat, k: MapAnswer) returns (r: Result<Region, BackendError>)
      requires Inv(Now())
      modifies this
      ensures (Now(), r) == AfterReserve(old(Now()), size, align, k) && Inv(Now())
    {
      DoKeepsInv(Now(), OpReserve(size, align, k));
      hide Inv;
      if size == 0 || !IsPow2(align) { return Err(InvalidRequest); }
      var got := SysReserve(size, align, k);
      if got.Err? { return Err(got.error); }
      owned := owned + [Owned(got.value.0, got.value.1, align)];
      return Ok(Region(got.value.0, size));
    }

    /** Finds a live reservation covering the region; the subrange's address, if it lies inside. */
    method FindOwnedSubrange(r: Region, offset: nat, len: nat) returns (addr: Option<nat>)
      ensures addr == OwnedSubrange(Now(), r, offset, len)
    {
      if offset + len > r.len { return None; }
      for i := 0 to |owned|
        invariant forall j :: 0 <= j < i ==> !Matches(owned[j], r)
      {
        if owned[i].base == r.base && r.len <= owned[i].mappedLen {
          assert Matches(owned[i], r);
          return Some(r.base + offset);
        }
      }
      return None;
    }

    /** Commit, decommit, the purges and protect: check ownership, then make the call. */
    method Physical(kind: Kind, r: Region, offset: nat, len: nat, k: SysAnswer) returns (done: Outcome)
      requires Inv(Now())
      modifies this`mem, this`nonzero, this`stray
      ensures (Now(), done) == AfterPhysical(old(Now()), kind, r, offset, len, k) && Inv(Now())
    {
      PhysicalKeepsInv(Now(), kind, r, offset, len, k);
      hide Inv;
      var addr := FindOwnedSubrange(r, offset, len);
      if addr.None? { return Err(InvalidRequest); }
      if len == 0 { return Ok(()); }
      var (s, res) := SysCall(State(page, guard, mem, nonzero, owned, stray), kind, addr.value, len, k);
      Kernel(s);
      return res;
    }

    method Release(r: Region, ok: bool) returns (done: Outcome)
      requires Inv(Now())
      modifies this
      ensures (Now(), done) == AfterRelease(old(Now()), r, ok) && Inv(Now())
    {
      DoKeepsInv(Now(), OpRelease(r, ok));
      hide Inv;
      var at := Position(owned, r.base);
      if at.None? { return Err(InvalidRequest); }
      var o := owned[at.value];
      owned := SwapRemove(owned, at.value);
      Kernel(Munmap(State(page, guard, mem, nonzero, owned, stray), Lo(page, o), Hi(page, o), ok));
      return if ok then Ok(()) else Err(InvalidRequest);
    }

    /** Dropping the provider unmaps every reservation; what fails to unmap is left behind. */
    method Drop(ok: nat -> bool)
      requires Inv(Now())
      modifies this
      ensures Inv(Now()) && owned == []
      ensures forall p :: p in mem <==> p in stray
      ensures (forall i :: 0 <= i < |old(owned)| ==> ok(i)) ==> forall p :: p in mem <==> p in old(stray)
    {
      var n, i := |owned|, 0;
      while owned != []
        invariant Inv(Now()) && i + |owned| == n
        invariant (forall j :: 0 <= j < i ==> ok(j)) ==> forall p :: p in stray <==> p in old(stray)
        decreases |owned|
      {
        var o := owned[0];
        DropFirst(Now(), ok(i));
        hide Inv;
        owned := owned[1..];
        Kernel(Munmap(State(page, guard, mem, nonzero, owned, stray), Lo(page, o), Hi(page, o), ok(i)));
        i := i + 1;
      }
      NothingListed(Now());
    }
  }

  lemma DropFirst(s: State, ok: bool)
    requires Inv(s) && s.owned != []
    ensures var o := s.owned[0];
            var s' := Munmap(s.(owned := s.owned[1..]), Lo(s.page, o), Hi(s.page, o), ok);
            Inv(s') && (ok ==> forall p :: p in s'.stray <==> p in s.stray)
  {
    var o := s.owned[0];
    var s' := Munmap(s.(owned := s.owned[1..]), Lo(s.page, o), Hi(s.page, o), ok);
    assert forall j, q :: Covers(s, j, q) ==> Listed(s, q);
    assert forall p :: p in s.stray ==> !Covers(s, 0, p);
    DroppedCovers(s, s');
    hide Lo, Hi, PageOf, IsPow2;
    assert forall p :: Covers(s, 0, p) ==> p in s.mem;
    assert forall j, p :: Covers(s', j, p) ==> Covers(s, j + 1, p) && Listed(s', p);
    forall j, k | 0 <= j < k < |s'.owned| ensures Apart(s.page, s'.owned[j], s'.owned[k]) {
      assert Apart(s.page, s.owned[j + 1], s.owned[k + 1]);
    }
  }

  lemma DroppedCovers(s: State, s': State)
    requires Inv(s) && s.owned != [] && s'.page == s.page && s'.owned == s.owned[1..]
    ensures forall j, p :: Covers(s', j, p) ==> Covers(s, j + 1, p)
    ensures forall p :: Listed(s', p) <==> Listed(s, p) && !Covers(s, 0, p)
  {
    hide IsPow2, Lo, Hi, PageOf;
    forall p ensures Listed(s', p) <==> Listed(s, p) && !Covers(s, 0, p) {
      if Listed(s', p) {
        var j :| Covers(s', j, p);
        assert Covers(s, j + 1, p);
        OthersClear(s, 0, j + 1, p);
      }
      if Listed(s, p) && !Covers(s, 0, p) {
        var j :| Covers(s, j, p);
        assert Covers(s', j - 1, p);
      }
    }
  }

  lemma NothingListed(s: State)
    requires Inv(s) && s.owned == []
    ensures forall p :: p in s.mem <==> p in s.stray
  {
  }
}

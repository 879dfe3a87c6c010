/**
 What holds in every run of the POSIX provider: the over-map-and-trim reservation leaves
 exactly one new aligned range, mapped pages are accounted for, other code's pages are never
 touched, unwritten pages read zero, and guard mode keeps decommitted pages inaccessible.
 */
module PosixRuns {
  import opened Backend
  import opened Pages
  import opened Posix
  import opened Vecs
  import opened Wrappers

  // ---- over-map and trim ----

  /** The aligned base, the size and the alignment, counted in pages. */
  lemma CountPages(page: nat, p: nat, size: nat, align: nat) returns (b: nat, n: nat, m: nat)
    requires IsPow2(page) && IsPow2(align) && page < align && size % page == 0
    ensures page > 0 && size == n * page && align == m * page
    ensures AlignUp(p * page, align) == b * page && (b * page) % align == 0
    ensures p <= b < p + m
  {
    LargerPow2IsMultiple(align, page);
    n, m := size / page, align / page;
    Whole(size, page);
    Whole(align, page);
    AlignUpIsLeast(p * page, align);
    MultipleOfMultiple(AlignUp(p * page, align), align, page);
    Whole(AlignUp(p * page, align), page);
    b := AlignUp(p * page, align) / page;
    PagesOrdered(page, p, b, m);
  }

  lemma PagesOrdered(page: nat, p: nat, b: nat, m: nat)
    requires page > 0 && p * page <= b * page < p * page + m * page
    ensures p <= b < p + m
  {
    assert (b + 1) * page == b * page + page;
    MulCancel(p, b, page);
    assert p * page + m * page == (p + m) * page;
    if b >= p + m { MulMonotone(p + m, b, page); }
  }

  /** Where the spans of page-multiple ranges begin and end. */
  lemma SpanInPages(page: nat, x: nat, n: nat)
    requires page > 0
    ensures FirstPage(page, x * page) == x && EndPage(page, x * page, n * page) == x + n
  {
    MulDiv(x, page);
    assert x * page + n * page == (x + n) * page;
    MulDiv(x + n, page);
    EndOfWholePages(page, x * page, n * page);
  }

  /** The parts of an over-mapped range: front slack, aligned range, tail slack. */
  datatype Parts = Parts(first: int, lo: int, hi: int, end: int)

  /** Front and tail slack are whole pages, and trimming them leaves the aligned range. */
  lemma TrimGeometry(page: nat, p: nat, size: nat, align: nat) returns (g: Parts)
    requires IsPow2(page) && IsPow2(align) && page < align && size % page == 0
    ensures page > 0
    ensures var raw, over := p * page, size + align;
            var base := AlignUp(raw, align);
            && 0 <= base - raw < align && base % align == 0
            && g.first == p && g.end == p + over / page
            && g.lo * page == base && (g.hi - g.lo) * page == size
            && g.first <= g.lo <= g.hi < g.end && (size > 0 ==> g.lo < g.hi)
            && EndPage(page, raw, base - raw) == g.lo && FirstPage(page, base) == g.lo
            && EndPage(page, base, size) == FirstPage(page, base + size) == g.hi
            && EndPage(page, base + size, over - (base - raw) - size) == g.end
  {
    hide FirstPage, EndPage, IsPow2;
    var b, n, m := CountPages(page, p, size, align);
    g := Parts(p, b, b + n, p + n + m);
    AlignUpIsLeast(p * page, align);
    hide AlignUp;
    Distribute(page, p, b, n, m);
    SpanInPages(page, p, b - p);
    SpanInPages(page, b, n);
    SpanInPages(page, b + n, p + m - b);
    MulDiv(n + m, page);
  }

  lemma Distribute(page: nat, p: nat, b: nat, n: nat, m: nat)
    requires p <= b < p + m
    ensures b * page - p * page == (b - p) * page
    ensures b * page + n * page == (b + n) * page
    ensures p * page + m * page - b * page == (p + m - b) * page
    ensures n * page + m * page == (n + m) * page
  {
  }

  /** A whole-page range ends where it should. */
  lemma EndOfWholePages(page: nat, addr: nat, len: nat)
    requires page > 0 && (addr + len) % page == 0
    ensures EndPage(page, addr, len) == (addr + len) / page
  {
    var q := (addr + len) / page;
    Whole(addr + len, page);
    assert (q + 1) * page == q * page + page;
    DivUnique(addr + len + page - 1, page, q);
  }

  /** A page of slack whose unmapping failed. */
  predicate Leaked(g: Parts, k: MapAnswer, p: int) {
    k.MapAt? && ((g.first <= p < g.lo && !k.frontOk) || (g.hi <= p < g.end && !k.tailOk))
  }

  /** `s'` is `s` with the pages of `[g.lo, g.hi)` newly mapped, plus any leaked slack. */
  ghost predicate NewRange(s: State, s': State, g: Parts, k: MapAnswer) {
    && g.first <= g.lo < g.hi <= g.end && FreeSpan(s, g.first, g.end)
    && (forall p :: p in s'.mem <==> p in s.mem || g.lo <= p < g.hi || Leaked(g, k, p))
    && (forall p :: p in s'.stray <==> p in s.stray || Leaked(g, k, p))
    && (forall p :: p in s.mem ==> p in s'.mem && s'.mem[p] == s.mem[p])
    && (forall p :: g.lo <= p < g.hi ==> p in s'.mem && s'.mem[p] == Page(!s.guard, false))
    && (forall a :: a in s'.nonzero <==> a in s.nonzero)
    && s'.owned == s.owned && s'.page == s.page && s'.guard == s.guard
  }

  lemma ExactRange(s: State, k: MapAnswer, msize: nat) returns (g: Parts)
    requires Inv(s) && msize > 0 && msize % s.page == 0 && Granted(s, k, msize)
    ensures NewRange(s, MapSpan(s, k.p, k.p + msize / s.page), g, k)
    ensures var o := Owned(k.p * s.page, msize, 1); g.first == Lo(s.page, o) == g.lo && Hi(s.page, o) == g.hi == g.end
  {
    var n := msize / s.page;
    g := Parts(k.p, k.p, k.p + n, k.p + n);
    Whole(msize, s.page);
    SpanInPages(s.page, k.p, n);
  }

  /** The over-map and its two trims, in page numbers. */
  function TrimSteps(s: State, g: Parts, k: MapAnswer): State
    requires s.page > 0 && k.MapAt?
  {
    var s := MapSpan(s, g.first, g.end);
    var s := if g.first < g.lo then Munmap(s, g.first, g.lo, k.frontOk) else s;
    if g.hi < g.end then Munmap(s, g.hi, g.end, k.tailOk) else s
  }

  ghost predicate KernelOk(s: State)
    requires s.page > 0
  {
    && (forall p :: p in s.stray ==> p in s.mem)
    && forall a :: a in s.nonzero ==> PageOf(s.page, a) in s.mem
  }

  lemma FrontTrim(s: State, s': State, g: Parts, k: MapAnswer)
    requires s.page > 0 && KernelOk(s) && k.MapAt? && g.first < g.lo < g.hi == g.end
    requires NewRange(s, s', g.(lo := g.first), k)
    ensures NewRange(s, Munmap(s', g.first, g.lo, k.frontOk), g, k)
  {
    hide PageOf;
  }

  lemma TailTrim(s: State, s': State, g: Parts, k: MapAnswer)
    requires s.page > 0 && KernelOk(s) && k.MapAt? && g.first <= g.lo < g.hi < g.end
    requires NewRange(s, s', g.(hi := g.end), k)
    ensures NewRange(s, Munmap(s', g.hi, g.end, k.tailOk), g, k)
  {
    hide PageOf;
  }

  lemma TrimStepsRange(s: State, g: Parts, k: MapAnswer)
    requires Inv(s) && k.MapAt?
    requires g.first <= g.lo < g.hi <= g.end && FreeSpan(s, g.first, g.end)
    ensures NewRange(s, TrimSteps(s, g, k), g, k)
  {
    assert KernelOk(s);
    var s1 := MapSpan(s, g.first, g.end);
    assert NewRange(s, s1, Parts(g.first, g.first, g.end, g.end), k);
    hide Inv, PageOf, NewRange, Munmap, MapSpan, KernelOk;
    if g.first < g.lo { FrontTrim(s, s1, Parts(g.first, g.lo, g.end, g.end), k); }
    var s2 := if g.first < g.lo then Munmap(s1, g.first, g.lo, k.frontOk) else s1;
    if g.hi < g.end { TailTrim(s, s2, g, k); }
  }

  lemma TrimmedRange(s: State, k: MapAnswer, msize: nat, align: nat) returns (g: Parts)
    requires Inv(s) && msize > 0 && msize % s.page == 0
    requires IsPow2(align) && s.page < align && Granted(s, k, msize + align)
    ensures var (s', base) := Trimmed(s, k, msize, msize + align, align);
            var o := Owned(base, msize, align);
            NewRange(s, s', g, k) && Lo(s.page, o) == g.lo && Hi(s.page, o) == g.hi && base % align == 0 &&
            g.first == k.p && g.lo * s.page == base
  {
    g := TrimGeometry(s.page, k.p, msize, align);
    hide FirstPage, EndPage, AlignUp, IsPow2, NewRange, MapSpan, Munmap, FreeSpan, Inv;
    TrimStepsRange(s, g, k);
    TrimmedInPages(s, k, g, msize, align);
  }

  lemma TrimmedInPages(s: State, k: MapAnswer, g: Parts, msize: nat, align: nat)
    requires s.page > 0 && align > 0 && k.MapAt? && 0 <= g.first <= g.lo <= g.hi < g.end
    requires var raw, over := k.p * s.page, msize + align;
             var base := AlignUp(raw, align);
             && g.first == k.p && g.end == k.p + over / s.page
             && g.lo * s.page == base && raw <= base
             && EndPage(s.page, raw, base - raw) == g.lo
             && FirstPage(s.page, base + msize) == g.hi
             && over - (base - raw) - msize > 0
             && EndPage(s.page, base + msize, over - (base - raw) - msize) == g.end
    ensures Trimmed(s, k, msize, msize + align, align) == (TrimSteps(s, g, k), AlignUp(k.p * s.page, align))
  {
    hide FirstPage, EndPage, AlignUp, MapSpan, Munmap;
    SameOrder(s.page, g.first, g.lo);
  }

  lemma SameOrder(page: nat, x: nat, y: nat)
    requires page > 0 && x <= y
    ensures x < y <==> y * page - x * page > 0
  {
    if x < y { MulMonotone(x + 1, y, page); }
  }

  lemma InUserSpace(page: nat, lo: nat, hi: nat, end: nat, msize: nat)
    requires lo <= hi <= end && (hi - lo) * page == msize && end * page <= USER_LIMIT
    ensures lo * page + msize <= USER_LIMIT
  {
    MulMonotone(hi, end, page);
    assert lo * page + (hi - lo) * page == hi * page;
  }

  /** What an accepted reservation is: one entry, one new range of pages. */
  ghost predicate Reserved(s: State, s': State, g: Parts, k: MapAnswer, o: Owned, size: nat, align: nat)
    requires s.page > 0
  {
    && NewRange(s, s'.(owned := s.owned), g, k) && s'.owned == s.owned + [o]
    && Lo(s.page, o) == g.lo && Hi(s.page, o) == g.hi && EntryOk(s.page, o)
    && o.align == align && size <= o.mappedLen < size + s.page
  }

  lemma ExactReserve(s: State, size: nat, msize: nat, align: nat, k: MapAnswer) returns (g: Parts, o: Owned)
    requires Inv(s) && IsPow2(align) && align <= s.page
    requires 0 < size <= msize < size + s.page && msize % s.page == 0 && Granted(s, k, msize)
    ensures o == Owned(k.p * s.page, msize, align)
    ensures Reserved(s, Push(MapSpan(s, k.p, k.p + msize / s.page), o), g, k, o, size, align)
  {
    g := ExactRange(s, k, msize);
    o := Owned(k.p * s.page, msize, align);
    MulDiv(k.p, s.page);
    LargerPow2IsMultiple(s.page, align);
    MultipleOfMultiple(k.p * s.page, s.page, align);
    Whole(msize, s.page);
    hide Inv, IsPow2, MapSpan;
    EntryFits(s, g, k, o);
  }

  lemma TrimmedReserve(s: State, size: nat, msize: nat, align: nat, k: MapAnswer) returns (g: Parts, o: Owned)
    requires Inv(s) && IsPow2(align) && s.page < align
    requires 0 < size <= msize < size + s.page && msize % s.page == 0 && Granted(s, k, msize + align)
    ensures var (s', base) := Trimmed(s, k, msize, msize + align, align);
            o == Owned(base, msize, align) && Reserved(s, Push(s', o), g, k, o, size, align)
  {
    g := TrimmedRange(s, k, msize, align);
    o := Owned(Trimmed(s, k, msize, msize + align, align).1, msize, align);
    hide Inv, IsPow2, MapSpan, AlignUp, Trimmed;
    EntryFits(s, g, k, o);
  }

  /** A plan that is not refused asks for enough whole pages. */
  lemma PlanIsEnough(page: nat, size: nat, align: nat)
    requires page > 0 && !PlanReserve(page, size, align).Refuse?
    ensures var plan := PlanReserve(page, size, align);
            && IsPow2(align) && 0 < size <= plan.size < size + page && plan.size % page == 0
            && (plan.MapExact? <==> align <= page)
            && (plan.MapOver? ==> plan.over == plan.size + align)
  {
    AlignUpIsLeast(size, page);
  }

  lemma ReserveEffect(s: State, size: nat, align: nat, k: MapAnswer) returns (g: Parts, o: Owned)
    requires Inv(s) && AfterReserve(s, size, align, k).1.Ok?
    ensures var (s', r) := AfterReserve(s, size, align, k);
            Reserved(s, s', g, k, o, size, align) && r.value == Region(o.base, size)
  {
    assert s.page > 0;
    hide Inv, IsPow2, PlanReserve, MapSpan, Trimmed, Granted, Reserved, Push;
    PlanIsEnough(s.page, size, align);
    match PlanReserve(s.page, size, align) {
      case MapExact(msize) => g, o := ExactReserve(s, size, msize, align, k);
      case MapOver(msize, _) => g, o := TrimmedReserve(s, size, msize, align, k);
    }
  }

  lemma EntryFits(s: State, g: Parts, k: MapAnswer, o: Owned)
    requires s.page > 0 && k.MapAt? && o.mappedLen > 0 && o.align > 0 && o.base % o.align == 0
    requires o.mappedLen % s.page == 0 && g.first >= 1 && o.base == g.lo * s.page
    requires g.first <= g.lo < g.hi <= g.end && g.end * s.page <= USER_LIMIT
    requires Lo(s.page, o) == g.lo && Hi(s.page, o) == g.hi
    ensures EntryOk(s.page, o)
  {
    MulDiv(g.lo, s.page);
    MulMonotone(1, g.lo, s.page);
    SumOfMultiples(o.base, o.mappedLen, s.page);
    EndOfWholePages(s.page, o.base, o.mappedLen);
    Whole(o.mappedLen, s.page);
    InUserSpace(s.page, g.lo, g.hi, g.end, o.mappedLen);
  }

  /** With the trims succeeding, reserve maps exactly one new range, aligned and just large enough. */
  lemma ReserveMapsExactlyOneRange(s: State, size: nat, align: nat, k: MapAnswer)
    returns (o: Owned)
    requires Inv(s) && AfterReserve(s, size, align, k).1.Ok? && k.frontOk && k.tailOk
    ensures var (s', r) := AfterReserve(s, size, align, k);
            && r.value == Region(o.base, size) && s'.owned == s.owned + [o]
            && o.base % align == 0 && o.base % s.page == 0 && o.mappedLen % s.page == 0
            && size <= o.mappedLen < size + s.page
            && (forall p :: Lo(s.page, o) <= p < Hi(s.page, o) ==> p !in s.mem)
            && (forall p :: p in s'.mem <==> p in s.mem || Lo(s.page, o) <= p < Hi(s.page, o))
            && (forall p :: p in s.mem ==> s'.mem[p] == s.mem[p])
            && (forall p :: Lo(s.page, o) <= p < Hi(s.page, o) ==> s'.mem[p].accessible == !s.guard)
            && (forall p :: p in s'.stray <==> p in s.stray)
            && (forall a :: a in s'.nonzero <==> a in s.nonzero)
  {
    var g;
    g, o := ReserveEffect(s, size, align, k);
    hide Inv, AfterReserve, IsPow2;
  }

  // ---- every operation keeps the invariant ----

  lemma EntryHasPages(s: State, o: Owned)
    requires s.page > 0 && EntryOk(s.page, o)
    ensures Lo(s.page, o) < Hi(s.page, o)
  {
    SumOfMultiples(o.base, o.mappedLen, s.page);
    EndOfWholePages(s.page, o.base, o.mappedLen);
    Whole(o.mappedLen, s.page);
    assert o.mappedLen / s.page > 0;
  }

  /** A range of pages none of which is mapped keeps clear of every reservation. */
  lemma ClearOfOwned(s: State, i: nat, lo: int, hi: int)
    requires Inv(s) && i < |s.owned| && lo < hi
    requires forall p :: lo <= p < hi ==> p !in s.mem
    ensures Hi(s.page, s.owned[i]) <= lo || hi <= Lo(s.page, s.owned[i])
  {
    var o := s.owned[i];
    EntryHasPages(s, o);
    var p := if Lo(s.page, o) < lo then lo else Lo(s.page, o);
    assert Covers(s, i, p) ==> p in s.mem;
  }

  lemma AddEntry(s: State, s': State, g: Parts, k: MapAnswer, o: Owned, size: nat, align: nat)
    requires Inv(s) && Reserved(s, s', g, k, o, size, align)
    ensures Inv(s')
  {
    hide IsPow2, Lo, Hi, PageOf;
    assert forall i, p :: Covers(s', i, p) ==> Covers(s, i, p) || (i == |s.owned| && g.lo <= p < g.hi);
    assert forall p :: g.lo <= p < g.hi ==> Covers(s', |s.owned|, p);
    assert forall i, p :: Covers(s, i, p) ==> Covers(s', i, p);
    forall p ensures Listed(s', p) <==> Listed(s, p) || g.lo <= p < g.hi {
      if Listed(s, p) {
        var i :| Covers(s, i, p);
        assert Covers(s', i, p);
      }
      assert g.lo <= p < g.hi ==> Covers(s', |s.owned|, p);
    }
    assert forall o :: o in s'.owned ==> EntryOk(s.page, o);
    forall i, j | 0 <= i < j < |s'.owned| ensures Apart(s.page, s'.owned[i], s'.owned[j]) {
      if j == |s.owned| {
        ClearOfOwned(s, i, g.lo, g.hi);
      } else {
        assert Apart(s.page, s.owned[i], s.owned[j]);
      }
    }
  }

  /** Same reservations, same mapped pages, no new nonzero byte off a mapped page. */
  lemma SamePagesKeepInv(s: State, s': State)
    requires Inv(s) && s'.page == s.page && s'.owned == s.owned && s'.stray == s.stray
    requires forall p :: p in s'.mem <==> p in s.mem
    requires forall a :: a in s'.nonzero ==> PageOf(s.page, a) in s.mem
    ensures Inv(s')
  {
    hide IsPow2, Lo, Hi, PageOf;
    assert forall i, p :: Covers(s', i, p) <==> Covers(s, i, p);
    forall p ensures Listed(s', p) <==> Listed(s, p) {
      if Listed(s, p) {
        var i :| Covers(s, i, p);
        assert Covers(s', i, p);
      }
    }
  }

  lemma PhysicalKeepsInv(s: State, kind: Kind, r: Region, offset: nat, len: nat, k: SysAnswer)
    requires Inv(s)
    ensures Inv(AfterPhysical(s, kind, r, offset, len, k).0)
  {
    hide Lo, Hi, PageOf, FirstPage, EndPage;
    var s' := AfterPhysical(s, kind, r, offset, len, k).0;
    SamePagesKeepInv(s, s');
  }

  /** Other reservations keep clear of the pages of reservation `i`. */
  lemma OthersClear(s: State, i: nat, j: nat, p: int)
    requires Inv(s) && i < |s.owned| && j < |s.owned| && i != j && Covers(s, j, p)
    ensures !Covers(s, i, p)
  {
  }

  /** Where entry `j` of the shortened list came from. */
  function Source(s: State, i: int, j: int): int { if j == i then |s.owned| - 1 else j }

  lemma RemovedCovers(s: State, s': State, i: nat)
    requires Inv(s) && i < |s.owned| && s'.page == s.page && s'.owned == SwapRemove(s.owned, i)
    ensures forall j: nat, p :: j < |s'.owned| ==> (Covers(s', j, p) <==> Covers(s, Source(s, i, j), p))
    ensures forall p :: Listed(s', p) <==> Listed(s, p) && !Covers(s, i, p)
  {
    hide IsPow2, Lo, Hi, PageOf;
    forall p ensures Listed(s', p) <==> Listed(s, p) && !Covers(s, i, p) {
      if Listed(s', p) {
        var j :| Covers(s', j, p);
        assert Covers(s, Source(s, i, j), p);
        OthersClear(s, i, Source(s, i, j), p);
      }
      if Listed(s, p) && !Covers(s, i, p) {
        var j :| Covers(s, j, p);
        assert Covers(s', if j == |s.owned| - 1 then i else j, p);
      }
    }
  }

  /** Dropping entry `i` and its pages, or leaving its pages stray, keeps the books. */
  lemma RemovedKeepsInv(s: State, s': State, i: nat, ok: bool)
    requires Inv(s) && i < |s.owned| && s'.page == s.page && s'.owned == SwapRemove(s.owned, i)
    requires forall p :: p in s'.mem <==> p in s.mem && !(ok && Covers(s, i, p))
    requires forall p :: p in s'.stray <==> p in s.stray || (!ok && Covers(s, i, p))
    requires forall a :: a in s'.nonzero ==> a in s.nonzero && PageOf(s.page, a) in s'.mem
    ensures Inv(s')
  {
    RemovedCovers(s, s', i);
    hide IsPow2, Lo, Hi, PageOf;
    assert forall p :: Covers(s, i, p) ==> p in s.mem;
    assert forall j, p :: Covers(s', j, p) ==> Listed(s', p);
    assert forall q :: q in s'.owned ==> q in s.owned;
    forall j, k | 0 <= j < k < |s'.owned| ensures Apart(s.page, s'.owned[j], s'.owned[k]) {
      var a, b := Source(s, i, j), Source(s, i, k);
      assert Apart(s.page, s.owned[if a < b then a else b], s.owned[if a < b then b else a]);
    }
    forall p | Listed(s, p) ensures p in s.mem {
      var j :| Covers(s, j, p);
    }
  }

  lemma RemoveEntry(s: State, i: nat, ok: bool)
    requires Inv(s) && i < |s.owned|
    ensures var o := s.owned[i];
            Inv(Munmap(s.(owned := SwapRemove(s.owned, i)), Lo(s.page, o), Hi(s.page, o), ok))
  {
    var o := s.owned[i];
    var s' := Munmap(s.(owned := SwapRemove(s.owned, i)), Lo(s.page, o), Hi(s.page, o), ok);
    assert forall j, q :: Covers(s, j, q) ==> Listed(s, q);
    assert forall p :: p in s.stray ==> !Covers(s, i, p);
    hide IsPow2, Lo, Hi, PageOf;
    RemovedKeepsInv(s, s', i, ok);
  }

  lemma OtherMapKeepsInv(s: State, lo: int, hi: int)
    requires Inv(s)
    ensures Inv(AfterOtherMap(s, lo, hi))
  {
    var s' := AfterOtherMap(s, lo, hi);
    hide IsPow2, Lo, Hi, PageOf;
    assert forall i, p :: Covers(s', i, p) <==> Covers(s, i, p);
    forall p ensures Listed(s', p) <==> Listed(s, p) {
      if Listed(s, p) {
        var i :| Covers(s, i, p);
        assert Covers(s', i, p);
      }
    }
  }

  lemma OtherUnmapKeepsInv(s: State, lo: int, hi: int)
    requires Inv(s)
    ensures Inv(AfterOtherUnmap(s, lo, hi))
  {
    var s' := AfterOtherUnmap(s, lo, hi);
    hide IsPow2, Lo, Hi, PageOf;
    if Span(lo, hi) <= s.stray {
      assert forall p :: lo <= p < hi ==> p in Span(lo, hi);
      assert forall i, p :: Covers(s', i, p) <==> Covers(s, i, p);
      forall p ensures Listed(s', p) <==> Listed(s, p) {
        if Listed(s, p) {
          var i :| Covers(s, i, p);
          assert Covers(s', i, p);
        }
      }
      assert forall i, p :: Covers(s, i, p) ==> Listed(s, p);
    }
  }

  lemma DoKeepsInv(s: State, op: Op)
    requires Inv(s)
    ensures Inv(Do(s, op))
  {
    match op {
      case OpReserve(size, align, k) =>
        if AfterReserve(s, size, align, k).1.Ok? {
          var g, o := ReserveEffect(s, size, align, k);
          AddEntry(s, Do(s, op), g, k, o, size, align);
        }
      case OpPhysical(kind, r, offset, len, k) => PhysicalKeepsInv(s, kind, r, offset, len, k);
      case OpRelease(r, ok) =>
        var at := Position(s.owned, r.base);
        if at.Some? { RemoveEntry(s, at.value, ok); }
      case Write(a, zero) => SamePagesKeepInv(s, Do(s, op));
      case Reclaim(p) => SamePagesKeepInv(s, Do(s, op));
      case OtherMap(lo, hi) => OtherMapKeepsInv(s, lo, hi);
      case OtherUnmap(lo, hi) => OtherUnmapKeepsInv(s, lo, hi);
    }
  }

  /** Before the provider's first call: every mapped page belongs to other code. */
  ghost predicate Start(s: State) { Inv(s) && s.owned == [] }

  lemma {:induction false} RunKeepsInv(s: State, ops: seq<Op>)
    requires Inv(s)
    ensures Inv(Run(s, ops))
    decreases ops
  {
    if ops != [] {
      DoKeepsInv(s, ops[0]);
      RunKeepsInv(Do(s, ops[0]), ops[1..]);
    }
  }

  /** The provider's own calls, stores and reclaims, every unmap succeeding. */
  predicate Clean(op: Op) {
    match op
    case OpReserve(_, _, k) => k.MapAt? ==> k.frontOk && k.tailOk
    case OpRelease(_, ok) => ok
    case OtherMap(_, _) => false
    case OtherUnmap(_, _) => false
    case _ => true
  }

  lemma CleanKeepsStray(s: State, op: Op)
    requires Inv(s) && Clean(op)
    ensures forall p :: p in Do(s, op).stray <==> p in s.stray
  {
    match op {
      case OpReserve(size, align, k) =>
        if AfterReserve(s, size, align, k).1.Ok? { var _, _ := ReserveEffect(s, size, align, k); }
      case OpRelease(r, ok) =>
        var at := Position(s.owned, r.base);
        if at.Some? {
          assert forall j, q :: Covers(s, j, q) ==> Listed(s, q);
          assert forall p :: p in s.stray ==> !Covers(s, at.value, p);
        }
      case _ =>
    }
  }

  /** While unmaps succeed, the mapped pages are exactly the reservations' pages and other code's. */
  lemma {:induction false} MappedIsOwned(s: State, ops: seq<Op>)
    requires Inv(s) && forall i :: 0 <= i < |ops| ==> Clean(ops[i])
    ensures Inv(Run(s, ops))
    ensures forall p :: p in Run(s, ops).mem <==> p in s.stray || Listed(Run(s, ops), p)
    decreases ops
  {
    if ops == [] {
      forall p | Listed(s, p) ensures p in s.mem {
        var i :| Covers(s, i, p);
      }
    } else {
      DoKeepsInv(s, ops[0]);
      CleanKeepsStray(s, ops[0]);
      hide Inv, Do, Clean;
      MappedIsOwned(Do(s, ops[0]), ops[1..]);
    }
  }

  // ---- a call never reaches pages outside the reservation it names ----

  /** Every page an accepted subrange spans belongs to one live reservation. */
  lemma SubrangeIsOwned(s: State, r: Region, offset: nat, len: nat) returns (i: nat)
    requires Inv(s) && OwnedSubrange(s, r, offset, len).Some?
    ensures i < |s.owned| && Matches(s.owned[i], r)
    ensures var addr := OwnedSubrange(s, r, offset, len).value;
            forall p :: FirstPage(s.page, addr) <= p < EndPage(s.page, addr, len) ==> Covers(s, i, p)
  {
    i :| 0 <= i < |s.owned| && Matches(s.owned[i], r);
    var o := s.owned[i];
    assert EntryOk(s.page, o);
    SpanInside(s.page, o.base, o.mappedLen, r.base + offset, len);
    SumOfMultiples(o.base, o.mappedLen, s.page);
    EndOfWholePages(s.page, o.base, o.mappedLen);
  }

  predicate ByProvider(op: Op) { op.OpReserve? || op.OpPhysical? || op.OpRelease? }

  /** Page `p` and its bytes are as they were. */
  ghost predicate SamePage(s: State, s': State, p: int)
    requires s.page > 0
  {
    && p in s.mem && p in s'.mem && s'.mem[p] == s.mem[p]
    && forall a :: PageOf(s.page, a) == p ==> (a in s'.nonzero <==> a in s.nonzero)
  }

  lemma StrayUncovered(s: State, i: int, p: int)
    requires Inv(s) && p in s.stray
    ensures !Covers(s, i, p)
  {
  }

  lemma PhysicalSparesOthers(s: State, kind: Kind, r: Region, offset: nat, len: nat, k: SysAnswer, p: int)
    requires Inv(s) && p in s.stray
    ensures SamePage(s, AfterPhysical(s, kind, r, offset, len, k).0, p)
  {
    if OwnedSubrange(s, r, offset, len).Some? {
      var i := SubrangeIsOwned(s, r, offset, len);
      StrayUncovered(s, i, p);
      hide FirstPage, EndPage, PageOf, Lo, Hi, Inv;
    }
  }

  lemma ReleaseSparesOthers(s: State, r: Region, ok: bool, p: int)
    requires Inv(s) && p in s.stray
    ensures SamePage(s, AfterRelease(s, r, ok).0, p)
  {
    var at := Position(s.owned, r.base);
    if at.Some? {
      StrayUncovered(s, at.value, p);
      hide Lo, Hi, PageOf;
    }
  }

  /** Whatever region it is handed, forged or stale, no provider call touches other code's memory. */
  lemma ProviderSparesOthers(s: State, op: Op, p: int)
    requires Inv(s) && ByProvider(op) && p in s.stray
    ensures SamePage(s, Do(s, op), p) && p in Do(s, op).stray
  {
    match op {
      case OpReserve(size, align, k) =>
        if AfterReserve(s, size, align, k).1.Ok? { var _, _ := ReserveEffect(s, size, align, k); }
      case OpPhysical(kind, r, offset, len, k) => PhysicalSparesOthers(s, kind, r, offset, len, k, p);
      case OpRelease(r, ok) =>
        ReleaseSparesOthers(s, r, ok, p);
        var at := Position(s.owned, r.base);
        if at.Some? { StrayUncovered(s, at.value, p); }
    }
  }

  // ---- what has not been written reads zero ----

  /** The pages `op` acts on, when it is an accepted physical operation of a nonempty range. */
  predicate Acts(s: State, op: Op, p: int)
    requires s.page > 0
  {
    && op.OpPhysical? && op.len > 0 && AfterPhysical(s, op.kind, op.r, op.offset, op.len, op.sys).1.Ok?
    && (op.r.base + op.offset) % s.page == 0
    && FirstPage(s.page, op.r.base + op.offset) <= p < EndPage(s.page, op.r.base + op.offset, op.len)
  }

  /** `op` is an accepted decommit or forced purge of page `p`. */
  predicate Discards(s: State, op: Op, p: int)
    requires s.page > 0
  {
    Acts(s, op, p) && (op.kind.Decommit? || op.kind.PurgeForced?)
  }

  predicate Stores(s: State, op: Op, a: int)
    requires s.page > 0
  {
    op.Write? && op.a == a && PageOf(s.page, a) in s.mem && s.mem[PageOf(s.page, a)].accessible
  }

  /**
   Byte `a` has been stored to since its page was mapped, and not discarded since: read off
   the operations alone, with `was` for the time before them.
   */
  ghost predicate Written(s: State, ops: seq<Op>, a: int, was: bool)
    requires s.page > 0
    decreases ops
  {
    if ops == [] then was
    else
      var now := (was || Stores(s, ops[0], a)) && !Discards(s, ops[0], PageOf(s.page, a)) &&
        PageOf(s.page, a) in Do(s, ops[0]).mem;
      Written(Do(s, ops[0]), ops[1..], a, now)
  }

  /** Only a store makes a byte nonzero, and an accepted discard makes it zero. */
  lemma StepZeroes(s: State, op: Op, a: int)
    requires Inv(s)
    ensures a in Do(s, op).nonzero ==> a in s.nonzero || Stores(s, op, a)
    ensures a in Do(s, op).nonzero ==> PageOf(s.page, a) in Do(s, op).mem
    ensures a in Do(s, op).nonzero ==> !Discards(s, op, PageOf(s.page, a))
  {
    DoKeepsInv(s, op);
    NonzeroIsMapped(Do(s, op), a);
    hide PageOf, Inv;
    match op {
      case OpReserve(size, align, k) => ReserveZeroes(s, size, align, k, a);
      case OpPhysical(_, _, _, _, _) => PhysicalZeroes(s, op, a);
      case _ =>
    }
    hide AfterReserve, AfterPhysical;
  }

  lemma ReserveZeroes(s: State, size: nat, align: nat, k: MapAnswer, a: int)
    requires Inv(s)
    ensures a in AfterReserve(s, size, align, k).0.nonzero ==> a in s.nonzero
  {
    if AfterReserve(s, size, align, k).1.Ok? {
      var _, _ := ReserveEffect(s, size, align, k);
      hide AfterReserve, Inv;
    }
  }

  lemma PhysicalZeroes(s: State, op: Op, a: int)
    requires s.page > 0 && op.OpPhysical?
    ensures a in Do(s, op).nonzero ==> a in s.nonzero && !Discards(s, op, PageOf(s.page, a))
  {
    hide FirstPage, EndPage, PageOf;
  }

  lemma NonzeroIsMapped(s: State, a: int)
    requires Inv(s)
    ensures a in s.nonzero ==> PageOf(s.page, a) in s.mem
  {
  }

  /** In every run, a byte not written since its page was mapped or last discarded reads zero. */
  lemma {:induction false} UnwrittenReadsZero(s: State, ops: seq<Op>, a: int, was: bool)
    requires Inv(s) && (a in s.nonzero ==> was)
    ensures a in Run(s, ops).nonzero ==> Written(s, ops, a, was)
    decreases ops
  {
    if ops != [] {
      StepZeroes(s, ops[0], a);
      DoKeepsInv(s, ops[0]);
      hide Inv, Do, Stores, Discards, PageOf;
      var now := (was || Stores(s, ops[0], a)) && !Discards(s, ops[0], PageOf(s.page, a)) &&
        PageOf(s.page, a) in Do(s, ops[0]).mem;
      UnwrittenReadsZero(Do(s, ops[0]), ops[1..], a, now);
    }
  }

  // ---- guard mode ----

  /** `op` makes page `p` usable: an accepted commit, or protect as accessible. */
  predicate Opens(s: State, op: Op, p: int)
    requires s.page > 0
  {
    Acts(s, op, p) && (op.kind.Commit? || op.kind == Protect(true))
  }

  /** Page `p` was decommitted and neither opened nor unmapped since. */
  ghost predicate Retired(s: State, ops: seq<Op>, p: int, was: bool)
    requires s.page > 0
    decreases ops
  {
    if ops == [] then was
    else
      var op := ops[0];
      var now := (was || (Acts(s, op, p) && op.kind.Decommit?)) && !Opens(s, op, p) && p in Do(s, op).mem;
      Retired(Do(s, op), ops[1..], p, now)
  }

  lemma StepCloses(s: State, op: Op, p: int)
    requires Inv(s) && s.guard
    requires p in s.mem && p in Do(s, op).mem && !Opens(s, op, p)
    requires !s.mem[p].accessible || (Acts(s, op, p) && op.kind.Decommit?)
    ensures !Do(s, op).mem[p].accessible
  {
    match op {
      case OpReserve(size, align, k) =>
        if AfterReserve(s, size, align, k).1.Ok? { var _, _ := ReserveEffect(s, size, align, k); }
      case OpPhysical(kind, r, offset, len, k) => hide FirstPage, EndPage, PageOf, Inv;
      case _ =>
    }
  }

  lemma ActsOnMapped(s: State, op: Op, p: int)
    requires Inv(s) && Acts(s, op, p)
    ensures p in s.mem
  {
    var i := SubrangeIsOwned(s, op.r, op.offset, op.len);
    assert Covers(s, i, p);
  }

  /** In guard mode a decommitted page stays inaccessible until a commit or accessible protect covers it. */
  lemma {:induction false} RetiredStaysInaccessible(s: State, ops: seq<Op>, p: int, was: bool)
    requires Inv(s) && s.guard && (was ==> p in s.mem && !s.mem[p].accessible)
    ensures Retired(s, ops, p, was) ==> p in Run(s, ops).mem && !Run(s, ops).mem[p].accessible
    decreases ops
  {
    if ops != [] {
      var op := ops[0];
      var now := (was || (Acts(s, op, p) && op.kind.Decommit?)) && !Opens(s, op, p) && p in Do(s, op).mem;
      if now {
        if Acts(s, op, p) { ActsOnMapped(s, op, p); }
        StepCloses(s, op, p);
      }
      DoKeepsInv(s, op);
      hide Inv, Do, Acts, Opens;
      RetiredStaysInaccessible(Do(s, op), ops[1..], p, now);
    }
  }

  /** An accepted commit or accessible protect makes its pages usable; an inaccessible protect closes them. */
  lemma OpenAndCloseTakeEffect(s: State, op: Op, p: int)
    requires Inv(s) && s.guard && Acts(s, op, p)
    ensures p in Do(s, op).mem
    ensures Opens(s, op, p) ==> Do(s, op).mem[p].accessible
    ensures op.kind == Protect(false) || op.kind == Decommit ==> !Do(s, op).mem[p].accessible
  {
    ActsOnMapped(s, op, p);
    hide Inv, FirstPage, EndPage;
  }

  /** A physical operation, accepted or refused, changes no page it does not act on. */
  lemma PhysicalIsLocal(s: State, op: Op, p: int)
    requires Inv(s) && op.OpPhysical? && p in s.mem
    requires !(FirstPage(s.page, op.r.base + op.offset) <= p < EndPage(s.page, op.r.base + op.offset, op.len))
    ensures SamePage(s, Do(s, op), p)
  {
    hide Inv, FirstPage, EndPage, PageOf;
  }
}

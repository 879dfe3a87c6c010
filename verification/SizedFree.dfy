/**
 The C23 sized-free cross-check: the size the caller claims against the storage the
 allocation has. The allocating side classifies with an alignment of at least 16, the freeing
 side with the caller's own, often 1; the check must still accept every truthful claim.
 */
module SizedFree {
  import opened Pages
  import opened SizeClasses
  import opened Wrappers

  /** The page-rounded length of a medium or large allocation. */
  function WholePages(size: nat): nat { AlignUp(Max(size, 1), PAGE_SIZE) }

  /**
   The usable sizes an allocation of `size` at `align` may have: its class's, or for medium
   and large at least the whole pages (a cached region may be longer).
   */
  predicate Stored(size: nat, align: nat, usable: nat) {
    match KindOf(size, align)
    case None => false
    case Some(Small(_, u)) => usable == u
    case Some(_) => WholePages(size) <= usable
  }

  /** A request that the explicit flag, or the sampler, may send to guarded pages. */
  predicate MayBeGuarded(size: nat, align: nat) {
    0 < align <= PAGE_SIZE && IsPow2(align) && KindOf(size, align).Some?
  }

  /** A guarded allocation is placed tight against its trailing guard page. */
  predicate StoredGuarded(size: nat, align: nat, usable: nat) {
    MayBeGuarded(size, align) && usable == AlignUp(Max(size, 1), align)
  }

  /** Whether the claim `(size, align)` is plausible for storage of the given usable size. */
  predicate HintMatches(usable: Option<nat>, size: nat, align: nat) {
    match usable
    case None => true
    case Some(u) =>
      match KindOf(size, align)
      case Some(Small(_, classUsable)) => classUsable == u
      case Some(_) =>
        (match CheckedAlignUp(Max(size, 1), PAGE_SIZE) case None => false case Some(rounded) => rounded <= u)
      case None => false
  }

  /** The alignment the allocating entry points ask for. */
  function AskedAlign(align: nat): nat { Max(align, MIN_ALIGN) }

  /** Raising the alignment to 16 changes neither the family nor the class. */
  lemma AskingForSixteenIsHarmless(size: nat, align: nat)
    ensures KindOf(size, AskedAlign(align)).Some? ==> KindOf(size, align).Some?
    ensures var j, k := KindOf(size, AskedAlign(align)), KindOf(size, align);
            j.Some? && k.Some? ==> (j.value.Small? <==> k.value.Small?) && (j.value.Small? ==> j == k)
  {
    KindCovers(size, AskedAlign(align));
    KindCovers(size, align);
    if align <= MIN_ALIGN { SmallAlignmentsAgree(Max(size, 1), align, MIN_ALIGN); }
    hide SizeClass, Provides;
  }

  /** A truthful claim passes: `malloc` freed with its size, `aligned_alloc` with its size and alignment. */
  lemma TruthfulHintAccepted(size: nat, align: nat, usable: nat)
    requires Stored(size, AskedAlign(align), usable)
    ensures HintMatches(Some(usable), size, align)
  {
    AskingForSixteenIsHarmless(size, align);
    KindCovers(size, align);
    hide KindOf, Provides, AlignUp;
  }

  lemma RowSizesDiffer(c: nat, d: nat)
    requires c < NUM_CLASSES && d < NUM_CLASSES
    ensures RowAt(c).size == RowAt(d).size <==> c == d
  {
    hide RowAt, SizeOf;
    RowsOk(c);
    RowsOk(d);
    if c < d { SizesIncrease(c, d); }
    if d < c { SizesIncrease(d, c); }
  }

  /** A claim that names another small class is always rejected. */
  lemma OtherSmallClassRejected(size: nat, align: nat, usable: nat, claimed: nat, claimedAlign: nat)
    requires Stored(size, align, usable)
    requires KindOf(size, align).Some? && KindOf(size, align).value.Small?
    requires KindOf(claimed, claimedAlign).Some? && KindOf(claimed, claimedAlign).value.Small?
    requires KindOf(claimed, claimedAlign).value.sc != KindOf(size, align).value.sc
    ensures !HintMatches(Some(usable), claimed, claimedAlign)
  {
    hide RowAt, SizeClass;
    RowSizesDiffer(KindOf(size, align).value.sc, KindOf(claimed, claimedAlign).value.sc);
  }

  // ---- guarded allocations ----

  /** The tight length is also the length ordinary storage would have: the class size, or whole pages. */
  predicate TightIsOrdinary(size: nat, align: nat)
    requires align > 0
  {
    var tight := AlignUp(Max(size, 1), align);
    match SizeClass(Max(size, 1), align)
    case Some(c) => tight == RowAt(c).size
    case None => tight % PAGE_SIZE == 0
  }

  /** A truthful claim about a guarded allocation passes exactly when its tight length is ordinary. */
  lemma GuardedHintAcceptedExactly(size: nat, align: nat, usable: nat)
    requires StoredGuarded(size, AskedAlign(align), usable)
    ensures HintMatches(Some(usable), size, align) <==> TightIsOrdinary(size, AskedAlign(align))
  {
    var a := AskedAlign(align);
    AskingForSixteenIsHarmless(size, align);
    KindCovers(size, a);
    KindCovers(size, align);
    SizeClassIsSmallest(Max(size, 1), a);
    AlignUpIsLeast(Max(size, 1), PAGE_SIZE);
    AlignUpIsLeast(Max(size, 1), a);
    GuardedNoLongerThanPages(size, a);
    hide AlignUp, RowAt, SizeClass, Provides;
  }

  lemma GuardedNoLongerThanPages(size: nat, a: nat)
    requires 0 < a <= PAGE_SIZE && IsPow2(a)
    ensures WholePages(size) <= AlignUp(Max(size, 1), a) <==> AlignUp(Max(size, 1), a) % PAGE_SIZE == 0
  {
    hide AlignUp, IsPow2;
    var pages, tight := WholePages(size), AlignUp(Max(size, 1), a);
    AlignUpIsLeast(Max(size, 1), PAGE_SIZE);
    AlignUpIsLeast(Max(size, 1), a);
    ClassAlignsArePow2(PAGE_SIZE);
    LargerPow2IsMultiple(PAGE_SIZE, a);
    MultipleOfMultiple(pages, PAGE_SIZE, a);
    assert tight <= pages;
  }

  /** It fails on real sizes: 257 guarded bytes take 272, while the claim's class is 288. */
  lemma GuardedHintCanFail()
    ensures StoredGuarded(257, MIN_ALIGN, 272) && !HintMatches(Some(272), 257, 1)
  {
    assert AlignUp(257, MIN_ALIGN) == 272;
    ClassAlignsArePow2(MIN_ALIGN);
    assert SizeToClass(16) == 16;
    RowsOk(16);
    assert SizeOf(16) == 288;
    SmallAlignmentsAgree(257, 1, MIN_ALIGN);
  }

  /** Up to 256 bytes every multiple of 16 is a class, so plain guarded allocations always pass. */
  lemma SmallGuardedHintAccepted(size: nat, usable: nat)
    requires size <= 256 && StoredGuarded(size, MIN_ALIGN, usable)
    ensures HintMatches(Some(usable), size, 1)
  {
    GuardedHintAcceptedExactly(size, 1, usable);
    var e := Max(size, 1);
    var c := SizeToClass((e - 1) / QUANTUM);
    RowsOk(c);
    assert SizeClass(e, MIN_ALIGN) == Some(c);
    AlignUpIsLeast(e, 16);
  }

  // ---- after realloc and xallocx ----

  type ClassIndex = c: nat | c < NUM_CLASSES

  /** What holds a block: a slab slot, whole pages, or bytes placed tight against a guard page. */
  datatype Storage = Slot(sc: ClassIndex) | Extent(bytes: nat) | Guarded(bytes: nat)

  function Usable(st: Storage): nat {
    match st case Slot(c) => RowAt(c).size case Extent(u) => u case Guarded(u) => u
  }

  /** Extents and cached regions are whole pages, one at least. */
  predicate InPages(st: Storage) { st.Extent? ==> st.bytes > 0 && st.bytes % PAGE_SIZE == 0 }

  /** Fresh storage for a request, guarded or not. */
  predicate Placed(st: Storage, size: nat, align: nat) {
    match st
    case Slot(c) => KindOf(size, align).Some? && KindOf(size, align).value.Small? && KindOf(size, align).value.sc == c
    case Extent(u) =>
      InPages(st) && Stored(size, align, u) && KindOf(size, align).Some? && !KindOf(size, align).value.Small?
    case Guarded(u) => StoredGuarded(size, align, u)
  }

  /** A fresh block's own size is accepted exactly when it is unguarded or its tight length is ordinary. */
  lemma FreshHintAcceptedExactly(st: Storage, size: nat, align: nat)
    requires Placed(st, size, AskedAlign(align))
    ensures HintMatches(Some(Usable(st)), size, align) <==> (st.Guarded? ==> TightIsOrdinary(size, AskedAlign(align)))
  {
    hide HintMatches, TightIsOrdinary;
    if st.Guarded? {
      GuardedHintAcceptedExactly(size, align, st.bytes);
    } else {
      TruthfulHintAccepted(size, align, Usable(st));
    }
  }

  /** What a caller who cannot tell whether the sampler will strike may rely on. */
  predicate SafeFresh(size: nat, align: nat) { MayBeGuarded(size, align) ==> TightIsOrdinary(size, align) }

  predicate FreshAccepted(st: Storage, size: nat, align: nat) {
    Placed(st, size, AskedAlign(align)) ==> HintMatches(Some(Usable(st)), size, align)
  }

  /** Whatever storage the request gets, its size is accepted: exactly for the safe requests. */
  lemma FreshHintSafeExactly(size: nat, align: nat)
    ensures (forall st :: FreshAccepted(st, size, align)) <==> SafeFresh(size, AskedAlign(align))
  {
    var a := AskedAlign(align);
    hide HintMatches, TightIsOrdinary, KindOf, IsPow2;
    forall st | SafeFresh(size, a) ensures FreshAccepted(st, size, align) {
      if Placed(st, size, a) { FreshHintAcceptedExactly(st, size, align); }
    }
    if MayBeGuarded(size, a) {
      var st := Guarded(AlignUp(Max(size, 1), a));
      FreshHintAcceptedExactly(st, size, align);
      assert FreshAccepted(st, size, align) <==> TightIsOrdinary(size, a);
    }
  }

  /** The length of the tail given back; a guarded block, or an unwilling backing, keeps all of it. */
  function Shrink(st: Storage, rounded: nat, willing: bool): Option<nat> {
    if st.Extent? && willing && rounded < st.bytes then Some(st.bytes - rounded) else None
  }

  /** The length absorbed from the free neighbour. */
  function Grow(st: Storage, rounded: nat, willing: bool): Option<nat> {
    if st.Extent? && willing && st.bytes < rounded then Some(rounded - st.bytes) else None
  }

  function ApplyInPlace(st: Storage, rounded: nat, willing: bool): Storage
    requires !st.Slot?
  {
    if rounded < st.bytes then
      match Shrink(st, rounded, willing) case Some(freed) => st.(bytes := st.bytes - freed) case None => st
    else if rounded > st.bytes then
      match Grow(st, rounded, willing) case Some(grown) => st.(bytes := st.bytes + grown) case None => st
    else st
  }

  /** `realloc` without moving: the storage it keeps, or none if it must move. */
  function ReallocInPlace(st: Storage, size: nat, minAlign: nat, aligned: bool, willing: bool): Option<Storage> {
    match KindOf(size, minAlign)
    case None => None
    case Some(kind) =>
      if !aligned || (kind.Small? && !(st.Slot? && st.sc == kind.sc)) || (!kind.Small? && st.Slot?) then None
      else if kind.Small? then Some(st)
      else match CheckedAlignUp(Max(size, 1), PAGE_SIZE)
        case None => None
        case Some(rounded) =>
          var st' := ApplyInPlace(st, rounded, willing);
          if Usable(st') >= rounded then Some(st') else None
  }

  /** `xallocx`: never moves, never fails on a live block unless the size cannot be rounded. */
  function Xallocx(st: Storage, size: nat, willing: bool): Option<Storage> {
    if st.Slot? then Some(st)
    else match CheckedAlignUp(Max(size, 1), PAGE_SIZE)
      case None => None
      case Some(rounded) => Some(ApplyInPlace(st, rounded, willing))
  }

  /**
   After `realloc` the new size is accepted exactly when the block was kept in place, moved to
   unguarded storage, or moved to guarded storage of an ordinary tight length.
   */
  lemma ReallocHintAcceptedExactly(st: Storage, size: nat, align: nat, aligned: bool, willing: bool, moved: Storage)
    requires var kept := ReallocInPlace(st, size, AskedAlign(align), aligned, willing);
             kept.None? ==> Placed(moved, size, AskedAlign(align))
    ensures var kept := ReallocInPlace(st, size, AskedAlign(align), aligned, willing);
            HintMatches(Some(Usable(if kept.Some? then kept.value else moved)), size, align) <==>
            kept.Some? || !moved.Guarded? || TightIsOrdinary(size, AskedAlign(align))
  {
    var kept := ReallocInPlace(st, size, AskedAlign(align), aligned, willing);
    if kept.None? {
      FreshHintAcceptedExactly(moved, size, align);
    } else {
      KindCovers(size, AskedAlign(align));
      SizeClassIsSmallest(Max(size, 1), AskedAlign(align));
      TruthfulHintAccepted(size, align, Usable(kept.value));
    }
  }

  /** It can fail: a 100-byte slot moved to 257 guarded bytes, which take 272. */
  lemma GuardedMoveCanFail()
    ensures ReallocInPlace(Slot(6), 257, AskedAlign(1), true, true).None? && Placed(Guarded(272), 257, AskedAlign(1))
    ensures !HintMatches(Some(Usable(Guarded(272))), 257, 1)
  {
    GuardedHintCanFail();
    assert SizeToClass(16) == 16;
    RowsOk(16);
  }

  /** When the size passed to `xallocx` is accepted afterwards, given whether the backing is willing. */
  predicate ClaimKept(st: Storage, size: nat, align: nat, willing: bool) {
    match KindOf(size, align)
    case None => false
    case Some(Small(c, classSize)) =>
      (match st
       case Slot(sc) => sc == c
       case Extent(u) => classSize % PAGE_SIZE == 0 && (willing || u == WholePages(size))
       case Guarded(u) => u == classSize)
    case Some(_) =>
      (match st
       case Slot(sc) => WholePages(size) <= RowAt(sc).size
       case Extent(u) => willing || Max(size, 1) <= u
       case Guarded(u) => WholePages(size) <= u)
  }

  /** `xallocx` reaches the whole pages asked for, or leaves the block as it is. */
  lemma AchievedSize(st: Storage, rounded: nat, willing: bool)
    requires !st.Slot?
    ensures var st' := ApplyInPlace(st, rounded, willing);
            st' == if st.Extent? && willing then Extent(rounded) else st
  {
  }

  /** Up to a page, a class of at most a page serves; beyond it, one of at most two. */
  lemma ClassLength(e: nat, align: nat, c: nat)
    requires e > 0 && SizeClass(e, align) == Some(c)
    ensures c < NUM_CLASSES && e <= RowAt(c).size <= SMALL_MAX && (e <= PAGE_SIZE ==> RowAt(c).size <= PAGE_SIZE)
  {
    SizeClassIsSmallest(e, align);
    LastClass();
    assert RowAt(63) == Row(16384, 16384, 1, 1);
    hide RowAt, SizeOf, SizeClass;
    RowsOk(c);
    RowsOk(63);
    RowsOk(71);
    if e <= PAGE_SIZE {
      assert Serves(63, e, align);
      if c < 63 { SizesIncrease(c, 63); }
    }
    if c < 71 { SizesIncrease(c, 71); }
  }

  /** A class of whole pages is exactly as long as its sizes' whole pages. */
  lemma WholePageClass(size: nat, align: nat)
    requires KindOf(size, align).Some? && KindOf(size, align).value.Small?
    ensures var classSize := KindOf(size, align).value.usable;
            classSize % PAGE_SIZE == 0 <==> classSize == WholePages(size)
  {
    hide RowAt, SizeClass, AlignUp;
    var e, c := Max(size, 1), KindOf(size, align).value.sc;
    ClassLength(e, align, c);
    AlignUpIsLeast(e, PAGE_SIZE);
  }

  /** The size passed to `xallocx` is accepted afterwards exactly under the stated condition. */
  lemma XallocxHintAcceptedExactly(st: Storage, size: nat, align: nat, willing: bool)
    requires InPages(st) && Xallocx(st, size, willing).Some?
    ensures HintMatches(Some(Usable(Xallocx(st, size, willing).value)), size, align) <==> ClaimKept(st, size, align, willing)
  {
    hide SizeClass, RowAt, AlignUp;
    if KindOf(size, align).Some? {
      if st.Slot? {
        if KindOf(size, align).value.Small? { RowSizesDiffer(st.sc, KindOf(size, align).value.sc); }
        if !KindOf(size, align).value.Small? { KindCovers(size, align); }
      } else {
        AchievedSize(st, WholePages(size), willing);
        AlignUpIsLeast(Max(size, 1), PAGE_SIZE);
        if KindOf(size, align).value.Small? { WholePageClass(size, align); }
      }
    }
  }

  predicate AcceptedAfter(st: Storage, size: nat, align: nat, willing: bool) {
    var st' := Xallocx(st, size, willing);
    st'.Some? && HintMatches(Some(Usable(st'.value)), size, align)
  }

  /** Whatever the backing answers, the size is accepted: exactly when it is should the backing decline. */
  lemma XallocxHintAcceptedWhateverTheAnswer(st: Storage, size: nat, align: nat)
    requires InPages(st) && Xallocx(st, size, false).Some?
    ensures (forall willing :: AcceptedAfter(st, size, align, willing)) <==> ClaimKept(st, size, align, false)
  {
    XallocxHintAcceptedExactly(st, size, align, false);
    XallocxHintAcceptedExactly(st, size, align, true);
    hide HintMatches, KindOf;
    assert ClaimKept(st, size, align, false) ==> ClaimKept(st, size, align, true);
    assert AcceptedAfter(st, size, align, false) <==> ClaimKept(st, size, align, false);
    forall willing | ClaimKept(st, size, align, false) ensures AcceptedAfter(st, size, align, willing) {
      XallocxHintAcceptedExactly(st, size, align, willing);
    }
  }

  /** The owner takes `xallocx` to have succeeded when the size it returns is enough. */
  predicate Enough(st: Storage, size: nat, willing: bool) {
    var st' := Xallocx(st, size, willing);
    st'.Some? && Usable(st'.value) >= size
  }

  /**
   What the owner can check before calling `xallocx`: on its own storage, and whether the claim
   is small. A growth of an extent within its family is always safe.
   */
  predicate SafeResize(st: Storage, size: nat, align: nat) {
    match KindOf(size, align)
    case None => !st.Extent? && Usable(st) < size
    case Some(Small(c, classSize)) =>
      (match st
       case Slot(sc) => sc == c || RowAt(sc).size < size
       case Extent(u) => classSize % PAGE_SIZE == 0 && (u == classSize || u < size)
       case Guarded(u) => u == classSize || u < size)
    case Some(_) =>
      (match st
       case Slot(sc) => WholePages(size) <= RowAt(sc).size || RowAt(sc).size < size
       case Extent(u) => true
       case Guarded(u) => WholePages(size) <= u || u < size)
  }

  predicate SuccessAccepted(st: Storage, size: nat, align: nat, willing: bool) {
    Enough(st, size, willing) ==> AcceptedAfter(st, size, align, willing)
  }

  lemma EnoughExactly(st: Storage, size: nat, willing: bool)
    requires Xallocx(st, size, willing).Some?
    ensures Enough(st, size, willing) <==> (st.Extent? && willing) || Usable(st) >= size
  {
    if !st.Slot? { AchievedSize(st, WholePages(size), willing); }
    AlignUpIsLeast(Max(size, 1), PAGE_SIZE);
    hide AlignUp, RowAt;
  }

  lemma SuccessAcceptedExactly(st: Storage, size: nat, align: nat, willing: bool)
    requires InPages(st) && Xallocx(st, size, willing).Some?
    ensures SuccessAccepted(st, size, align, willing) <==>
            ((st.Extent? && willing) || Usable(st) >= size ==> ClaimKept(st, size, align, willing))
  {
    EnoughExactly(st, size, willing);
    XallocxHintAcceptedExactly(st, size, align, willing);
    hide Enough, HintMatches, ClaimKept, Usable, Xallocx;
  }

  /** Whatever the backing answers, a success is accepted: exactly for the safe resizes. */
  lemma XallocxHintSafeExactly(st: Storage, size: nat, align: nat)
    requires InPages(st) && Xallocx(st, size, false).Some?
    ensures (forall willing :: SuccessAccepted(st, size, align, willing)) <==> SafeResize(st, size, align)
  {
    SuccessAcceptedExactly(st, size, align, false);
    SuccessAcceptedExactly(st, size, align, true);
    hide SuccessAccepted, KindOf, AlignUp, RowAt;
    if KindOf(size, align).Some? && KindOf(size, align).value.Small? { WholePageClass(size, align); }
    assert SafeResize(st, size, align) <==>
      SuccessAccepted(st, size, align, false) && SuccessAccepted(st, size, align, true);
    forall willing | SafeResize(st, size, align) ensures SuccessAccepted(st, size, align, willing) {
      assert willing == true || willing == false;
    }
  }

  // ---- over every run ----

  /** A block, with the size and alignment its owner would pass to a sized free. */
  datatype Block = Block(storage: Storage, size: nat, align: nat)

  datatype Call =
    | DoRealloc(size: nat, align: nat, aligned: bool, willing: bool, moved: Option<Storage>)
    | DoXallocx(size: nat, willing: bool)

  /** What `realloc` moves to, if it moves and there is memory, is fresh storage for the request. */
  predicate CallOk(c: Call) {
    c.DoRealloc? && c.moved.Some? ==> Placed(c.moved.value, c.size, AskedAlign(c.align))
  }

  function Next(b: Block, c: Call): Block {
    match c
    case DoRealloc(size, align, aligned, willing, moved) =>
      (match ReallocInPlace(b.storage, size, AskedAlign(align), aligned, willing)
       case Some(st) => Block(st, size, align)
       case None => if moved.Some? then Block(moved.value, size, align) else b)
    case DoXallocx(size, willing) =>
      (match Xallocx(b.storage, size, willing)
       case Some(st) => Block(st, if Enough(b.storage, size, willing) then size else b.size, b.align)
       case None => b)
  }

  predicate Accepted(b: Block) { HintMatches(Some(Usable(b.storage)), b.size, b.align) }

  /** The call leaves the claim accepted, given what the backing and the sampler answered. */
  predicate Keeps(b: Block, c: Call) {
    match c
    case DoRealloc(size, align, aligned, willing, moved) =>
      ReallocInPlace(b.storage, size, AskedAlign(align), aligned, willing).Some? || moved.None? ||
      !moved.value.Guarded? || TightIsOrdinary(size, AskedAlign(align))
    case DoXallocx(size, willing) =>
      Enough(b.storage, size, willing) ==> ClaimKept(b.storage, size, b.align, willing)
  }

  /** The call leaves the claim accepted whatever they answer. */
  predicate Safe(b: Block, c: Call) {
    match c
    case DoRealloc(size, align, _, _, _) => SafeFresh(size, AskedAlign(align))
    case DoXallocx(size, _) => SafeResize(b.storage, size, b.align)
  }

  lemma CallKeepsClaimExactly(b: Block, c: Call)
    requires InPages(b.storage) && Accepted(b) && CallOk(c)
    ensures InPages(Next(b, c).storage) && (Accepted(Next(b, c)) <==> Keeps(b, c))
  {
    hide HintMatches, ClaimKept, KindOf, Usable, TightIsOrdinary;
    StaysInPages(b.storage, Max(c.size, 1), c.willing);
    match c
    case DoRealloc(size, align, aligned, willing, moved) =>
      var kept := ReallocInPlace(b.storage, size, AskedAlign(align), aligned, willing);
      if kept.Some? || moved.Some? {
        ReallocHintAcceptedExactly(b.storage, size, align, aligned, willing,
                                   if moved.Some? then moved.value else b.storage);
      }
    case DoXallocx(size, willing) =>
      if Xallocx(b.storage, size, willing).Some? {
        if Enough(b.storage, size, willing) {
          XallocxHintAcceptedExactly(b.storage, size, b.align, willing);
        } else {
          FailedXallocxKeepsTheBlock(b, c);
        }
      }
  }

  lemma SafeCallsKeep(b: Block, c: Call)
    requires InPages(b.storage) && CallOk(c) && Safe(b, c)
    ensures Keeps(b, c)
  {
    hide ClaimKept, SafeResize, KindOf, TightIsOrdinary, Usable;
    if c.DoXallocx? && Xallocx(b.storage, c.size, c.willing).Some? {
      XallocxHintSafeExactly(b.storage, c.size, b.align);
      assert SuccessAccepted(b.storage, c.size, b.align, c.willing);
      XallocxHintAcceptedExactly(b.storage, c.size, b.align, c.willing);
      hide HintMatches;
    }
  }

  lemma StaysInPages(st: Storage, e: nat, willing: bool)
    requires InPages(st) && e > 0
    ensures !st.Slot? ==> InPages(ApplyInPlace(st, AlignUp(e, PAGE_SIZE), willing))
  {
    if !st.Slot? { AchievedSize(st, AlignUp(e, PAGE_SIZE), willing); }
    AlignUpIsLeast(e, PAGE_SIZE);
  }

  /** An `xallocx` that falls short of the size has changed nothing. */
  lemma FailedXallocxKeepsTheBlock(b: Block, c: Call)
    requires c.DoXallocx? && !Enough(b.storage, c.size, c.willing)
    ensures Next(b, c) == b
  {
    if !b.storage.Slot? { AchievedSize(b.storage, WholePages(c.size), c.willing); }
    AlignUpIsLeast(Max(c.size, 1), PAGE_SIZE);
    hide AlignUp, RowAt;
  }

  /** The owner's sized free would be accepted now and after every call. */
  predicate AcceptedThroughout(b: Block, calls: seq<Call>)
    decreases calls
  {
    Accepted(b) && (calls != [] ==> AcceptedThroughout(Next(b, calls[0]), calls[1..]))
  }

  /** No call of the run loses the claim. */
  predicate NoneLoses(b: Block, calls: seq<Call>)
    decreases calls
  {
    calls != [] ==> Keeps(b, calls[0]) && NoneLoses(Next(b, calls[0]), calls[1..])
  }

  /** Every call of the run was safe to make. */
  predicate Cautious(b: Block, calls: seq<Call>)
    decreases calls
  {
    calls != [] ==> Safe(b, calls[0]) && Cautious(Next(b, calls[0]), calls[1..])
  }

  predicate AllOk(calls: seq<Call>) { forall i :: 0 <= i < |calls| ==> CallOk(calls[i]) }

  lemma {:induction false} RunKeepsClaimExactly(b: Block, calls: seq<Call>)
    requires InPages(b.storage) && Accepted(b) && AllOk(calls)
    ensures AcceptedThroughout(b, calls) <==> NoneLoses(b, calls)
    decreases calls
  {
    hide Accepted, InPages, Next, CallOk, Keeps;
    if calls != [] {
      CallKeepsClaimExactly(b, calls[0]);
      if Keeps(b, calls[0]) { RunKeepsClaimExactly(Next(b, calls[0]), calls[1..]); }
    }
  }

  lemma {:induction false} CautiousRunsLoseNothing(b: Block, calls: seq<Call>)
    requires InPages(b.storage) && Accepted(b) && AllOk(calls) && Cautious(b, calls)
    ensures NoneLoses(b, calls)
    decreases calls
  {
    hide Accepted, InPages, Next, CallOk, Keeps, Safe;
    if calls != [] {
      SafeCallsKeep(b, calls[0]);
      CallKeepsClaimExactly(b, calls[0]);
      CautiousRunsLoseNothing(Next(b, calls[0]), calls[1..]);
    }
  }

  /**
   From a fresh block, guarded or not, through any run of calls: the owner's sized free would
   be accepted at every point exactly when it is at first and no call meets its failing case.
   */
  lemma SizedFreeAcceptedThroughoutExactly(st: Storage, size: nat, align: nat, calls: seq<Call>)
    requires Placed(st, size, AskedAlign(align)) && AllOk(calls)
    ensures var b := Block(st, size, align);
            AcceptedThroughout(b, calls) <==>
            (st.Guarded? ==> TightIsOrdinary(size, AskedAlign(align))) && NoneLoses(b, calls)
  {
    FreshHintAcceptedExactly(st, size, align);
    var b := Block(st, size, align);
    if Accepted(b) { RunKeepsClaimExactly(b, calls); }
    hide HintMatches, NoneLoses, Next;
  }

  /** An owner who makes only safe calls is accepted throughout, whatever storage and answers it gets. */
  lemma CautiousOwnersAreAccepted(st: Storage, size: nat, align: nat, calls: seq<Call>)
    requires Placed(st, size, AskedAlign(align)) && SafeFresh(size, AskedAlign(align)) && AllOk(calls)
    requires Cautious(Block(st, size, align), calls)
    ensures AcceptedThroughout(Block(st, size, align), calls)
  {
    FreshHintAcceptedExactly(st, size, align);
    CautiousRunsLoseNothing(Block(st, size, align), calls);
    RunKeepsClaimExactly(Block(st, size, align), calls);
    hide HintMatches, NoneLoses, Cautious, AcceptedThroughout;
  }

  /** The conditions do fail: 40000 bytes shrunk in place to 100, and a 100-byte slot to 10. */
  lemma XallocxHintCanFail()
    ensures Placed(Extent(49152), 40000, MIN_ALIGN) && Xallocx(Extent(49152), 100, true) == Some(Extent(16384))
    ensures !HintMatches(Some(16384), 100, 1)
    ensures Placed(Slot(6), 100, MIN_ALIGN) && Xallocx(Slot(6), 10, true) == Some(Slot(6))
    ensures !HintMatches(Some(Usable(Slot(6))), 10, 1)
  {
  }
}

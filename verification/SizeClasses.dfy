/**
 Size classes: the 72-row table, the index from 16-byte granules to classes, the walk to a
 sufficiently aligned class, and the three-way classification of requests.
 */
module SizeClasses {
  import opened Flags
  import opened Pages
  import opened Words
  import opened Wrappers

  const PAGE_SIZE: nat := 16384
  const QUANTUM: nat := 16
  const SMALL_MAX: nat := 32768
  const HUGE_THRESHOLD: nat := 2097152
  const MAX_ALIGN: nat := 16384
  const MIN_ALIGN: nat := 16
  const NUM_CLASSES: nat := 72

  /** One class: object size, natural alignment, pages per slab, objects per slab. */
  datatype Row = Row(size: nat, align: nat, slabPages: nat, objects: nat)

  // The table, eight rows to a group.
  const GROUP0: seq<Row> := [
    Row(16, 16, 1, 1024), Row(32, 32, 1, 512), Row(48, 16, 1, 341), Row(64, 64, 1, 256),
    Row(80, 16, 1, 204), Row(96, 32, 1, 170), Row(112, 16, 1, 146), Row(128, 128, 1, 128)]
  const GROUP1: seq<Row> := [
    Row(144, 16, 1, 113), Row(160, 32, 1, 102), Row(176, 16, 1, 93), Row(192, 64, 1, 85),
    Row(208, 16, 1, 78), Row(224, 32, 1, 73), Row(240, 16, 1, 68), Row(256, 256, 1, 64)]
  const GROUP2: seq<Row> := [
    Row(288, 32, 1, 56), Row(320, 64, 1, 51), Row(352, 32, 1, 46), Row(384, 128, 1, 42),
    Row(416, 32, 1, 39), Row(448, 64, 1, 36), Row(480, 32, 1, 34), Row(512, 512, 1, 32)]
  const GROUP3: seq<Row> := [
    Row(576, 64, 1, 28), Row(640, 128, 1, 25), Row(704, 64, 1, 23), Row(768, 256, 1, 21),
    Row(832, 64, 1, 19), Row(896, 128, 1, 18), Row(960, 64, 1, 17), Row(1024, 1024, 1, 16)]
  const GROUP4: seq<Row> := [
    Row(1152, 128, 1, 14), Row(1280, 256, 1, 12), Row(1408, 128, 1, 11), Row(1536, 512, 1, 10),
    Row(1664, 128, 1, 9), Row(1792, 256, 1, 9), Row(1920, 128, 1, 8), Row(2048, 2048, 1, 8)]
  const GROUP5: seq<Row> := [
    Row(2304, 256, 1, 7), Row(2560, 512, 1, 6), Row(2816, 256, 1, 5), Row(3072, 1024, 1, 5),
    Row(3328, 256, 1, 4), Row(3584, 512, 1, 4), Row(3840, 256, 1, 4), Row(4096, 4096, 1, 4)]
  const GROUP6: seq<Row> := [
    Row(4608, 512, 1, 3), Row(5120, 1024, 1, 3), Row(5632, 512, 1, 2), Row(6144, 2048, 1, 2),
    Row(6656, 512, 1, 2), Row(7168, 1024, 1, 2), Row(7680, 512, 1, 2), Row(8192, 8192, 1, 2)]
  const GROUP7: seq<Row> := [
    Row(9216, 1024, 1, 1), Row(10240, 2048, 1, 1), Row(11264, 1024, 1, 1), Row(12288, 4096, 1, 1),
    Row(13312, 1024, 1, 1), Row(14336, 2048, 1, 1), Row(15360, 1024, 1, 1), Row(16384, 16384, 1, 1)]
  const GROUP8: seq<Row> := [
    Row(18432, 2048, 2, 1), Row(20480, 4096, 2, 1), Row(22528, 2048, 2, 1), Row(24576, 8192, 2, 1),
    Row(26624, 2048, 2, 1), Row(28672, 4096, 2, 1), Row(30720, 2048, 2, 1), Row(32768, 16384, 2, 1)]

  function RowAt(i: nat): Row
    requires i < NUM_CLASSES
  {
    var j := i % 8;
    if i < 8 then GROUP0[j] else if i < 16 then GROUP1[j] else if i < 24 then GROUP2[j]
    else if i < 32 then GROUP3[j] else if i < 40 then GROUP4[j] else if i < 48 then GROUP5[j]
    else if i < 56 then GROUP6[j] else if i < 64 then GROUP7[j] else GROUP8[j]
  }

  /** The granule index: class of each 16-byte step, as runs of doubling length. */
  function SizeToClass(granule: nat): (c: nat)
    requires granule < 2048
    ensures c < NUM_CLASSES
  {
    if granule < 16 then granule
    else if granule < 32 then 16 + (granule - 16) / 2
    else if granule < 64 then 24 + (granule - 32) / 4
    else if granule < 128 then 32 + (granule - 64) / 8
    else if granule < 256 then 40 + (granule - 128) / 16
    else if granule < 512 then 48 + (granule - 256) / 32
    else if granule < 1024 then 56 + (granule - 512) / 64
    else 64 + (granule - 1024) / 128
  }

  // ---- the table ----

  /** Object sizes grow by an eighth of a power of two within each group. */
  function SizeOf(i: nat): nat {
    if i < 16 then 16 * (i + 1)
    else if i < 24 then 32 * (i - 7)
    else if i < 32 then 64 * (i - 15)
    else if i < 40 then 128 * (i - 23)
    else if i < 48 then 256 * (i - 31)
    else if i < 56 then 512 * (i - 39)
    else if i < 64 then 1024 * (i - 47)
    else 2048 * (i - 55)
  }

  predicate IsClassAlign(a: nat) {
    a == 16 || a == 32 || a == 64 || a == 128 || a == 256 || a == 512 || a == 1024 || a == 2048 || a == 4096 ||
    a == 8192 || a == 16384
  }

  /** What every row satisfies. */
  predicate RowOk(i: nat, r: Row) {
    && r.size == SizeOf(i) && IsClassAlign(r.align) && r.size % r.align == 0
    && r.objects > 0 && r.objects * r.size <= r.slabPages * PAGE_SIZE < (r.objects + 1) * r.size
    && (r.align < MAX_ALIGN ==> r.size % (2 * r.align) != 0)
  }

  lemma RowsOk(i: nat)
    requires i < NUM_CLASSES
    ensures RowOk(i, RowAt(i))
  {
    var j := i % 8;
    if i < 8 { assert i == j; EightCases(j); }
    else if i < 16 { assert i == 8 + j; EightCases(j); }
    else if i < 24 { assert i == 16 + j; EightCases(j); }
    else if i < 32 { assert i == 24 + j; EightCases(j); }
    else if i < 40 { assert i == 32 + j; EightCases(j); }
    else if i < 48 { assert i == 40 + j; EightCases(j); }
    else if i < 56 { assert i == 48 + j; EightCases(j); }
    else if i < 64 { assert i == 56 + j; EightCases(j); }
    else { assert i == 64 + j; EightCases(j); }
  }

  lemma EightCases(j: nat)
    requires j < 8
    ensures j == 0 || j == 1 || j == 2 || j == 3 || j == 4 || j == 5 || j == 6 || j == 7
  {
  }

  lemma SizesIncrease(i: nat, j: nat)
    requires i < j < NUM_CLASSES
    ensures SizeOf(i) < SizeOf(j)
  {
  }

  /** The index gives the smallest class that is large enough. */
  lemma IndexIsSmallestFit(size: nat)
    requires 0 < size <= SMALL_MAX
    ensures (size - 1) / QUANTUM < 2048
    ensures var c := SizeToClass((size - 1) / QUANTUM);
            size <= RowAt(c).size && forall d: nat :: d < c ==> RowAt(d).size < size
  {
    var c := SizeToClass((size - 1) / QUANTUM);
    RowsOk(c);
    assert size <= SizeOf(c) && (c > 0 ==> SizeOf(c - 1) < size);
    forall d: nat | d < c ensures RowAt(d).size < size {
      RowsOk(d);
      if d < c - 1 { SizesIncrease(d, c - 1); }
    }
  }

  /** Where a request is not over-aligned, rounding up wastes less than an eighth. */
  lemma WasteIsUnderOneEighth(size: nat)
    requires 128 < size <= SMALL_MAX
    ensures 8 * (RowAt(SizeToClass((size - 1) / QUANTUM)).size - size) < size
  {
    RowsOk(SizeToClass((size - 1) / QUANTUM));
  }

  // ---- the walk to an aligned class ----

  /** First class at or after `start` whose alignment suffices. */
  function Walk(start: nat, align: nat): (r: Option<nat>)
    requires start <= NUM_CLASSES
    ensures r.Some? ==> start <= r.value < NUM_CLASSES && align <= RowAt(r.value).align
    ensures r.Some? ==> forall k: nat :: start <= k < r.value ==> RowAt(k).align < align
    ensures r.None? ==> forall k: nat :: start <= k < NUM_CLASSES ==> RowAt(k).align < align
    decreases NUM_CLASSES - start
  {
    if start == NUM_CLASSES then None
    else if RowAt(start).align < align then Walk(start + 1, align)
    else Some(start)
  }

  method AlignWalk(start: nat, align: nat) returns (r: Option<nat>)
    requires start <= NUM_CLASSES
    ensures r == Walk(start, align)
  {
    var idx := start;
    while idx < NUM_CLASSES && RowAt(idx).align < align
      invariant start <= idx <= NUM_CLASSES && Walk(start, align) == Walk(idx, align)
    {
      idx := idx + 1;
    }
    return if idx < NUM_CLASSES then Some(idx) else None;
  }

  function SizeClass(size: nat, align: nat): (r: Option<nat>)
    ensures r.Some? ==> r.value < NUM_CLASSES
  {
    if size == 0 || size > SMALL_MAX || align > MAX_ALIGN then None
    else Walk(SizeToClass((size - 1) / QUANTUM), align)
  }

  predicate Serves(c: nat, size: nat, align: nat)
    requires c < NUM_CLASSES
  {
    size <= RowAt(c).size && align <= RowAt(c).align
  }

  /** The class found is the smallest that covers both size and alignment, and one is found whenever one exists. */
  lemma SizeClassIsSmallest(size: nat, align: nat)
    requires size > 0
    ensures SizeClass(size, align).Some? <==> size <= SMALL_MAX && align <= MAX_ALIGN
    ensures SizeClass(size, align).Some? <==> exists c: nat :: c < NUM_CLASSES && Serves(c, size, align)
    ensures SizeClass(size, align).Some? ==>
              var c := SizeClass(size, align).value;
              c < NUM_CLASSES && Serves(c, size, align) && forall d: nat :: d < c ==> !Serves(d, size, align)
  {
    LastClass();
    if size <= SMALL_MAX && align <= MAX_ALIGN {
      IndexIsSmallestFit(size);
      var start := SizeToClass((size - 1) / QUANTUM);
      assert start <= 71;
      var c := SizeClass(size, align).value;
      RowsOk(c);
      RowsOk(start);
      if start < c { SizesIncrease(start, c); }
      assert Serves(c, size, align);
    } else {
      forall c: nat | c < NUM_CLASSES ensures !Serves(c, size, align) {
        RowsOk(c);
        if c < 71 { SizesIncrease(c, 71); }
      }
    }
  }

  lemma LastClass()
    ensures RowAt(71).size == SMALL_MAX && RowAt(71).align == MAX_ALIGN
  {
  }

  /** Alignments up to 16 never move the choice: every class is at least that aligned. */
  lemma SmallAlignmentsAgree(size: nat, a: nat, b: nat)
    requires a <= MIN_ALIGN && b <= MIN_ALIGN
    ensures SizeClass(size, a) == SizeClass(size, b)
  {
    if 0 < size <= SMALL_MAX {
      var start := SizeToClass((size - 1) / QUANTUM);
      RowsOk(start);
    }
  }

  // ---- slabs ----

  lemma ClassAlignsArePow2(a: nat)
    requires IsClassAlign(a)
    ensures IsPow2(a) && PAGE_SIZE % a == 0
  {
    assert IsPow2(2);
    assert IsPow2(4);
    assert IsPow2(8);
    assert IsPow2(16);
    assert IsPow2(32);
    assert IsPow2(64);
    assert IsPow2(128);
    assert IsPow2(256);
    assert IsPow2(512);
    assert IsPow2(1024);
    assert IsPow2(2048);
    assert IsPow2(4096);
    assert IsPow2(8192);
  }

  /** Every object of a page-aligned slab lies inside it and meets the class alignment, hence the request's. */
  lemma SlabObjectsFitAndAlign(c: nat, base: nat, k: nat, align: nat)
    requires c < NUM_CLASSES && base % PAGE_SIZE == 0 && k < RowAt(c).objects
    requires IsPow2(align) && align <= RowAt(c).align
    ensures var r := RowAt(c);
            && base + k * r.size + r.size <= base + r.slabPages * PAGE_SIZE
            && (base + k * r.size) % r.align == 0 && align > 0 && (base + k * r.size) % align == 0
  {
    RowsOk(c);
    ObjectsFitAndAlign(RowAt(c), base, k, align);
    hide RowAt;
  }

  lemma ObjectsFitAndAlign(r: Row, base: nat, k: nat, align: nat)
    requires IsClassAlign(r.align) && r.size % r.align == 0 && r.objects * r.size <= r.slabPages * PAGE_SIZE
    requires base % PAGE_SIZE == 0 && k < r.objects && IsPow2(align) && align <= r.align
    ensures base + k * r.size + r.size <= base + r.slabPages * PAGE_SIZE
    ensures (base + k * r.size) % r.align == 0 && align > 0 && (base + k * r.size) % align == 0
  {
    ClassAlignsArePow2(r.align);
    assert r.align > 0;
    hide IsPow2, IsClassAlign;
    MulMonotone(k + 1, r.objects, r.size);
    assert (k + 1) * r.size == k * r.size + r.size;
    MultipleOfMultiple(base, PAGE_SIZE, r.align);
    Times(k, r.size, r.align);
    SumOfMultiples(base, k * r.size, r.align);
    LargerPow2IsMultiple(r.align, align);
    MultipleOfMultiple(base + k * r.size, r.align, align);
  }

  lemma Times(k: nat, x: nat, a: nat)
    requires a > 0 && x % a == 0
    ensures (k * x) % a == 0
  {
    Whole(x, a);
    assert k * x == (k * (x / a)) * a;
    MulDiv(k * (x / a), a);
  }

  // ---- classification ----

  datatype Kind = Small(sc: nat, usable: nat) | Medium(bytes: nat) | Large(bytes: nat)

  datatype Request = Request(arena: Option<nat>, align: nat, flags: nat, kind: Kind)

  /** Round up to a multiple of a power of two, refusing to wrap. */
  function CheckedAlignUp(v: nat, a: nat): Option<nat>
    requires a > 0
  {
    if v + (a - 1) >= W64 then None else Some(AlignUp(v, a))
  }

  function KindOf(size: nat, align: nat): Option<Kind> {
    var effective := Max(size, 1);
    match SizeClass(effective, align)
    case Some(sc) => Some(Small(sc, RowAt(sc).size))
    case None =>
      var span := Max(effective, align);
      match CheckedAlignUp(span, PAGE_SIZE)
      case None => None
      case Some(bytes) => Some(if span >= HUGE_THRESHOLD then Large(bytes) else Kind.Medium(bytes))
  }

  function Classify(size: u64, align: u64, flags: u32): Option<Request> {
    if !IsPow2(align) then None
    else match FromRaw(flags)
      case None => None
      case Some(f) =>
        match KindOf(size, align)
        case None => None
        case Some(kind) => Some(Request(ArenaOf(f), align, f, kind))
  }

  /** The bytes a classification provides. */
  function Provides(k: Kind): nat { match k case Small(_, u) => u case Medium(b) => b case Large(b) => b }

  lemma RowCoversItsAlignment(c: nat)
    requires c < NUM_CLASSES
    ensures RowAt(c).align <= RowAt(c).size
  {
    RowsOk(c);
  }

  lemma KindCovers(size: nat, align: nat)
    ensures var span := Max(Max(size, 1), align);
            KindOf(size, align).Some? <==> span + PAGE_SIZE - 1 < W64
    ensures KindOf(size, align).Some? ==>
              var k := KindOf(size, align).value;
              var span := Max(Max(size, 1), align);
              && size <= Provides(k) && align <= Provides(k)
              && (k.Small? <==> Max(size, 1) <= SMALL_MAX && align <= MAX_ALIGN)
              && (!k.Small? ==> Provides(k) < span + PAGE_SIZE && Provides(k) % PAGE_SIZE == 0)
              && (k.Large? <==> span >= HUGE_THRESHOLD)
  {
    hide RowAt, SizeClass, AlignUp;
    var e := Max(size, 1);
    SizeClassIsSmallest(e, align);
    if SizeClass(e, align).Some? { RowCoversItsAlignment(SizeClass(e, align).value); }
    AlignUpIsLeast(Max(e, align), PAGE_SIZE);
  }

  /**
   Classification fails exactly on a bad alignment, bad flags or an unrepresentable rounding;
   what it provides covers both size and alignment; beyond the small classes it wastes less
   than a page, and Large begins at the huge threshold.
   */
  lemma ClassificationCovers(size: u64, align: u64, flags: u32)
    ensures var span := Max(Max(size, 1), align);
            Classify(size, align, flags).Some? <==>
              IsPow2(align) && FromRaw(flags).Some? && span + PAGE_SIZE - 1 < W64
    ensures Classify(size, align, flags).Some? ==>
              var k := Classify(size, align, flags).value.kind;
              var span := Max(Max(size, 1), align);
              && size <= Provides(k) && align <= Provides(k)
              && (k.Small? <==> Max(size, 1) <= SMALL_MAX && align <= MAX_ALIGN)
              && (!k.Small? ==> Provides(k) < span + PAGE_SIZE && Provides(k) % PAGE_SIZE == 0)
              && (k.Large? <==> span >= HUGE_THRESHOLD)
  {
    hide KindOf, IsPow2, FromRaw, Provides;
    KindCovers(size, align);
  }
}

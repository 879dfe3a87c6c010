/**
 The public 64-bit flag word and the internal 32-bit one.

 Words are natural numbers; a field of `n` bits at bit `k` is `w / 2^k % 2^n`, which is what
 masking and shifting select. Setting a field replaces those bits and no others.
 */
module Flags {
  import opened Pages
  import opened Words
  import opened Wrappers

  type u32 = x: nat | x < 0x1_0000_0000

  datatype Lifetime = Unspecified | Short | Medium | Long
  datatype HugepagePolicy = Default | Avoid | Prefer

  const MAX_ARENA_ID: nat := 254

  // Public layout: value of the lowest bit of each field.
  const TOPO_ZERO: nat := 0x40
  const TOPO_TCACHE_NONE: nat := 0x80
  const TOPO_GUARDED: nat := 0x100
  const TOPO_NO_HUGEPAGE: nat := 0x200
  const TOPO_PREFER_HUGEPAGE: nat := 0x400
  const LIFETIME_ONE: nat := 0x800
  const HOTNESS_ONE: nat := 0x2000
  const ARENA_ONE: nat := 0x20_0000
  const FIRST_RESERVED: nat := 0x20_0000_0000_0000     // bit 53

  // Internal layout.
  const ZERO: nat := 1
  const CACHE_BYPASS: nat := 2
  const GUARDED: nat := 4
  const NO_HUGEPAGE: nat := 8
  const PREFER_HUGEPAGE: nat := 0x10
  const RAW_LIFETIME: nat := 0x20
  const RAW_HOTNESS: nat := 0x80
  const RAW_ARENA: nat := 0x8000
  const RAW_RESERVED: nat := 0x80_0000                 // bit 23

  /** The field of radix `base` whose lowest bit has value `one`. */
  function Field(w: nat, one: nat, base: nat): (r: nat)
    requires one > 0 && base > 0
    ensures r < base
  {
    w / one % base
  }

  /** What lies at and above the bit of value `one`. */
  function Rest(w: nat, one: nat): nat
    requires one > 0
  {
    w / one
  }

  // ---- the internal word ----

  function LifetimeCode(l: Lifetime): nat {
    match l case Unspecified => 0 case Short => 1 case Medium => 2 case Long => 3
  }

  function LifetimeOf(code: nat): Lifetime {
    if code == 1 then Short else if code == 2 then Medium else if code == 3 then Long else Unspecified
  }

  function WithZero(raw: nat): nat { if Field(raw, 1, 2) == 1 then raw else raw + ZERO }
  function WithCacheBypass(raw: nat): nat { if Field(raw, CACHE_BYPASS, 2) == 1 then raw else raw + CACHE_BYPASS }
  function WithGuarded(raw: nat): nat { if Field(raw, GUARDED, 2) == 1 then raw else raw + GUARDED }

  function WithHugepage(raw: nat, policy: HugepagePolicy): nat {
    var cleared := raw - (Field(raw, NO_HUGEPAGE, 4)) * NO_HUGEPAGE;
    match policy
    case Default => cleared
    case Avoid => cleared + NO_HUGEPAGE
    case Prefer => cleared + PREFER_HUGEPAGE
  }

  function WithLifetime(raw: nat, l: Lifetime): nat {
    raw - (Field(raw, RAW_LIFETIME, 4)) * RAW_LIFETIME + LifetimeCode(l) * RAW_LIFETIME
  }

  function WithHotness(raw: nat, h: nat): nat {
    raw - (Field(raw, RAW_HOTNESS, 256)) * RAW_HOTNESS + h * RAW_HOTNESS
  }

  function WithArena(raw: nat, id: nat): Option<nat> {
    if id > MAX_ARENA_ID then None
    else Some(raw - (Field(raw, RAW_ARENA, 256)) * RAW_ARENA + (id + 1) * RAW_ARENA)
  }

  predicate BothHugepage(raw: nat) { Field(raw, NO_HUGEPAGE, 2) == 1 && Field(raw, PREFER_HUGEPAGE, 2) == 1 }

  function FromRaw(raw: u32): Option<nat> {
    if raw >= RAW_RESERVED || BothHugepage(raw) then None else Some(raw)
  }

  datatype Hints = Hints(zero: bool, bypass: bool, guarded: bool, huge: HugepagePolicy, lifetime: Lifetime, hotness: nat)

  function HintsOf(raw: nat): Hints {
    Hints(Field(raw, 1, 2) == 1, Field(raw, CACHE_BYPASS, 2) == 1, Field(raw, GUARDED, 2) == 1,
          if Field(raw, NO_HUGEPAGE, 2) == 1 then Avoid else if Field(raw, PREFER_HUGEPAGE, 2) == 1 then Prefer else Default,
          LifetimeOf(Field(raw, RAW_LIFETIME, 4)), Field(raw, RAW_HOTNESS, 256))
  }

  /** The arena named, or none for the default arena. */
  function ArenaOf(raw: nat): Option<nat> {
    var v := Field(raw, RAW_ARENA, 256);
    if v == 0 then None else Some(v - 1)
  }

  // ---- the public word ----

  function TopoAlignLg(la: u32): u64 {
    if la < 64 then la else 0x8000_0000_0000_0000
  }

  function TopoHot(h: nat): u64
    requires h < 256
  {
    h * HOTNESS_ONE
  }

  function TopoArena(id: u32): u64 { (id + 1) * ARENA_ONE }

  datatype Decoded = Decoded(align: nat, raw: nat)

  /** The three single-bit hints. */
  function DecodeBits(zero: bool, bypass: bool, guarded: bool): nat {
    var f := 0;
    var f := if zero then WithZero(f) else f;
    var f := if bypass then WithCacheBypass(f) else f;
    if guarded then WithGuarded(f) else f
  }

  /** The internal word with every hint set and no arena. */
  function DecodeHints(bits: nat, avoid: bool, prefer: bool, lifetime: nat, hotness: nat): nat {
    var f := if avoid then WithHugepage(bits, Avoid) else if prefer then WithHugepage(bits, Prefer) else bits;
    var f := WithLifetime(f, LifetimeOf(lifetime));
    WithHotness(f, hotness)
  }

  function DecodeFlags(w: u64): Option<Decoded> {
    if w >= FIRST_RESERVED then None
    else
      var la := Field(w, 1, 64);
      var bits := DecodeBits(Field(w, TOPO_ZERO, 2) == 1, Field(w, TOPO_TCACHE_NONE, 2) == 1, Field(w, TOPO_GUARDED, 2) == 1);
      var avoid, prefer := Field(w, TOPO_NO_HUGEPAGE, 2) == 1, Field(w, TOPO_PREFER_HUGEPAGE, 2) == 1;
      if la >= USIZE_BITS || (avoid && prefer) then None
      else
        var f := DecodeHints(bits, avoid, prefer, Field(w, LIFETIME_ONE, 4), Field(w, HOTNESS_ONE, 256));
        var field := Field(w, ARENA_ONE, 0x1_0000_0000);
        if field == 0 then Some(Decoded(Pow2(la), f))
        else match WithArena(f, field - 1)
          case None => None
          case Some(g) => Some(Decoded(Pow2(la), g))
  }

  // ---- fields ----

  /** A request as the caller means it. */
  datatype Fields = Fields(la: nat, hints: Hints, arena: Option<nat>)

  predicate Encodable(f: Fields) {
    f.la < 64 && f.hints.hotness < 256 && (f.arena.Some? ==> f.arena.value <= MAX_ARENA_ID)
  }

  function B(b: bool): nat { if b then 1 else 0 }

  /** The word a caller builds by or-ing the constants and constructors. */
  function Encode(f: Fields): (w: u64)
    requires Encodable(f)
    ensures w < FIRST_RESERVED
  {
    TopoAlignLg(f.la)
    + B(f.hints.zero) * TOPO_ZERO + B(f.hints.bypass) * TOPO_TCACHE_NONE + B(f.hints.guarded) * TOPO_GUARDED
    + B(f.hints.huge == Avoid) * TOPO_NO_HUGEPAGE + B(f.hints.huge == Prefer) * TOPO_PREFER_HUGEPAGE
    + LifetimeCode(f.hints.lifetime) * LIFETIME_ONE + TopoHot(f.hints.hotness)
    + (match f.arena case None => 0 case Some(id) => TopoArena(id))
  }

  /** The fields of a word, read at their own positions. */
  function FieldsOf(w: u64): Fields {
    Fields(Field(w, 1, 64),
           Hints(Field(w, TOPO_ZERO, 2) == 1, Field(w, TOPO_TCACHE_NONE, 2) == 1, Field(w, TOPO_GUARDED, 2) == 1,
                 if Field(w, TOPO_NO_HUGEPAGE, 2) == 1 then Avoid
                 else if Field(w, TOPO_PREFER_HUGEPAGE, 2) == 1 then Prefer else Default,
                 LifetimeOf(Field(w, LIFETIME_ONE, 4)), Field(w, HOTNESS_ONE, 256)),
           var a := Field(w, ARENA_ONE, 0x1_0000_0000);
           if a == 0 then None else Some(a - 1))
  }

  /** The internal word carrying exactly these hints and this arena. */
  function Build(h: Hints, arena: Option<nat>): nat
    requires h.hotness < 256 && (arena.Some? ==> arena.value <= MAX_ARENA_ID)
  {
    B(h.zero) * ZERO + B(h.bypass) * CACHE_BYPASS + B(h.guarded) * GUARDED
    + B(h.huge == Avoid) * NO_HUGEPAGE + B(h.huge == Prefer) * PREFER_HUGEPAGE
    + LifetimeCode(h.lifetime) * RAW_LIFETIME + h.hotness * RAW_HOTNESS
    + (match arena case None => 0 case Some(id) => (id + 1) * RAW_ARENA)
  }

  // ---- theorems ----

  /** What makes a word acceptable: no reserved bit, no hugepage conflict, an encodable arena. */
  predicate Acceptable(w: u64) {
    && w < FIRST_RESERVED
    && !(Field(w, TOPO_NO_HUGEPAGE, 2) == 1 && Field(w, TOPO_PREFER_HUGEPAGE, 2) == 1)
    && Field(w, ARENA_ONE, 0x1_0000_0000) <= MAX_ARENA_ID + 1
  }

  lemma DecodeAcceptsExactly(w: u64)
    ensures DecodeFlags(w).Some? <==> Acceptable(w)
  {
  }

  // One digit of a mixed-radix number.

  /** The field of radix `base` at `one`, and what lies above it. */
  lemma Digit(w: nat, one: nat, base: nat, lo: nat, rest: nat)
    requires one > 0 && base > 0 && w / one == lo + base * rest && lo < base
    ensures Field(w, one, base) == lo && w / (one * base) == rest
  {
    var q := w / one;
    assert rest * base == base * rest;
    assert (rest + 1) * base == rest * base + base;
    DivUnique(q, base, rest);
    DivMod(q, base);
    DivDiv(w, one, base);
  }

  lemma Regroup(d: nat, a: nat, b: nat)
    ensures d * (a * b) == d * b * a
  {
  }

  lemma DivDiv(w: nat, a: nat, b: nat)
    requires a > 0 && b > 0
    ensures w / (a * b) == w / a / b
  {
    var q := Quotient(w, a);
    var d := Quotient(q, b);
    MulMonotone(d * b, q, a);
    MulMonotone(q + 1, (d + 1) * b, a);
    Regroup(d, a, b);
    Regroup(d + 1, a, b);
    DivUnique(w, a * b, d);
  }

  /** A number from one of its digits and what lies above it. */
  lemma Above(w: nat, one: nat, base: nat)
    requires one > 0 && base > 0
    ensures Rest(w, one) == Field(w, one, base) + base * Rest(w, one * base)
  {
    DivMod(w / one, base);
    DivDiv(w, one, base);
  }

  /** The digits of a public word. */
  lemma PublicDigits(w: nat, la: nat, z: nat, b: nat, g: nat, n: nat, p: nat, l: nat, h: nat, a: nat)
    requires la < 64 && z < 2 && b < 2 && g < 2 && n < 2 && p < 2 && l < 4 && h < 256 && a < 0x1_0000_0000
    requires w == la + 64 * (z + 2 * (b + 2 * (g + 2 * (n + 2 * (p + 2 * (l + 4 * (h + 256 * a)))))))
    ensures Field(w, 1, 64) == la && Field(w, TOPO_ZERO, 2) == z && Field(w, TOPO_TCACHE_NONE, 2) == b && Field(w, TOPO_GUARDED, 2) == g
    ensures Field(w, TOPO_NO_HUGEPAGE, 2) == n && Field(w, TOPO_PREFER_HUGEPAGE, 2) == p && Field(w, LIFETIME_ONE, 4) == l
    ensures Field(w, HOTNESS_ONE, 256) == h && Field(w, ARENA_ONE, 0x1_0000_0000) == a
  {
    Digit(w, 1, 64, la, z + 2 * (b + 2 * (g + 2 * (n + 2 * (p + 2 * (l + 4 * (h + 256 * a)))))));
    Digit(w, 0x40, 2, z, b + 2 * (g + 2 * (n + 2 * (p + 2 * (l + 4 * (h + 256 * a))))));
    Digit(w, 0x80, 2, b, g + 2 * (n + 2 * (p + 2 * (l + 4 * (h + 256 * a)))));
    Digit(w, 0x100, 2, g, n + 2 * (p + 2 * (l + 4 * (h + 256 * a))));
    Digit(w, 0x200, 2, n, p + 2 * (l + 4 * (h + 256 * a)));
    Digit(w, 0x400, 2, p, l + 4 * (h + 256 * a));
    Digit(w, 0x800, 4, l, h + 256 * a);
    Digit(w, 0x2000, 256, h, a);
    Digit(w, 0x20_0000, 0x1_0000_0000, a, 0);
  }

  lemma RawDigits(w: nat, z: nat, b: nat, g: nat, n: nat, p: nat, l: nat, h: nat, a: nat)
    requires z < 2 && b < 2 && g < 2 && n < 2 && p < 2 && l < 4 && h < 256 && a < 256
    requires w == z + 2 * (b + 2 * (g + 2 * (n + 2 * (p + 2 * (l + 4 * (h + 256 * a))))))
    ensures Field(w, 1, 2) == z && Field(w, CACHE_BYPASS, 2) == b && Field(w, GUARDED, 2) == g && Field(w, NO_HUGEPAGE, 2) == n
    ensures Field(w, PREFER_HUGEPAGE, 2) == p && Field(w, RAW_LIFETIME, 4) == l && Field(w, RAW_HOTNESS, 256) == h
    ensures Field(w, RAW_ARENA, 256) == a && w < RAW_RESERVED
  {
    Digit(w, 1, 2, z, b + 2 * (g + 2 * (n + 2 * (p + 2 * (l + 4 * (h + 256 * a))))));
    Digit(w, 2, 2, b, g + 2 * (n + 2 * (p + 2 * (l + 4 * (h + 256 * a)))));
    Digit(w, 4, 2, g, n + 2 * (p + 2 * (l + 4 * (h + 256 * a))));
    Digit(w, 8, 2, n, p + 2 * (l + 4 * (h + 256 * a)));
    Digit(w, 0x10, 2, p, l + 4 * (h + 256 * a));
    Digit(w, 0x20, 4, l, h + 256 * a);
    Digit(w, 0x80, 256, h, a);
    Digit(w, 0x8000, 256, a, 0);
  }

  /** The internal word gives back the hints and the arena it was built from, and is always valid. */
  lemma BuildRoundTrip(h: Hints, arena: Option<nat>)
    requires h.hotness < 256 && (arena.Some? ==> arena.value <= MAX_ARENA_ID)
    ensures var raw := Build(h, arena);
            raw < RAW_RESERVED && FromRaw(raw) == Some(raw) && HintsOf(raw) == h && ArenaOf(raw) == arena
  {
    RawDigits(Build(h, arena), B(h.zero), B(h.bypass), B(h.guarded), B(h.huge == Avoid), B(h.huge == Prefer),
              LifetimeCode(h.lifetime), h.hotness, match arena case None => 0 case Some(id) => id + 1);
    hide Build, Field;
  }

  /** Encoding fields and reading them gives the fields back: no field overlaps another. */
  lemma EncodeRoundTrip(f: Fields)
    requires Encodable(f)
    ensures FieldsOf(Encode(f)) == f && Acceptable(Encode(f))
  {
    hide Field;
    var h := f.hints;
    PublicDigits(Encode(f), f.la, B(h.zero), B(h.bypass), B(h.guarded), B(h.huge == Avoid), B(h.huge == Prefer),
                 LifetimeCode(h.lifetime), h.hotness, match f.arena case None => 0 case Some(id) => id + 1);
    hide Encode;
  }

  /** Every acceptable word is the encoding of its fields: it carries nothing else. */
  lemma FieldsRoundTrip(w: u64)
    requires Acceptable(w)
    ensures Encodable(FieldsOf(w)) && Encode(FieldsOf(w)) == w
  {
    hide Field, Encode;
    Horner(w);
    Refill(Field(w, 1, 64), Field(w, TOPO_ZERO, 2), Field(w, TOPO_TCACHE_NONE, 2), Field(w, TOPO_GUARDED, 2),
           Field(w, TOPO_NO_HUGEPAGE, 2), Field(w, TOPO_PREFER_HUGEPAGE, 2), Field(w, LIFETIME_ONE, 4),
           Field(w, HOTNESS_ONE, 256), Field(w, ARENA_ONE, 0x1_0000_0000));
  }

  /** Encoding the fields read from digits gives the digits' sum. */
  lemma Refill(la: nat, z: nat, b: nat, g: nat, n: nat, p: nat, l: nat, h: nat, a: nat)
    requires la < 64 && z < 2 && b < 2 && g < 2 && n < 2 && p < 2 && n + p < 2 && l < 4 && h < 256 && a <= MAX_ARENA_ID + 1
    ensures var f := Fields(la,
                            Hints(z == 1, b == 1, g == 1, if n == 1 then Avoid else if p == 1 then Prefer else Default,
                                  LifetimeOf(l), h),
                            if a == 0 then None else Some(a - 1));
            Encodable(f) && Encode(f) == la + z * TOPO_ZERO + b * TOPO_TCACHE_NONE + g * TOPO_GUARDED
              + n * TOPO_NO_HUGEPAGE + p * TOPO_PREFER_HUGEPAGE + l * LIFETIME_ONE + h * HOTNESS_ONE + a * ARENA_ONE
  {
    assert LifetimeCode(LifetimeOf(l)) == l;
    assert B(z == 1) == z && B(b == 1) == b && B(g == 1) == g;
  }

  /** An acceptable word as the sum of its fields. */
  lemma Horner(w: u64)
    requires w < FIRST_RESERVED
    ensures w == Field(w, 1, 64) + Field(w, TOPO_ZERO, 2) * TOPO_ZERO + Field(w, TOPO_TCACHE_NONE, 2) * TOPO_TCACHE_NONE
              + Field(w, TOPO_GUARDED, 2) * TOPO_GUARDED + Field(w, TOPO_NO_HUGEPAGE, 2) * TOPO_NO_HUGEPAGE
              + Field(w, TOPO_PREFER_HUGEPAGE, 2) * TOPO_PREFER_HUGEPAGE + Field(w, LIFETIME_ONE, 4) * LIFETIME_ONE
              + Field(w, HOTNESS_ONE, 256) * HOTNESS_ONE + Field(w, ARENA_ONE, 0x1_0000_0000) * ARENA_ONE
  {
    assert Rest(w, 1) == w && Rest(w, FIRST_RESERVED) == 0;
    hide Rest, Field;
    Above(w, 1, 64);
    Above(w, 0x40, 2);
    Above(w, 0x80, 2);
    Above(w, 0x100, 2);
    Above(w, 0x200, 2);
    Above(w, 0x400, 2);
    Above(w, 0x800, 4);
    Above(w, 0x2000, 256);
    Above(w, 0x20_0000, 0x1_0000_0000);
  }

  lemma BitsAreIndependent(zero: bool, bypass: bool, guarded: bool)
    ensures DecodeBits(zero, bypass, guarded) == B(zero) + 2 * B(bypass) + 4 * B(guarded)
  {
  }

  lemma HintsAreIndependent(bits: nat, avoid: bool, prefer: bool, l: nat, h: nat)
    requires bits < 8 && !(avoid && prefer) && l < 4 && h < 256
    ensures DecodeHints(bits, avoid, prefer, l, h) ==
            bits + B(avoid) * NO_HUGEPAGE + B(prefer) * PREFER_HUGEPAGE + l * RAW_LIFETIME + h * RAW_HOTNESS
  {
  }

  lemma ArenaIsIndependent(raw: nat, id: nat)
    requires raw < RAW_ARENA && id <= MAX_ARENA_ID
    ensures WithArena(raw, id) == Some(raw + (id + 1) * RAW_ARENA)
  {
  }

  /** Decoding an acceptable word yields its alignment and an internal word with the same fields. */
  lemma DecodeCarriesFields(w: u64)
    requires Acceptable(w)
    ensures var f := FieldsOf(w);
            Encodable(f) && DecodeFlags(w) == Some(Decoded(Pow2(f.la), Build(f.hints, f.arena)))
  {
    hide DecodeBits, DecodeHints, WithArena, Field;
    var f := FieldsOf(w);
    BitsAreIndependent(f.hints.zero, f.hints.bypass, f.hints.guarded);
    var bits := DecodeBits(f.hints.zero, f.hints.bypass, f.hints.guarded);
    var l, h := Field(w, LIFETIME_ONE, 4), Field(w, HOTNESS_ONE, 256);
    HintsAreIndependent(bits, f.hints.huge == Avoid, f.hints.huge == Prefer, l, h);
    var raw := DecodeHints(bits, f.hints.huge == Avoid, f.hints.huge == Prefer, l, h);
    if f.arena.Some? { ArenaIsIndependent(raw, f.arena.value); }
  }

  /**
   What decoding an encoded request gives: its own alignment, and an internal word that is
   valid and has exactly its hints and arena.
   */
  lemma RoundTrip(f: Fields)
    requires Encodable(f)
    ensures var d := DecodeFlags(Encode(f));
            && d.Some? && d.value.align == Pow2(f.la)
            && d.value.raw < RAW_RESERVED && FromRaw(d.value.raw) == Some(d.value.raw)
            && HintsOf(d.value.raw) == f.hints && ArenaOf(d.value.raw) == f.arena
  {
    EncodeRoundTrip(f);
    DecodeCarriesFields(Encode(f));
    BuildRoundTrip(f.hints, f.arena);
    hide DecodeFlags, Encode, Build, FromRaw, HintsOf, ArenaOf, FieldsOf;
  }

  /** Distinct accepted words decode to distinct requests. */
  lemma DecodeIsInjective(v: u64, w: u64)
    requires DecodeFlags(v).Some? && DecodeFlags(v) == DecodeFlags(w)
    ensures v == w
  {
    DecodeAcceptsExactly(v);
    DecodeAcceptsExactly(w);
    DecodeCarriesFields(v);
    DecodeCarriesFields(w);
    hide DecodeFlags, Acceptable, FieldsOf, Build;
    var f, g := FieldsOf(v), FieldsOf(w);
    BuildRoundTrip(f.hints, f.arena);
    BuildRoundTrip(g.hints, g.arena);
    if f.la < g.la { Pow2Grows(f.la + 1, g.la); }
    if g.la < f.la { Pow2Grows(g.la + 1, f.la); }
    FieldsRoundTrip(v);
    FieldsRoundTrip(w);
  }

  const NO_HINTS: Hints := Hints(false, false, false, Default, Unspecified, 0)

  /** For every 32-bit `la`, the alignment constructor decodes to exactly that alignment or is rejected. */
  lemma AlignConstructorIsExact(la: u32)
    ensures la < 64 ==> DecodeFlags(TopoAlignLg(la)) == Some(Decoded(Pow2(la), 0))
    ensures la >= 64 ==> DecodeFlags(TopoAlignLg(la)) == None
  {
    if la < 64 {
      var f := Fields(la, NO_HINTS, None);
      assert Encode(f) == TopoAlignLg(la);
      EncodeRoundTrip(f);
      DecodeCarriesFields(Encode(f));
    }
  }

  /** For every 32-bit `id`, the arena constructor decodes to exactly that arena or is rejected. */
  lemma ArenaConstructorIsExact(id: u32)
    ensures var d := DecodeFlags(TopoArena(id));
            if id <= MAX_ARENA_ID then d.Some? && d.value.align == 1 && ArenaOf(d.value.raw) == Some(id) && HintsOf(d.value.raw) == NO_HINTS
            else d == None
  {
    if id <= MAX_ARENA_ID {
      var f := Fields(0, NO_HINTS, Some(id));
      assert Encode(f) == TopoArena(id);
      RoundTrip(f);
    } else if id + 1 < 0x1_0000_0000 {
      PublicDigits(TopoArena(id), 0, 0, 0, 0, 0, 0, 0, 0, id + 1);
      DecodeAcceptsExactly(TopoArena(id));
    }
  }

  lemma HotnessConstructorIsExact(h: nat)
    requires h < 256
    ensures var d := DecodeFlags(TopoHot(h)); d.Some? && HintsOf(d.value.raw) == NO_HINTS.(hotness := h)
  {
    var f := Fields(0, NO_HINTS.(hotness := h), None);
    assert Encode(f) == TopoHot(h);
    RoundTrip(f);
  }
}

/**
 Seed derivation: the SplitMix64 mixer behind the per-domain streams, the post-fork
 fallback mix, and the odd-step counter that hands each thread its sampler seed.
 */
module Seeds {
  import opened Words

  const GOLDEN: u64 := 0x9E37_79B9_7F4A_7C15
  const MUL1: u64 := 0xBF58_476D_1CE4_E5B9
  const MUL2: u64 := 0x94D0_49BB_1331_11EB

  // The inverses of the three odd constants modulo 2^64.
  const GOLDEN_INV: u64 := 0xF1DE_83E1_9937_733D
  const MUL1_INV: u64 := 0x96DE_1B17_3F11_9089
  const MUL2_INV: u64 := 0x3196_42B2_D24D_8EC3

  lemma Inverses()
    ensures Mul(GOLDEN, GOLDEN_INV) == 1 && Mul(GOLDEN_INV, GOLDEN) == 1
    ensures Mul(MUL1, MUL1_INV) == 1 && Mul(MUL1_INV, MUL1) == 1
    ensures Mul(MUL2, MUL2_INV) == 1 && Mul(MUL2_INV, MUL2) == 1
  {
  }

  function XorWords(a: u64, b: u64): u64 {
    XorWord(a, b);
    Xor(a, b)
  }

  /** `z ^ (z >> k)` */
  function XorShift(z: u64, k: nat): u64 {
    ShrBound(z, k);
    XorWords(z, Shr(z, k))
  }

  /** `z ^ (z >> k) ^ (z >> 2k)`, which undoes `XorShift` once 3k reaches the word size. */
  function UnXorShift(z: u64, k: nat): u64 {
    ShrBound(z, 2 * k);
    XorWords(XorShift(z, k), Shr(z, 2 * k))
  }

  lemma XorShiftRoundTrip(z: u64, k: nat)
    requires 3 * k >= 64
    ensures UnXorShift(XorShift(z, k), k) == z
    ensures XorShift(UnXorShift(z, k), k) == z
  {
    var s, t := Shr(z, k), Shr(z, 2 * k);
    ShrTwice(z, k, k);
    ShrTwice(z, k, 2 * k);
    ShrTwice(z, 2 * k, k);
    Pow2Of64();
    ShrOut(z, 64, 3 * k);
    XorZero(s);
    XorZero(t);
    XorShr(z, s, k);
    XorShr(z, s, 2 * k);
    // w == z ^ s, w >> k == s ^ t, w >> 2k == t
    calc {
      Xor(Xor(Xor(z, s), Xor(s, t)), t);
      { XorAssociates(z, s, Xor(s, t)); XorInvolution(s, t); }
      Xor(Xor(z, t), t);
      { XorAssociates(z, t, t); XorSelf(t); XorZero(z); }
      z;
    }
    var u := Xor(Xor(z, s), t);
    XorShr(Xor(z, s), t, k);
    // u >> k == (s ^ t) ^ 0
    XorZero(Xor(s, t));
    calc {
      Xor(u, Xor(s, t));
      { XorAssociates(z, s, t); XorAssociates(z, Xor(s, t), Xor(s, t)); XorSelf(Xor(s, t)); XorZero(z); }
      z;
    }
  }

  function SplitMix64(x: u64): u64 {
    var z := Add(x, GOLDEN);
    var z := Mul(XorShift(z, 30), MUL1);
    var z := Mul(XorShift(z, 27), MUL2);
    XorShift(z, 31)
  }

  /** The inverse mixer: each stage undone, last first. */
  function UnSplitMix64(y: u64): u64 {
    var z := Mul(UnXorShift(y, 31), MUL2_INV);
    var z := Mul(UnXorShift(z, 27), MUL1_INV);
    Sub(UnXorShift(z, 30), GOLDEN)
  }

  /** SplitMix64 is a bijection on 64-bit words: `UnSplitMix64` is a two-sided inverse. */
  lemma SplitMix64Bijection(x: u64)
    ensures UnSplitMix64(SplitMix64(x)) == x
    ensures SplitMix64(UnSplitMix64(x)) == x
  {
    Inverses();
    var a := Add(x, GOLDEN);
    var b := Mul(XorShift(a, 30), MUL1);
    var c := Mul(XorShift(b, 27), MUL2);
    AddSub(x, GOLDEN);
    XorShiftRoundTrip(a, 30);
    MulInverse(XorShift(a, 30), MUL1, MUL1_INV);
    XorShiftRoundTrip(b, 27);
    MulInverse(XorShift(b, 27), MUL2, MUL2_INV);
    XorShiftRoundTrip(c, 31);
    var d := Mul(UnXorShift(x, 31), MUL2_INV);
    var e := Mul(UnXorShift(d, 27), MUL1_INV);
    XorShiftRoundTrip(x, 31);
    MulInverse(UnXorShift(x, 31), MUL2_INV, MUL2);
    XorShiftRoundTrip(d, 27);
    MulInverse(UnXorShift(d, 27), MUL1_INV, MUL1);
    XorShiftRoundTrip(e, 30);
    AddSub(UnXorShift(e, 30), GOLDEN);
  }

  // ---- per-domain seeds ----

  function MixSeed(base: u64, salt: u64): u64 {
    SplitMix64(XorWords(base, SplitMix64(salt)))
  }

  /** A zero state would stall an xorshift generator, so 0 is mapped to 1. */
  function NonZero(mixed: u64): u64 { if mixed == 0 then 1 else mixed }

  function DomainSeed(seed: u64, salt: u64): u64 { NonZero(MixSeed(seed, salt)) }

  /** The one salt whose raw mix under `base` is `target`. */
  function SaltFor(base: u64, target: u64): u64 {
    UnSplitMix64(XorWords(base, UnSplitMix64(target)))
  }

  /** The one base whose raw mix with `salt` is `target`. */
  function BaseFor(salt: u64, target: u64): u64 {
    XorWords(SplitMix64(salt), UnSplitMix64(target))
  }

  lemma MixSeedBijectiveInSalt(base: u64, salt: u64, target: u64)
    ensures SaltFor(base, MixSeed(base, salt)) == salt
    ensures MixSeed(base, SaltFor(base, target)) == target
  {
    var s := SplitMix64(salt);
    SplitMix64Bijection(XorWords(base, s));
    XorInvolution(base, s);
    SplitMix64Bijection(salt);
    var t := UnSplitMix64(target);
    SplitMix64Bijection(target);
    SplitMix64Bijection(XorWords(base, t));
    XorInvolution(base, t);
  }

  lemma MixSeedBijectiveInBase(base: u64, salt: u64, target: u64)
    ensures BaseFor(salt, MixSeed(base, salt)) == base
    ensures MixSeed(BaseFor(salt, target), salt) == target
  {
    var s := SplitMix64(salt);
    SplitMix64Bijection(XorWords(base, s));
    XorCommutes(base, s);
    XorInvolution(s, base);
    var t := UnSplitMix64(target);
    SplitMix64Bijection(target);
    XorCommutes(Xor(s, t), s);
    XorInvolution(s, t);
  }

  /** `{x, y} == {0, 1}` as unordered pairs: the only inputs `NonZero` identifies. */
  predicate ZeroOnePair(x: u64, y: u64) {
    (x == 0 && y == 1) || (x == 1 && y == 0)
  }

  lemma SaltForUnique(base: u64, salt: u64, target: u64)
    ensures MixSeed(base, salt) == target <==> salt == SaltFor(base, target)
  {
    MixSeedBijectiveInSalt(base, salt, target);
  }

  lemma BaseForUnique(base: u64, salt: u64, target: u64)
    ensures MixSeed(base, salt) == target <==> base == BaseFor(salt, target)
  {
    MixSeedBijectiveInBase(base, salt, target);
  }

  /**
   Under every global seed the domain seed is never zero, and two salts share a domain seed
   exactly when they are equal or are the two salts whose raw mixes are 0 and 1. That pair
   exists for every seed and is computed by `SaltFor`.
   */
  lemma DomainSeedsDistinctBySalt(seed: u64, a: u64, b: u64)
    ensures DomainSeed(seed, a) != 0
    ensures DomainSeed(seed, a) == DomainSeed(seed, b) <==>
            a == b || ZeroOnePair(MixSeed(seed, a), MixSeed(seed, b))
    ensures ZeroOnePair(MixSeed(seed, a), MixSeed(seed, b)) <==>
            (a == SaltFor(seed, 0) && b == SaltFor(seed, 1)) ||
            (a == SaltFor(seed, 1) && b == SaltFor(seed, 0))
  {
    SaltForUnique(seed, a, MixSeed(seed, b));
    SaltForUnique(seed, b, MixSeed(seed, b));
    SaltForUnique(seed, a, 0);
    SaltForUnique(seed, a, 1);
    SaltForUnique(seed, b, 0);
    SaltForUnique(seed, b, 1);
  }

  /** The same for two global seeds and one salt. */
  lemma DomainSeedsDistinctBySeed(a: u64, b: u64, salt: u64)
    ensures DomainSeed(a, salt) == DomainSeed(b, salt) <==>
            a == b || ZeroOnePair(MixSeed(a, salt), MixSeed(b, salt))
    ensures ZeroOnePair(MixSeed(a, salt), MixSeed(b, salt)) <==>
            (a == BaseFor(salt, 0) && b == BaseFor(salt, 1)) ||
            (a == BaseFor(salt, 1) && b == BaseFor(salt, 0))
  {
    BaseForUnique(a, salt, MixSeed(b, salt));
    BaseForUnique(b, salt, MixSeed(b, salt));
    BaseForUnique(a, salt, 0);
    BaseForUnique(a, salt, 1);
    BaseForUnique(b, salt, 0);
    BaseForUnique(b, salt, 1);
  }

  // ---- the post-fork fallback mix ----

  function RotateLeft17(x: u64): u64 { (x * 0x2_0000) % W64 + x / 0x8000_0000_0000 }
  function RotateRight17(x: u64): u64 { x / 0x2_0000 + (x % 0x2_0000) * 0x8000_0000_0000 }

  /** Rotating exchanges the high 17 and the low 47 bits. */
  lemma RotateLeftParts(h: nat, l: nat)
    requires h < 0x2_0000 && l < 0x8000_0000_0000
    ensures RotateLeft17(h * 0x8000_0000_0000 + l) == l * 0x2_0000 + h
  {
    SplitProduct(h, l);
    assert (h * 0x8000_0000_0000 + l) / 0x8000_0000_0000 == h;
  }

  lemma RotateRightParts(h: nat, l: nat)
    requires h < 0x2_0000 && l < 0x8000_0000_0000
    ensures RotateRight17(l * 0x2_0000 + h) == h * 0x8000_0000_0000 + l
  {
    assert (l * 0x2_0000 + h) / 0x2_0000 == l && (l * 0x2_0000 + h) % 0x2_0000 == h;
  }

  lemma RotateRoundTrip(x: u64)
    ensures RotateRight17(RotateLeft17(x)) == x
    ensures RotateLeft17(RotateRight17(x)) == x
  {
    hide RotateLeft17, RotateRight17;
    var h, l := x / 0x8000_0000_0000, x % 0x8000_0000_0000;
    RotateLeftParts(h, l);
    RotateRightParts(h, l);
    var l', h' := x / 0x2_0000, x % 0x2_0000;
    RotateRightParts(h', l');
    RotateLeftParts(h', l');
  }

  lemma SplitProduct(h: nat, l: nat)
    requires h < 0x2_0000 && l < 0x8000_0000_0000
    ensures ((h * 0x8000_0000_0000 + l) * 0x2_0000) % W64 == l * 0x2_0000
  {
    assert (h * 0x8000_0000_0000 + l) * 0x2_0000 == h * W64 + l * 0x2_0000;
  }

  function PidTerm(pid: u64): u64 { RotateLeft17(Mul(pid, GOLDEN)) }
  function PidOf(term: u64): u64 { Mul(RotateRight17(term), GOLDEN_INV) }

  /** The raw mix when `getrandom` is unavailable in the child. */
  function ForkMix(inherited: u64, clock: u64, pid: u64): u64 {
    XorWords(XorWords(inherited, clock), PidTerm(pid))
  }

  function ForkSeed(inherited: u64, clock: u64, pid: u64): u64 {
    NonZero(ForkMix(inherited, clock, pid))
  }

  /** The one PID whose raw mix is `target`. */
  function PidFor(inherited: u64, clock: u64, target: u64): u64 {
    PidOf(XorWords(XorWords(inherited, clock), target))
  }

  lemma PidTermBijection(p: u64)
    ensures PidOf(PidTerm(p)) == p && PidTerm(PidOf(p)) == p
  {
    Inverses();
    RotateRoundTrip(Mul(p, GOLDEN));
    MulInverse(p, GOLDEN, GOLDEN_INV);
    RotateRoundTrip(p);
    MulInverse(RotateRight17(p), GOLDEN_INV, GOLDEN);
  }

  lemma ForkMixBijectiveInPid(inherited: u64, clock: u64, pid: u64, target: u64)
    ensures PidFor(inherited, clock, ForkMix(inherited, clock, pid)) == pid
    ensures ForkMix(inherited, clock, PidFor(inherited, clock, target)) == target
  {
    var m := XorWords(inherited, clock);
    XorInvolution(m, PidTerm(pid));
    PidTermBijection(pid);
    PidTermBijection(XorWords(m, target));
    XorInvolution(m, target);
  }

  /**
   With the inherited entropy and the address/clock mix fixed, the fallback seed is never
   zero, and two PIDs share it exactly when they are equal or are the one pair whose raw
   mixes are 0 and 1.
   */
  lemma ForkSeedsDistinctByPid(inherited: u64, clock: u64, p: u64, q: u64)
    ensures ForkSeed(inherited, clock, p) != 0
    ensures ForkSeed(inherited, clock, p) == ForkSeed(inherited, clock, q) <==>
            p == q || ZeroOnePair(ForkMix(inherited, clock, p), ForkMix(inherited, clock, q))
    ensures ZeroOnePair(ForkMix(inherited, clock, p), ForkMix(inherited, clock, q)) <==>
            (p == PidFor(inherited, clock, 0) && q == PidFor(inherited, clock, 1)) ||
            (p == PidFor(inherited, clock, 1) && q == PidFor(inherited, clock, 0))
  {
    ForkMixBijectiveInPid(inherited, clock, p, 0);
    ForkMixBijectiveInPid(inherited, clock, q, 1);
    ForkMixBijectiveInPid(inherited, clock, p, 1);
  }

  // ---- the per-thread sampler seed counter ----

  /** The `k`-th value `NextSeed` returns after the base is set to `base`. */
  function Draw(base: u64, k: nat): u64 { (base + k * GOLDEN) % W64 }

  lemma DrawNext(base: u64, k: nat)
    ensures Add(Draw(base, k), GOLDEN) == Draw(base, k + 1)
  {
    ModAdd(base + k * GOLDEN, GOLDEN);
    assert (k + 1) * GOLDEN == k * GOLDEN + GOLDEN;
  }

  lemma ModAdd(x: nat, y: nat)
    ensures (x % W64 + y) % W64 == (x + y) % W64
  {
  }

  /** The static seed word; `draws` records what `NextSeed` returned since the last reset. */
  class SeedCounter {
    var seed: u64
    ghost var base: u64
    ghost var draws: seq<u64>

    ghost predicate Valid()
      reads this
    {
      seed == Draw(base, |draws|) && forall k :: 0 <= k < |draws| ==> draws[k] == Draw(base, k)
    }

    constructor ()
      ensures Valid() && base == 0x5eed_0001 && draws == []
    {
      seed := 0x5eed_0001;
      base := 0x5eed_0001;
      draws := [];
    }

    method SetBaseSeed(s: u64)
      modifies this
      ensures Valid() && base == s && draws == []
    {
      seed := s;
      base := s;
      draws := [];
    }

    method NextSeed() returns (r: u64)
      requires Valid()
      modifies this
      ensures Valid() && base == old(base) && draws == old(draws) + [r]
    {
      r := seed;
      seed := Add(seed, GOLDEN);
      draws := draws + [r];
      DrawNext(base, |draws| - 1);
    }
  }

  /** A multiple of the (odd) step wraps to zero only at multiples of 2^64. */
  lemma StepIsOdd(d: nat)
    ensures (d * GOLDEN) % W64 == 0 <==> d % W64 == 0
  {
    if (d * GOLDEN) % W64 == 0 {
      Inverses();
      ModMul(d * GOLDEN, GOLDEN_INV);
      assert d * GOLDEN * GOLDEN_INV == (GOLDEN * GOLDEN_INV) * d;
      ModMul(GOLDEN * GOLDEN_INV, d);
    } else {
      ModMul(d, GOLDEN);
    }
  }

  /** Draws repeat exactly when their positions agree modulo 2^64: the period is full. */
  lemma DrawsRepeatWithFullPeriod(base: u64, j: nat, k: nat)
    requires j <= k
    ensures Draw(base, j) == Draw(base, k) <==> (k - j) % W64 == 0
  {
    StepIsOdd(k - j);
    var x, y := base + j * GOLDEN, (k - j) * GOLDEN;
    assert base + k * GOLDEN == x + y;
    SameResidue(x, y);
  }

  lemma SameResidue(x: nat, y: nat)
    ensures x % W64 == (x + y) % W64 <==> y % W64 == 0
  {
  }

  /** Any two of at most 2^64 draws made between two base resets differ. */
  lemma DrawsDistinctWithinPeriod(c: SeedCounter, j: nat, k: nat)
    requires c.Valid()
    requires j < k < |c.draws| <= W64
    ensures c.draws[j] != c.draws[k]
  {
    DrawsRepeatWithFullPeriod(c.base, j, k);
  }
}

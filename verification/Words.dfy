/**
 64-bit machine words as natural numbers below 2^64: exclusive-or, right shift (division by
 a power of two), wrapping addition and wrapping multiplication, with the algebra the seed
 mixers rest on.
 */
module Words {

  const W64: nat := 0x1_0000_0000_0000_0000

  type u64 = x: nat | x < W64

  const USIZE_BITS: nat := 64

  function Pow2(k: nat): (r: nat)
    ensures r >= 1
  {
    if k == 0 then 1 else 2 * Pow2(k - 1)
  }

  lemma Pow2Of64()
    ensures Pow2(64) == W64
  {
    assert Pow2(8) == 0x100 by { assert Pow2(4) == 16; Pow2Add(4, 4); }
    assert Pow2(16) == 0x1_0000 by { Pow2Add(8, 8); }
    assert Pow2(32) == 0x1_0000_0000 by { Pow2Add(16, 16); }
    Pow2Add(32, 32);
  }

  lemma {:induction false} Pow2Add(j: nat, k: nat)
    ensures Pow2(j + k) == Pow2(j) * Pow2(k)
  {
    if j > 0 {
      Pow2Add(j - 1, k);
      assert Pow2(j + k) == 2 * (Pow2(j - 1) * Pow2(k)) == Pow2(j) * Pow2(k);
    }
  }

  /** `a >> k`. */
  function Shr(a: nat, k: nat): nat
    decreases k
  {
    if k == 0 then a else Shr(a / 2, k - 1)
  }

  lemma {:induction false} ShrTwice(a: nat, j: nat, k: nat)
    ensures Shr(Shr(a, j), k) == Shr(a, j + k)
    decreases j
  {
    if j > 0 { ShrTwice(a / 2, j - 1, k); }
  }

  /** Shifting a word of `k` bits right by `k` or more leaves nothing. */
  lemma {:induction false} ShrOut(a: nat, k: nat, n: nat)
    requires a < Pow2(k) && k <= n
    ensures Shr(a, n) == 0
    decreases n
  {
    if n > 0 {
      ShrOut(a / 2, if k == 0 then 0 else k - 1, n - 1);
    }
  }

  lemma {:induction false} ShrBound(a: nat, k: nat)
    ensures Shr(a, k) <= a
    decreases k
  {
    if k > 0 { ShrBound(a / 2, k - 1); }
  }

  // ---- exclusive or ----

  function LowBit(a: nat, b: nat): nat { if a % 2 == b % 2 then 0 else 1 }

  function Xor(a: nat, b: nat): nat
    decreases a + b
  {
    if a == 0 && b == 0 then 0
    else LowBit(a, b) + 2 * Xor(a / 2, b / 2)
  }

  lemma {:induction false} XorCommutes(a: nat, b: nat)
    ensures Xor(a, b) == Xor(b, a)
    decreases a + b
  {
    if a + b > 0 { XorCommutes(a / 2, b / 2); }
  }

  lemma {:induction false} XorAssociates(a: nat, b: nat, c: nat)
    ensures Xor(Xor(a, b), c) == Xor(a, Xor(b, c))
    decreases a + b + c
  {
    if a + b + c > 0 {
      XorAssociates(a / 2, b / 2, c / 2);
      XorHalves(a, b);
      XorHalves(b, c);
      XorUnfold(Xor(a, b), c);
      XorUnfold(a, Xor(b, c));
    }
  }

  lemma XorUnfold(a: nat, b: nat)
    ensures Xor(a, b) == LowBit(a, b) + 2 * Xor(a / 2, b / 2)
  {
  }

  /** Exclusive-or acts on the low bit and on the remaining bits separately. */
  lemma XorHalves(a: nat, b: nat)
    ensures Xor(a, b) % 2 == LowBit(a, b)
    ensures Xor(a, b) / 2 == Xor(a / 2, b / 2)
  {
  }

  lemma {:induction false} XorZero(a: nat)
    ensures Xor(a, 0) == a && Xor(0, a) == a
  {
    if a > 0 { XorZero(a / 2); }
  }

  lemma {:induction false} XorSelf(a: nat)
    ensures Xor(a, a) == 0
  {
    if a > 0 { XorSelf(a / 2); }
  }

  /** Exclusive-or with a fixed word undoes itself. */
  lemma XorInvolution(a: nat, b: nat)
    ensures Xor(a, Xor(a, b)) == b
  {
  }

  lemma {:induction false} XorBound(a: nat, b: nat, k: nat)
    requires a < Pow2(k) && b < Pow2(k)
    ensures Xor(a, b) < Pow2(k)
  {
    if k > 0 {
      XorBound(a / 2, b / 2, k - 1);
      XorHalves(a, b);
    }
  }

  lemma XorWord(a: u64, b: u64)
    ensures Xor(a, b) < W64
  {
    Pow2Of64();
    XorBound(a, b, 64);
  }

  /** A right shift distributes over exclusive-or. */
  lemma {:induction false} XorShr(a: nat, b: nat, k: nat)
    ensures Shr(Xor(a, b), k) == Xor(Shr(a, k), Shr(b, k))
    decreases k
  {
    if k > 0 {
      XorHalves(a, b);
      XorShr(a / 2, b / 2, k - 1);
    }
  }

  // ---- wrapping arithmetic ----

  function Mul(a: u64, b: u64): u64 { (a * b) % W64 }
  function Add(a: u64, b: u64): u64 { (a + b) % W64 }
  function Sub(a: u64, b: u64): u64 { (a + W64 - b) % W64 }

  lemma AddSub(a: u64, b: u64)
    ensures Sub(Add(a, b), b) == a && Add(Sub(a, b), b) == a
  {
  }

  lemma ModMul(a: nat, b: nat)
    ensures ((a % W64) * b) % W64 == (a * b) % W64
  {
    var q, r := a / W64, a % W64;
    assert a * b == (q * b) * W64 + r * b by {
      assert a == q * W64 + r;
    }
    var q', r' := (r * b) / W64, (r * b) % W64;
    assert a * b == (q * b + q') * W64 + r';
  }

  /** Multiplying by `c` and then by an inverse of `c` modulo 2^64 gives the word back. */
  lemma MulInverse(z: u64, c: u64, inv: u64)
    requires Mul(c, inv) == 1
    ensures Mul(Mul(z, c), inv) == z
  {
    ModMul(z * c, inv);
    assert z * c * inv == (c * inv) * z;
    ModMul(c * inv, z);
  }
}

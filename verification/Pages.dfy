/**
 Page and alignment arithmetic: rounding up to a power of two, and the page span a system
 call acts on.
 */
module Pages {
  import opened Words
  import opened Wrappers

  predicate IsPow2(n: nat) { n == 1 || (n > 1 && n % 2 == 0 && IsPow2(n / 2)) }

  lemma {:induction false} Log2(n: nat) returns (k: nat)
    requires IsPow2(n)
    ensures n == Pow2(k)
  {
    if n == 1 { return 0; }
    var h := Log2(n / 2);
    k := h + 1;
  }

  lemma {:induction false} MulMonotone(x: nat, y: nat, a: nat)
    requires x <= y
    ensures x * a <= y * a
  {
    assert y * a == x * a + (y - x) * a;
  }

  lemma MulCancel(x: nat, y: nat, a: nat)
    requires x * a < (y + 1) * a
    ensures x <= y
  {
    if x > y { MulMonotone(y + 1, x, a); }
  }

  lemma DivMod(x: nat, a: nat)
    requires a > 0
    ensures x == (x / a) * a + x % a && x % a < a && x < (x / a + 1) * a
  {
    assert (x / a + 1) * a == (x / a) * a + a;
  }

  lemma OneQuotient(x: nat, a: nat, d: nat, q: nat)
    requires d * a <= x < (d + 1) * a && q * a <= x < (q + 1) * a
    ensures d == q
  {
    MulCancel(d, q, a);
    MulCancel(q, d, a);
  }

  lemma Quotient(x: nat, a: nat) returns (d: nat)
    requires a > 0
    ensures d == x / a && d * a <= x < (d + 1) * a
  {
    d := x / a;
    DivMod(x, a);
  }

  /** A number has one quotient. */
  lemma DivUnique(x: nat, a: nat, q: nat)
    requires a > 0 && q * a <= x < (q + 1) * a
    ensures x / a == q
  {
    var d := Quotient(x, a);
    OneQuotient(x, a, d, q);
  }

  lemma MulDiv(q: nat, a: nat)
    requires a > 0
    ensures (q * a) / a == q && (q * a) % a == 0
  {
    assert (q + 1) * a == q * a + a;
    DivUnique(q * a, a, q);
    DivMod(q * a, a);
  }

  /** A multiple is its quotient times the divisor. */
  lemma Whole(x: nat, a: nat)
    requires a > 0 && x % a == 0
    ensures x == (x / a) * a
  {
    DivMod(x, a);
  }

  lemma DivMonotone(x: nat, y: nat, a: nat)
    requires a > 0 && x <= y
    ensures x / a <= y / a
  {
    DivMod(x, a);
    DivMod(y, a);
    MulCancel(x / a, y / a, a);
  }

  lemma {:induction false} MultipleOfMultiple(x: nat, a: nat, p: nat)
    requires a > 0 && p > 0 && x % a == 0 && a % p == 0
    ensures x % p == 0
  {
    Whole(x, a);
    Whole(a, p);
    assert x == ((x / a) * (a / p)) * p;
    MulDiv((x / a) * (a / p), p);
  }

  lemma SumOfMultiples(x: nat, y: nat, p: nat)
    requires p > 0 && x % p == 0 && y % p == 0
    ensures (x + y) % p == 0 && (x + y) / p == x / p + y / p
  {
    Whole(x, p);
    Whole(y, p);
    assert x + y == (x / p + y / p) * p;
    MulDiv(x / p + y / p, p);
  }

  lemma SixteenIsPow2()
    ensures IsPow2(16)
  {
    assert IsPow2(4) by { assert IsPow2(2); }
    assert IsPow2(8);
  }

  lemma AddMultiple(x: nat, y: nat, p: nat)
    requires p > 0 && x % p == 0
    ensures (x + y) % p == 0 <==> y % p == 0
  {
    if y % p == 0 {
      SumOfMultiples(x, y, p);
    } else if (x + y) % p == 0 {
      Whole(x, p);
      Whole(x + y, p);
      DivMonotone(x, x + y, p);
      assert y == ((x + y) / p - x / p) * p;
      MulDiv((x + y) / p - x / p, p);
    }
  }

  lemma {:induction false} Pow2Divides(j: nat, k: nat)
    requires j <= k
    ensures Pow2(k) % Pow2(j) == 0
  {
    Pow2Add(k - j, j);
    MulDiv(Pow2(k - j), Pow2(j));
  }

  lemma {:induction false} Pow2Grows(j: nat, k: nat)
    requires j <= k
    ensures Pow2(j) <= Pow2(k)
  {
    if j < k { Pow2Grows(j, k - 1); }
  }

  lemma LargerPow2IsMultiple(a: nat, p: nat)
    requires IsPow2(a) && IsPow2(p) && p <= a
    ensures p > 0 && a % p == 0
  {
    var i := Log2(a);
    var j := Log2(p);
    if i < j {
      Pow2Grows(i, j);
      Pow2Divides(i, i);
    } else {
      Pow2Divides(j, i);
    }
  }

  // ---- rounding up ----

  /** `(x + a - 1) & !(a - 1)` for a power of two `a`. */
  function AlignUp(x: nat, a: nat): nat
    requires a > 0
  {
    (x + a - 1) / a * a
  }

  /** The least multiple of `a` at or above `x`. */
  lemma AlignUpIsLeast(x: nat, a: nat)
    requires a > 0
    ensures x <= AlignUp(x, a) < x + a && AlignUp(x, a) % a == 0
    ensures forall y: nat :: y % a == 0 && x <= y ==> AlignUp(x, a) <= y
  {
    var q := (x + a - 1) / a;
    DivMod(x + a - 1, a);
    MulDiv(q, a);
    forall y: nat | y % a == 0 && x <= y ensures AlignUp(x, a) <= y {
      Whole(y, a);
      assert (y / a + 1) * a == y + a;
      MulCancel(q, y / a, a);
      MulMonotone(q, y / a, a);
    }
  }

  /** Round up to whole pages, refusing to wrap around the address space. */
  function RoundToPage(page: nat, n: nat): Option<nat>
    requires page > 0
  {
    if n + (page - 1) >= W64 then None else Some(AlignUp(n, page))
  }

  // ---- the pages a system call acts on ----

  /** The page a byte lies on. */
  function PageOf(page: nat, a: int): int
    requires page > 0
  {
    a / page
  }

  /** First page and page past the last of `[addr, addr + len)`, the length rounded up. */
  function FirstPage(page: nat, addr: nat): nat
    requires page > 0
  {
    addr / page
  }

  function EndPage(page: nat, addr: nat, len: nat): nat
    requires page > 0
  {
    (addr + len + page - 1) / page
  }

  /** A page-rounded range inside a page-multiple range stays inside it. */
  lemma SpanInside(page: nat, base: nat, mapped: nat, addr: nat, len: nat)
    requires page > 0 && base % page == 0 && mapped % page == 0
    requires base <= addr && addr + len <= base + mapped
    ensures base / page <= FirstPage(page, addr)
    ensures EndPage(page, addr, len) <= (base + mapped) / page
  {
    SumOfMultiples(base, mapped, page);
    DivMonotone(base, addr, page);
    var e, m := EndPage(page, addr, len), (base + mapped) / page;
    DivMod(addr + len + page - 1, page);
    DivMod(base + mapped, page);
    assert (m + 1) * page == m * page + page;
    MulCancel(e, m, page);
  }
}

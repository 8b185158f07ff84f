/** Go's fixed-width integers, as ranges of the mathematical integers. Arithmetic that can leave the
    range is always written through a Wrap function. */
module Machine {
  const TWO32: int := 0x1_0000_0000
  const TWO63: int := 0x8000_0000_0000_0000
  const TWO64: int := 0x1_0000_0000_0000_0000

  type u32 = x: int | 0 <= x < TWO32
  type u64 = x: int | 0 <= x < TWO64
  type i64 = x: int | -TWO63 <= x < TWO63

  function Wrap32(x: int): u32 { x % TWO32 }

  function Wrap64(x: int): u64 { x % TWO64 }

  function WrapInt64(x: int): i64 { (x + TWO63) % TWO64 - TWO63 }

  /** uint64 addition. */
  function Add64(x: u64, y: u64): u64 { if x + y < TWO64 then x + y else x + y - TWO64 }

  /** uint64 subtraction. */
  function Sub64(x: u64, y: u64): u64 { if x >= y then x - y else x - y + TWO64 }

  lemma WrapFits(x: int)
    requires 0 <= x < TWO64
    ensures Wrap64(x) == x
  {
  }

  lemma WrapAdd(x: int, y: u64)
    ensures Add64(Wrap64(x), y) == Wrap64(x + y)
  {
  }

  lemma WrapSub(x: int, y: u64)
    ensures Sub64(Wrap64(x + y), y) == Wrap64(x)
  {
  }

  /** Two integers that a 64-bit register cannot tell apart. */
  predicate Congruent(x: int, y: int) { (x - y) % TWO64 == 0 }

  lemma MultiplyMonotone(a: int, b: int, c: nat)
    requires a <= b
    ensures a * c <= b * c
  {
  }

  lemma QuotientBounded(n: nat, d: nat)
    requires d >= 1
    ensures 0 <= n / d <= n
  {
  }

  /** Go's division, which rounds toward zero. */
  function Quotient(n: int, d: int): int
    requires d != 0
  {
    var q := Magnitude(n) / Magnitude(d);
    if (n < 0) == (d < 0) then q else -q
  }

  function Magnitude(x: int): nat { if x < 0 then -x else x }

  lemma QuotientSigns(n: int, d: int)
    requires d != 0
    ensures Quotient(n, d) > 0 ==> (n > 0) == (d > 0)
    ensures Quotient(n, d) < 0 ==> (n > 0) != (d > 0)
    ensures n >= 0 && d > 0 ==> 0 <= Quotient(n, d) <= n
  {
    QuotientBounded(Magnitude(n), Magnitude(d));
    QuotientZero(Magnitude(n), Magnitude(d));
  }

  lemma QuotientMeans(n: int, d: int)
    requires d != 0
    ensures n >= 0 && d > 0 ==> Quotient(n, d) * d <= n < (Quotient(n, d) + 1) * d
  {
    if n >= 0 && d > 0 {
      var q := n / d;
      assert n == q * d + n % d;
      assert (q + 1) * d == q * d + d;
    }
  }

  lemma QuotientZero(n: nat, d: nat)
    requires d >= 1
    ensures n / d == 0 <==> n < d
  {
  }

  function Pow2(n: nat): nat
    ensures Pow2(n) >= 1
  {
    if n == 0 then 1 else 2 * Pow2(n - 1)
  }

  lemma {:induction false} Pow2Sum(a: nat, b: nat)
    ensures Pow2(a + b) == Pow2(a) * Pow2(b)
  {
    if a == 0 {
    } else {
      Pow2Sum(a - 1, b);
      assert Pow2(a - 1 + b) == Pow2(a - 1) * Pow2(b);
    }
  }

  lemma {:induction false} Pow2Monotone(a: nat, b: nat)
    requires a <= b
    ensures Pow2(a) <= Pow2(b)
    decreases b
  {
    if a < b {
      Pow2Monotone(a, b - 1);
    }
  }

  lemma Pow2Values()
    ensures Pow2(0) == 1 && Pow2(3) == 8 && Pow2(8) == 0x100 && Pow2(16) == 0x1_0000
    ensures Pow2(24) == 0x100_0000 && Pow2(32) == 0x1_0000_0000
  {
    assert Pow2(3) == 8 && Pow2(8) == 0x100;
    Pow2Sum(8, 8);
    Pow2Sum(16, 8);
    Pow2Sum(16, 16);
  }

  lemma SubsetSize<T>(a: set<T>, b: set<T>)
    requires a <= b
    ensures |a| <= |b|
    ensures a < b ==> |a| < |b|
  {
    assert b == a + (b - a);
  }
}

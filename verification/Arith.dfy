/** Powers of two, divisibility and rounding up, as the layout passes use them. */
module Arith {
  function Min(a: nat, b: nat): nat { if a <= b then a else b }

  function Max(a: nat, b: nat): nat { if a >= b then a else b }

  function Pow2(n: nat): (r: nat)
    ensures r > 0
  {
    if n == 0 then 1 else 2 * Pow2(n - 1)
  }

  lemma Outgrows(p: int, d: int)
    requires p > 0
    ensures d >= 1 ==> p * d >= p
    ensures d <= -1 ==> p * d <= -p
  {
    if d >= 1 {
      assert p * d >= p * 1;
    }
    if d <= -1 {
      assert p * d <= p * -1;
    }
  }

  /** Quotient and remainder are unique. */
  lemma DivModUnique(n: int, p: int, q: int, r: int)
    requires 0 <= r < p && n == p * q + r
    ensures n / p == q && n % p == r
  {
    var d := q - n / p;
    assert p * d == p * q - p * (n / p);
    assert p * d == n % p - r;
    Outgrows(p, d);
  }

  lemma MultipleDivides(p: int, q: int)
    requires p > 0
    ensures (p * q) % p == 0 && (p * q) / p == q
  {
    DivModUnique(p * q, p, q, 0);
  }

  lemma SumDivides(a: int, b: int, p: int)
    requires p > 0 && a % p == 0 && b % p == 0
    ensures (a + b) % p == 0 && (a - b) % p == 0
  {
    var x, y := a / p, b / p;
    assert a == p * x && b == p * y;
    assert a + b == p * (x + y) && a - b == p * (x - y);
    MultipleDivides(p, x + y);
    MultipleDivides(p, x - y);
  }

  lemma DividesTransitive(p: int, q: int, n: int)
    requires p > 0 && q > 0 && q % p == 0 && n % q == 0
    ensures n % p == 0
  {
    var x, y := q / p, n / q;
    assert n == q * y && q == p * x;
    assert n == p * (x * y) by { assert (p * x) * y == p * (x * y); }
    MultipleDivides(p, x * y);
  }

  lemma {:induction false} Pow2Divides(j: nat, k: nat)
    requires j <= k
    ensures Pow2(k) % Pow2(j) == 0 && Pow2(j) <= Pow2(k)
    decreases k
  {
    var p := Pow2(j);
    if j < k {
      Pow2Divides(j, k - 1);
      var h := Pow2(k - 1);
      assert Pow2(k) == h + h;
      SumDivides(h, h, p);
    } else {
      MultipleDivides(p, 1);
    }
  }

  /** The least multiple of `align` that is not below `value`. */
  function AlignUp(value: nat, align: nat): (r: nat)
    ensures value <= r
    ensures align > 0 ==> r % align == 0 && r < value + align
  {
    if align <= 1 then value
    else
      var r := (value + align - 1) / align * align;
      MultipleDivides(align, (value + align - 1) / align);
      assert r == align * ((value + align - 1) / align);
      assert value + align - 1 == align * ((value + align - 1) / align) + (value + align - 1) % align;
      r
  }

  /** Two multiples closer than the step are equal. */
  lemma SameMultiple(a: int, b: int, p: int)
    requires p > 0 && a % p == 0 && b % p == 0 && -p < a - b < p
    ensures a == b
  {
    SumDivides(a, b, p);
    var q := (a - b) / p;
    assert a - b == p * q;
    Outgrows(p, q);
  }

  lemma AlignUpLeast(value: nat, align: nat, m: nat)
    requires align > 0 && m % align == 0 && value <= m
    ensures AlignUp(value, align) <= m
  {
    if AlignUp(value, align) > m {
      SameMultiple(AlignUp(value, align), m, align);
    }
  }

  /** Rounding up does not see a multiple of the alignment. */
  lemma AlignUpShift(base: nat, value: nat, align: nat)
    requires align > 0 && base % align == 0
    ensures AlignUp(base + value, align) == base + AlignUp(value, align)
  {
    SumDivides(base, AlignUp(value, align), align);
    SameMultiple(AlignUp(base + value, align), base + AlignUp(value, align), align);
  }

  lemma AlignUpMonotone(a: nat, b: nat, align: nat)
    requires align > 0 && a <= b
    ensures AlignUp(a, align) <= AlignUp(b, align)
  {
    AlignUpLeast(a, align, AlignUp(b, align));
  }
}

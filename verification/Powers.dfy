/** Powers, decimal digits and bit lengths of natural numbers. */
module Powers {

  function Pow(b: nat, n: nat): nat {
    if n == 0 then 1 else b * Pow(b, n - 1)
  }

  function BitLength(n: nat): nat {
    if n == 0 then 0 else 1 + BitLength(n / 2)
  }

  function DecimalDigits(n: nat): nat {
    if n < 10 then 1 else 1 + DecimalDigits(n / 10)
  }

  lemma MulAssociative(a: int, b: int, c: int)
    ensures a * (b * c) == (a * b) * c
  {
  }

  lemma MulInterchange(a: int, b: int, c: int, d: int)
    ensures (a * b) * (c * d) == (a * c) * (b * d)
  {
    MulAssociative(a * b, c, d);
    MulAssociative(a, b, c);
    MulAssociative(a, c, b);
    MulAssociative(a * c, b, d);
  }

  lemma {:induction false} PowAdd(b: nat, m: nat, n: nat)
    ensures Pow(b, m + n) == Pow(b, m) * Pow(b, n)
  {
    if m > 0 {
      PowAdd(b, m - 1, n);
      MulAssociative(b, Pow(b, m - 1), Pow(b, n));
    }
  }

  lemma {:induction false} PowMul(b: nat, m: nat, n: nat)
    ensures Pow(b, m * n) == Pow(Pow(b, m), n)
  {
    if n > 0 {
      PowMul(b, m, n - 1);
      assert m * n == m + m * (n - 1);
      PowAdd(b, m, m * (n - 1));
    }
  }

  lemma {:induction false} PowPositive(b: nat, n: nat)
    requires b > 0
    ensures Pow(b, n) > 0
  {
    if n > 0 { PowPositive(b, n - 1); }
  }

  lemma ProductMonotone(a: nat, b: nat, c: nat, d: nat)
    requires a <= b && c <= d
    ensures a * c <= b * d
  {
    assert a * c <= b * c && b * c <= b * d;
  }

  lemma {:induction false} PowMonotoneBase(a: nat, b: nat, n: nat)
    requires a <= b
    ensures Pow(a, n) <= Pow(b, n)
  {
    if n > 0 {
      PowMonotoneBase(a, b, n - 1);
      ProductMonotone(a, b, Pow(a, n - 1), Pow(b, n - 1));
    }
  }

  lemma {:induction false} PowStrictBase(a: nat, b: nat, n: nat)
    requires a < b && n > 0
    ensures Pow(a, n) < Pow(b, n)
  {
    PowMonotoneBase(a, b, n - 1);
    PowPositive(b, n - 1);
    ProductMonotone(a, a, Pow(a, n - 1), Pow(b, n - 1));
    assert a * Pow(b, n - 1) < b * Pow(b, n - 1);
  }

  lemma {:induction false} PowMonotone(b: nat, m: nat, n: nat)
    requires b > 0 && m <= n
    ensures Pow(b, m) <= Pow(b, n)
  {
    PowAdd(b, m, n - m);
    PowPositive(b, n - m);
    ProductMonotone(Pow(b, m), Pow(b, m), 1, Pow(b, n - m));
  }

  lemma {:induction false} BitLengthBounds(n: nat)
    requires n > 0
    ensures BitLength(n) > 0 && Pow(2, BitLength(n) - 1) <= n < Pow(2, BitLength(n))
  {
    if n > 1 {
      BitLengthBounds(n / 2);
    } else {
      assert BitLength(1) == 1 + BitLength(0);
    }
  }

  lemma {:induction false} DecimalDigitsBounds(n: nat)
    ensures DecimalDigits(n) > 0 && n < Pow(10, DecimalDigits(n))
    ensures n > 0 ==> Pow(10, DecimalDigits(n) - 1) <= n
  {
    if n >= 10 {
      DecimalDigitsBounds(n / 10);
    }
  }

  /** Having at least `d + 1` digits is the same as being at least 10 to the `d`. */
  lemma DigitsReach(n: nat, d: nat)
    requires d > 0
    ensures DecimalDigits(n) > d <==> n >= Pow(10, d)
  {
    DecimalDigitsBounds(n);
    if DecimalDigits(n) > d {
      PowMonotone(10, d, DecimalDigits(n) - 1);
    } else {
      PowMonotone(10, DecimalDigits(n), d);
    }
  }

  lemma HundredBits(hundred: nat)
    requires hundred == 100
    ensures 1267 * Pow(10, 27) <= Pow(2, hundred)
  {
    PowMul(2, 10, 10);
    assert Pow(2, 10) == 1024;
    assert Pow(1024, 5) == 1125899906842624;
    PowAdd(1024, 5, 5);
    assert Pow(10, 9) == 1000000000;
    PowAdd(10, 9, 9);
    PowAdd(10, 18, 9);
  }

  lemma TenthPowerOf1267()
    ensures Pow(1267, 10) >= Pow(10, 31)
  {
    assert Pow(1267, 5) == 3264999164051107;
    PowAdd(1267, 5, 5);
    assert Pow(10, 10) == 10000000000;
    PowAdd(10, 10, 10);
    PowAdd(10, 20, 10);
    PowAdd(10, 30, 1);
    assert Pow(10, 1) == 10;
  }

  lemma {:induction false} PowProduct(a: nat, b: nat, n: nat)
    ensures Pow(a * b, n) == Pow(a, n) * Pow(b, n)
  {
    if n > 0 {
      PowProduct(a, b, n - 1);
      MulInterchange(a, b, Pow(a, n - 1), Pow(b, n - 1));
    }
  }

  /**
    The bound behind the estimate: 301 decimal digits always fit in 1000 bits. The two numbers
    are parameters so that the solver never computes a power of such a size.
  */
  lemma ThousandBits(bits: nat, digits: nat)
    requires bits == 1000 && digits == 301
    ensures Pow(10, digits) <= Pow(2, bits)
  {
    var hundred: nat := bits / 10;
    HundredBits(hundred);
    PowMul(2, hundred, 10);
    PowMonotoneBase(1267 * Pow(10, 27), Pow(2, hundred), 10);
    PowProduct(1267, Pow(10, 27), 10);
    PowMul(10, 27, 10);
    TenthPowerOf1267();
    PowAdd(10, 31, 270);
    ProductMonotone(Pow(10, 31), Pow(1267, 10), Pow(10, 270), Pow(10, 270));
  }

  /** Scaling the bound: `k` bits hold at least `k * 301 / 1000` decimal digits. */
  lemma BitsHoldDigits(k: nat, e: nat, bits: nat, digits: nat)
    requires bits == 1000 && digits == 301 && bits * e <= digits * k
    ensures Pow(10, e) <= Pow(2, k)
  {
    ThousandBits(bits, digits);
    PowMonotone(10, bits * e, digits * k);
    PowMul(10, digits, k);
    PowMonotoneBase(Pow(10, digits), Pow(2, bits), k);
    PowMul(2, bits, k);
    assert e * bits == bits * e && k * bits == bits * k;
    PowMul(10, e, bits);
    PowMul(2, k, bits);
    if Pow(10, e) > Pow(2, k) {
      PowStrictBase(Pow(2, k), Pow(10, e), bits);
    }
  }

  /** The bound in the other direction: 93 bits fit in 28 decimal digits. */
  lemma NinetyThreeBits(bits: nat, digits: nat)
    requires bits == 93 && digits == 28
    ensures Pow(2, bits) <= Pow(10, digits)
  {
    assert Pow(2, 3) == 8 && Pow(2, 10) == 1024;
    PowMul(2, 10, 9);
    assert Pow(1024, 3) == 1073741824;
    PowMul(1024, 3, 3);
    assert Pow(1073741824, 3) == 1237940039285380274899124224;
    PowAdd(2, 90, 3);
    assert Pow(10, 7) == 10000000;
    PowMul(10, 7, 4);
    assert Pow(10000000, 4) == 10000000000000000000000000000;
  }

  /** Scaling it: `e` decimal digits hold at least `k` bits if `93 * e >= 28 * k`. */
  lemma DigitsHoldBits(k: nat, e: nat, bits: nat, digits: nat)
    requires bits == 93 && digits == 28 && digits * k <= bits * e
    ensures Pow(2, k) <= Pow(10, e)
  {
    NinetyThreeBits(bits, digits);
    PowMul(2, bits, k);
    PowMonotoneBase(Pow(2, bits), Pow(10, digits), k);
    PowMul(10, digits, k);
    PowMonotone(10, digits * k, bits * e);
    assert e * bits == bits * e && k * bits == bits * k;
    PowMul(10, e, bits);
    PowMul(2, k, bits);
    if Pow(2, k) > Pow(10, e) {
      PowStrictBase(Pow(10, e), Pow(2, k), bits);
    }
  }
}

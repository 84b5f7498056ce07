/**
  The number tokens of the commitment encoding. Integers are written in decimal; decimals
  are brought to a normal form first, so that a value has one token however it was spelled.
*/
module CommitmentNumbers {
  import opened Wrappers
  import opened Powers

  const MAX_NUMBER_DIGITS: nat := 1024
  const MAX_NUMBER_EXPONENT: nat := 10000
  const MAX_INTEGER_BITS: nat := 3402

  type Digit = d: nat | d < 10

  // ----- digits -------------------------------------------------------------------------------

  function Value(ds: seq<Digit>): nat {
    if ds == [] then 0 else 10 * Value(ds[..|ds| - 1]) + ds[|ds| - 1]
  }

  /** The shortest decimal spelling. */
  function Text(n: nat): (ds: seq<Digit>)
    ensures ds != []
  {
    if n < 10 then [n] else Text(n / 10) + [n % 10]
  }

  lemma {:induction false} TextValue(n: nat)
    ensures Value(Text(n)) == n && |Text(n)| == DecimalDigits(n)
  {
    if n >= 10 {
      TextValue(n / 10);
      assert Text(n)[..|Text(n)| - 1] == Text(n / 10);
    }
  }

  /** A spelling without a leading zero is the shortest one. */
  lemma {:induction false} ShortestIsText(ds: seq<Digit>)
    requires ds != [] && (|ds| > 1 ==> ds[0] != 0)
    ensures Text(Value(ds)) == ds && (ds[0] != 0 ==> Value(ds) > 0)
  {
    if |ds| == 1 {
      assert Value(ds[..0]) == 0;
    } else {
      var front := ds[..|ds| - 1];
      ShortestIsText(front);
      assert Value(ds) / 10 == Value(front) && Value(ds) % 10 == ds[|ds| - 1];
    }
  }

  function StripLeading(ds: seq<Digit>): (r: seq<Digit>)
    ensures r != [] ==> r[0] != 0
  {
    if ds != [] && ds[0] == 0 then StripLeading(ds[1..]) else ds
  }

  lemma {:induction false} LeadingZero(ds: seq<Digit>)
    requires ds != [] && ds[0] == 0
    ensures Value(ds[1..]) == Value(ds)
  {
    if |ds| > 1 {
      LeadingZero(ds[..|ds| - 1]);
      assert ds[1..][..|ds| - 2] == ds[..|ds| - 1][1..];
    }
  }

  lemma {:induction false} StripLeadingValue(ds: seq<Digit>)
    ensures Value(StripLeading(ds)) == Value(ds) && |StripLeading(ds)| <= |ds|
    ensures StripLeading(ds) == [] <==> Value(ds) == 0
  {
    if ds != [] && ds[0] == 0 {
      LeadingZero(ds);
      StripLeadingValue(ds[1..]);
    } else if ds != [] {
      ShortestIsText(ds);
    }
  }

  // ----- decimals -----------------------------------------------------------------------------

  datatype Decimal = Finite(negative: bool, digits: seq<Digit>, exponent: int) | NonFinite

  datatype Normal = Normal(coefficient: seq<Digit>, exponent: int)

  /** The two spellings denote the same magnitude: coefficient times a power of ten. */
  predicate SameMagnitude(a: Decimal, b: Decimal)
    requires a.Finite? && b.Finite?
  {
    var e := if a.exponent < b.exponent then a.exponent else b.exponent;
    Value(a.digits) * Pow(10, a.exponent - e) == Value(b.digits) * Pow(10, b.exponent - e)
  }

  function StripTrailing(n: Normal): Normal
    decreases |n.coefficient|
  {
    var ds := n.coefficient;
    if ds != [] && ds[|ds| - 1] == 0 then StripTrailing(Normal(ds[..|ds| - 1], n.exponent + 1)) else n
  }

  function NormalForm(d: Decimal): Normal
    requires d.Finite?
  {
    var c := StripLeading(d.digits);
    if c == [] then Normal([0], 0) else StripTrailing(Normal(c, d.exponent))
  }

  /** Removing trailing zeros keeps the value and the first digit, and ends in a digit that is not zero. */
  lemma {:induction false} StripTrailingKeeps(n: Normal)
    requires n.coefficient != [] && n.coefficient[0] != 0
    ensures var r := StripTrailing(n);
            r.exponent >= n.exponent &&
              Value(n.coefficient) == Value(r.coefficient) * Pow(10, r.exponent - n.exponent) &&
            r.coefficient != [] && r.coefficient[0] != 0 && Value(r.coefficient) % 10 != 0
    decreases |n.coefficient|
  {
    var ds := n.coefficient;
    if ds[|ds| - 1] == 0 {
      var shorter := Normal(ds[..|ds| - 1], n.exponent + 1);
      StripTrailingKeeps(shorter);
      var r := StripTrailing(shorter);
      var p := Pow(10, r.exponent - shorter.exponent);
      assert Pow(10, r.exponent - n.exponent) == 10 * p;
      TimesTen(Value(r.coefficient), p);
    }
  }

  lemma TimesTen(a: nat, p: nat)
    ensures 10 * (a * p) == a * (10 * p)
  {
  }

  lemma NormalFormKeeps(d: Decimal)
    requires d.Finite?
    ensures var n := NormalForm(d);
            n.coefficient != [] && (|n.coefficient| > 1 ==> n.coefficient[0] != 0) &&
            (Value(d.digits) == 0 <==> n == Normal([0], 0)) &&
            (Value(d.digits) > 0 ==>
               n.exponent >= d.exponent && Value(n.coefficient) % 10 != 0 &&
               Value(d.digits) == Value(n.coefficient) * Pow(10, n.exponent - d.exponent))
  {
    StripLeadingValue(d.digits);
    var c := StripLeading(d.digits);
    if c != [] {
      StripTrailingKeeps(Normal(c, d.exponent));
    }
    assert Value([]) == 0;
    assert Value([0]) == 0;
  }

  lemma Shift(v: nat, e: int, from: int, to: int)
    requires e >= from >= to
    ensures (v * Pow(10, e - from)) * Pow(10, from - to) == v * Pow(10, e - to)
  {
    PowAdd(10, e - from, from - to);
    MulAssociative(v, Pow(10, e - from), Pow(10, from - to));
  }

  /** Apart from powers of ten, a number that does not end in zero is determined by its multiples. */
  lemma {:induction false} NoTrailingZeroUnique(x: nat, i: nat, y: nat, j: nat)
    requires x % 10 != 0 && y % 10 != 0 && x * Pow(10, i) == y * Pow(10, j)
    ensures x == y && i == j
  {
    hide Pow;
    PowTen(x, i);
    PowTen(y, j);
    if i > 0 && j > 0 { NoTrailingZeroUnique(x, i - 1, y, j - 1); }
  }

  lemma PowTen(x: nat, i: nat)
    ensures i == 0 ==> x * Pow(10, i) == x
    ensures i > 0 ==> x * Pow(10, i) == 10 * (x * Pow(10, i - 1)) && (x * Pow(10, i)) % 10 == 0
  {
    if i > 0 {
      TimesTen(x, Pow(10, i - 1));
      MultipleOfTen(x * Pow(10, i - 1));
    }
  }

  lemma MultipleOfTen(k: nat)
    ensures (10 * k) % 10 == 0
  {
  }

  lemma PositiveProduct(x: nat, n: nat)
    ensures x * Pow(10, n) == 0 <==> x == 0
  {
    PowPositive(10, n);
  }

  /** The normal form is the value: equal exactly for spellings of the same magnitude. */
  lemma NormalFormIff(a: Decimal, b: Decimal)
    requires a.Finite? && b.Finite?
    ensures NormalForm(a) == NormalForm(b) <==> SameMagnitude(a, b)
  {
    hide NormalForm, Value, Pow;
    NormalFormKeeps(a);
    NormalFormKeeps(b);
    var m, n := NormalForm(a), NormalForm(b);
    var e := if a.exponent < b.exponent then a.exponent else b.exponent;
    PositiveProduct(Value(a.digits), a.exponent - e);
    PositiveProduct(Value(b.digits), b.exponent - e);
    if Value(a.digits) > 0 && Value(b.digits) > 0 {
      Shift(Value(m.coefficient), m.exponent, a.exponent, e);
      Shift(Value(n.coefficient), n.exponent, b.exponent, e);
      if SameMagnitude(a, b) {
        NoTrailingZeroUnique(Value(m.coefficient), m.exponent - e, Value(n.coefficient), n.exponent - e);
        ShortestIsText(m.coefficient);
        ShortestIsText(n.coefficient);
      }
    }
  }

  // ----- tokens -------------------------------------------------------------------------------

  function Ascii(ds: seq<Digit>): (r: seq<byte>)
    ensures |r| == |ds| && forall i :: 0 <= i < |ds| ==> r[i] == 48 + (ds[i] as byte)
  {
    seq(|ds|, i requires 0 <= i < |ds| => 48 + (ds[i] as byte))
  }

  function Magnitude(v: int): nat { if v < 0 then -v else v }

  function IntegerText(v: int): seq<byte> { (if v < 0 then [45] else []) + Ascii(Text(Magnitude(v))) }

  lemma AsciiInjective(a: seq<Digit>, b: seq<Digit>)
    requires Ascii(a) == Ascii(b)
    ensures a == b
  {
    forall i | 0 <= i < |a| ensures a[i] == b[i] {
      assert Ascii(a)[i] == Ascii(b)[i];
    }
  }

  lemma IntegerTextInjective(v: int, w: int)
    requires IntegerText(v) == IntegerText(w)
    ensures v == w
  {
    var s, t := Ascii(Text(Magnitude(v))), Ascii(Text(Magnitude(w)));
    assert IntegerText(v)[0] == (if v < 0 then 45 else s[0]) && IntegerText(w)[0] == (if w < 0 then 45 else t[0]);
    assert s == IntegerText(v)[|IntegerText(v)| - |s|..] && t == IntegerText(w)[|IntegerText(w)| - |t|..];
    AsciiInjective(Text(Magnitude(v)), Text(Magnitude(w)));
    TextValue(Magnitude(v));
    TextValue(Magnitude(w));
  }

  const COLON: byte := 58
  const SEMICOLON: byte := 59

  function IntegerToken(v: int): seq<byte> { [105] + IntegerText(v) + [SEMICOLON] }

  predicate IntegerAllowed(v: int) {
    BitLength(Magnitude(v)) <= MAX_INTEGER_BITS && DecimalDigits(Magnitude(v)) <= MAX_NUMBER_DIGITS
  }

  /** The cheap bit-length guard refuses nothing that the digit limit allows. */
  lemma BitGuardIsRedundant(v: int)
    ensures IntegerAllowed(v) <==> DecimalDigits(Magnitude(v)) <= MAX_NUMBER_DIGITS
  {
    var n := Magnitude(v);
    if DecimalDigits(n) <= MAX_NUMBER_DIGITS && n > 0 {
      FitsBits(n, MAX_NUMBER_DIGITS, MAX_INTEGER_BITS, 1000, 301);
    }
  }

  lemma FitsBits(n: nat, digits: nat, bits: nat, thousand: nat, limit: nat)
    requires n > 0 && DecimalDigits(n) <= digits == 1024 && bits == 3402 && thousand == 1000 && limit == 301
    ensures BitLength(n) <= bits
  {
    hide Pow, BitLength, DecimalDigits;
    DecimalDigitsBounds(n);
    PowMonotone(10, DecimalDigits(n), digits);
    BitsHoldDigits(bits, digits, thousand, limit);
    BitLengthBounds(n);
    if BitLength(n) > bits { PowMonotone(2, bits, BitLength(n) - 1); }
  }

  predicate DecimalAllowed(d: Decimal) {
    d.Finite? && |d.digits| <= MAX_NUMBER_DIGITS && Magnitude(d.exponent) <= MAX_NUMBER_EXPONENT &&
    Magnitude(NormalForm(d).exponent) <= MAX_NUMBER_EXPONENT
  }

  function NormalToken(negative: bool, n: Normal): seq<byte> {
    [100, if negative then 49 else 48, COLON] +
      (Ascii(n.coefficient) + ([COLON] + (IntegerText(n.exponent) + [SEMICOLON])))
  }

  function DecimalToken(d: Decimal): seq<byte>
    requires d.Finite?
  {
    NormalToken(d.negative, NormalForm(d))
  }

  /** Text up to a stop byte is recovered from what follows it. */
  lemma {:induction false} UpToStop(x: seq<byte>, restX: seq<byte>, y: seq<byte>, restY: seq<byte>, stop: byte)
    requires stop !in x && stop !in y && x + ([stop] + restX) == y + ([stop] + restY)
    ensures x == y && restX == restY
  {
    var s, t := x + ([stop] + restX), y + ([stop] + restY);
    StopsFirst(x, restX, stop);
    StopsFirst(y, restY, stop);
    if x == [] {
      assert s[1..] == restX && t[1..] == restY;
    } else {
      assert s[1..] == x[1..] + ([stop] + restX) && t[1..] == y[1..] + ([stop] + restY);
      UpToStop(x[1..], restX, y[1..], restY, stop);
    }
  }

  lemma StopsFirst(x: seq<byte>, rest: seq<byte>, stop: byte)
    requires stop !in x
    ensures var s := x + ([stop] + rest); (x == [] <==> s[0] == stop) && (x != [] ==> s[0] == x[0])
  {
  }

  lemma NumberText(v: int)
    ensures SEMICOLON !in IntegerText(v) && COLON !in IntegerText(v)
  {
  }

  lemma CoefficientText(ds: seq<Digit>)
    ensures SEMICOLON !in Ascii(ds) && COLON !in Ascii(ds)
  {
  }

  /** A decimal token is recovered from a longer stream: sign, coefficient and exponent. */
  lemma NormalTokenPrefix(s: bool, m: Normal, restM: seq<byte>, t: bool, n: Normal, restN: seq<byte>)
    requires NormalToken(s, m) + restM == NormalToken(t, n) + restN
    ensures s == t && m == n && restM == restN
  {
    hide Ascii, IntegerText;
    CoefficientText(m.coefficient);
    CoefficientText(n.coefficient);
    NumberText(m.exponent);
    NumberText(n.exponent);
    var x := Ascii(m.coefficient) + ([COLON] + (IntegerText(m.exponent) + ([SEMICOLON] + restM)));
    var y := Ascii(n.coefficient) + ([COLON] + (IntegerText(n.exponent) + ([SEMICOLON] + restN)));
    var p, q := [100, if s then 49 else 48, COLON], [100, if t then 49 else 48, COLON];
    assert NormalToken(s, m) + restM == p + x && NormalToken(t, n) + restN == q + y;
    assert (p + x)[1] == p[1] && (q + y)[1] == q[1] && (p + x)[3..] == x && (q + y)[3..] == y;
    UpToStop(Ascii(m.coefficient), IntegerText(m.exponent) + ([SEMICOLON] + restM),
             Ascii(n.coefficient), IntegerText(n.exponent) + ([SEMICOLON] + restN), COLON);
    UpToStop(IntegerText(m.exponent), restM, IntegerText(n.exponent), restN, SEMICOLON);
    AsciiInjective(m.coefficient, n.coefficient);
    IntegerTextInjective(m.exponent, n.exponent);
  }

  predicate SameDecimal(a: Decimal, b: Decimal) {
    a.Finite? && b.Finite? && a.negative == b.negative && SameMagnitude(a, b)
  }

  /** Equal tokens, equal values with equal signs; and a token is never the beginning of another. */
  lemma DecimalTokenIff(a: Decimal, restA: seq<byte>, b: Decimal, restB: seq<byte>)
    requires a.Finite? && b.Finite?
    ensures DecimalToken(a) + restA == DecimalToken(b) + restB <==> SameDecimal(a, b) && restA == restB
  {
    hide NormalForm, NormalToken, SameMagnitude;
    NormalFormIff(a, b);
    if DecimalToken(a) + restA == DecimalToken(b) + restB {
      NormalTokenPrefix(a.negative, NormalForm(a), restA, b.negative, NormalForm(b), restB);
    }
  }

  lemma IntegerTokenPrefix(v: int, restV: seq<byte>, w: int, restW: seq<byte>)
    requires IntegerToken(v) + restV == IntegerToken(w) + restW
    ensures v == w && restV == restW
  {
    hide IntegerText;
    NumberText(v);
    NumberText(w);
    assert IntegerToken(v) + restV == [105] + (IntegerText(v) + ([SEMICOLON] + restV));
    assert IntegerToken(w) + restW == [105] + (IntegerText(w) + ([SEMICOLON] + restW));
    assert (IntegerToken(v) + restV)[1..] == IntegerText(v) + ([SEMICOLON] + restV);
    assert (IntegerToken(w) + restW)[1..] == IntegerText(w) + ([SEMICOLON] + restW);
    UpToStop(IntegerText(v), restV, IntegerText(w), restW, SEMICOLON);
    IntegerTextInjective(v, w);
  }

  method WriteDecimal(d: Decimal) returns (token: Option<seq<byte>>)
    ensures token == if DecimalAllowed(d) then Some(DecimalToken(d)) else None
  {
    if d.NonFinite? { return None; }
    var exponent := d.exponent;
    if |d.digits| > MAX_NUMBER_DIGITS || Magnitude(exponent) > MAX_NUMBER_EXPONENT { return None; }
    var coefficient := StripLeading(d.digits);
    if coefficient == [] { coefficient := [0]; }
    if coefficient == [0] {
      exponent := 0;
    } else {
      while coefficient != [] && coefficient[|coefficient| - 1] == 0
        invariant StripTrailing(Normal(coefficient, exponent)) == NormalForm(d)
        decreases |coefficient|
      {
        coefficient := coefficient[..|coefficient| - 1];
        exponent := exponent + 1;
      }
    }
    if Magnitude(exponent) > MAX_NUMBER_EXPONENT { return None; }
    return Some(NormalToken(d.negative, Normal(coefficient, exponent)));
  }
}

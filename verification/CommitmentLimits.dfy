/** Which values have a commitment, said of the values in the tree and not of the walk over it. */
module CommitmentLimits {
  import opened Wrappers
  import opened Powers
  import opened CommitmentNumbers
  import opened CommitmentTree
  import opened CommitmentTheorems
  import opened RequestCommitment

  /** What an item, a name or a value of a member is to its container. */
  predicate IsPart(v: Json, w: Json) {
    match v
    case Arr(items) => w in items
    case Obj(members) => exists i :: 0 <= i < |members| && (w == members[i].name || w == members[i].value)
    case _ => false
  }

  /** A value that lies in the tree so many levels below its root. */
  ghost predicate LiesIn(v: Json, depth: nat, w: Json)
    decreases depth
  {
    if depth == 0 then w == v else exists part: Json :: IsPart(v, part) && LiesIn(part, depth - 1, w)
  }

  /** A decimal whose coefficient, freed of the zeros at its end, still has an exponent within the limit. */
  predicate DecimalFits(d: Decimal) {
    d.Finite? && |d.digits| <= MAX_NUMBER_DIGITS &&
    Magnitude(d.exponent) <= MAX_NUMBER_EXPONENT &&
    (Value(d.digits) == 0 || !MultipleOf(Value(d.digits), Pow(10, MAX_NUMBER_EXPONENT + 1 - d.exponent)))
  }

  predicate MultipleOf(n: nat, k: nat) { exists q: nat | q <= n :: Times(q, k) == n }

  function Times(a: nat, b: nat): nat { a * b }

  /** What a value must be, wherever it lies. */
  predicate Plain(w: Json) {
    match w
    case Int(i) => Magnitude(i) < Pow(10, MAX_NUMBER_DIGITS)
    case Float(d) => DecimalFits(d)
    case Dec(d) => DecimalFits(d)
    case Str(utf8) => |utf8| <= MAX_TEXT_BYTES
    case Arr(items) => |items| <= MAX_ITEMS
    case Obj(members) => |members| <= MAX_ITEMS && forall i :: 0 <= i < |members| ==> members[i].name.Str?
    case Unsupported => false
    case _ => true
  }

  lemma IntegerIff(i: int)
    ensures IntegerAllowed(i) <==> Magnitude(i) < Pow(10, MAX_NUMBER_DIGITS)
  {
    hide Pow, DecimalDigits, BitLength;
    BitGuardIsRedundant(i);
    DigitsReach(Magnitude(i), MAX_NUMBER_DIGITS);
  }

  /** Of x times 10 to the j, where x does not end in zero, exactly the powers up to j are factors. */
  lemma TenDivides(x: nat, j: nat, k: nat)
    requires x % 10 != 0
    ensures MultipleOf(x * Pow(10, j), Pow(10, k)) <==> k <= j
  {
    hide Pow;
    var n := x * Pow(10, j);
    PowPositive(10, j);
    if k <= j {
      var q := x * Pow(10, j - k);
      PowAdd(10, j - k, k);
      MulAssociative(x, Pow(10, j - k), Pow(10, k));
      PowPositive(10, k);
      ProductMonotone(q, q, 1, Pow(10, k));
      assert Times(q, Pow(10, k)) == n;
    } else if MultipleOf(n, Pow(10, k)) {
      var q: nat :| q <= n && Times(q, Pow(10, k)) == n;
      PowAdd(10, k - j, j);
      MulAssociative(q, Pow(10, k - j), Pow(10, j));
      Cancel(q * Pow(10, k - j), x, Pow(10, j));
      PowTen(q, k - j);
    }
  }

  lemma Cancel(a: nat, b: nat, c: nat)
    requires a * c == b * c && c > 0
    ensures a == b
  {
  }

  lemma DecimalIff(d: Decimal)
    ensures DecimalAllowed(d) <==> DecimalFits(d)
  {
    hide Pow, NormalForm, Value, MultipleOf;
    if d.Finite? && Magnitude(d.exponent) <= MAX_NUMBER_EXPONENT {
      NormalFormKeeps(d);
      var n := NormalForm(d);
      if Value(d.digits) > 0 {
        TenDivides(Value(n.coefficient), n.exponent - d.exponent, MAX_NUMBER_EXPONENT + 1 - d.exponent);
      }
    }
  }

  lemma PlainIff(v: Json, depth: nat)
    ensures NodeAllowed(v, depth) <==> depth <= MAX_DEPTH && Plain(v)
  {
    hide Pow, DecimalAllowed, DecimalFits, IntegerAllowed;
    match v
    case Int(i) => IntegerIff(i);
    case Float(d) => DecimalIff(d);
    case Dec(d) => DecimalIff(d);
    case _ =>
  }

  /** The children that are written are the parts, whatever the order. */
  lemma KidsAreParts(v: Json, w: Json)
    ensures w in Kids(v) <==> IsPart(v, w)
  {
    if v.Obj? {
      if w in Kids(v) {
        var k :| 0 <= k < |Kids(v)| && Kids(v)[k] == w;
        WrittenIsPart(v, k);
      }
      if IsPart(v, w) {
        var i :| 0 <= i < |v.members| && (w == v.members[i].name || w == v.members[i].value);
        PartIsWritten(v, i);
      }
    }
  }

  lemma WrittenIsPart(v: Json, k: nat)
    requires v.Obj? && k < |Kids(v)|
    ensures IsPart(v, Kids(v)[k])
  {
    hide SortMembers, Flatten;
    var i := UnsortedAt(v.members, k / 2);
    assert k == 2 * (k / 2) || k == 2 * (k / 2) + 1;
  }

  lemma PartIsWritten(v: Json, i: nat)
    requires v.Obj? && i < |v.members|
    ensures v.members[i].name in Kids(v) && v.members[i].value in Kids(v)
  {
    hide SortMembers, Flatten;
    var p := SortedAt(v.members, i);
    assert Kids(v)[2 * p] == v.members[i].name && Kids(v)[2 * p + 1] == v.members[i].value;
  }

  lemma {:induction false} AllAllowedIff(cs: seq<Json>, depth: nat)
    ensures AllAllowed(cs, depth) <==> forall w :: w in cs ==> Allowed(w, depth)
    decreases |cs|
  {
    hide Allowed;
    if cs != [] {
      AllAllowedIff(cs[1..], depth);
      assert cs == [cs[0]] + cs[1..];
      FirstKid(cs, 0, depth);
    }
  }

  /** Everything that lies in the tree, the tree itself included, is plain and not too deep. */
  ghost predicate AllPlain(v: Json, room: int) {
    forall d: nat, w :: LiesIn(v, d, w) ==> d <= room && Plain(w)
  }

  lemma PartsPlain(v: Json, room: int)
    ensures AllPlain(v, room) <==>
            room >= 0 && Plain(v) && forall part: Json :: IsPart(v, part) ==> AllPlain(part, room - 1)
  {
    hide Plain, IsPart;
    if AllPlain(v, room) {
      assert LiesIn(v, 0, v);
      forall part: Json, d: nat, w | IsPart(v, part) && LiesIn(part, d, w) ensures d <= room - 1 && Plain(w) {
        assert LiesIn(v, d + 1, w);
      }
    } else {
      var d: nat, w :| LiesIn(v, d, w) && !(d <= room && Plain(w));
      if d > 0 {
        var part :| IsPart(v, part) && LiesIn(part, d - 1, w);
      }
    }
  }

  lemma {:induction false} AllowedIff(v: Json, depth: nat)
    ensures Allowed(v, depth) <==> AllPlain(v, MAX_DEPTH - depth)
    decreases Nodes(v)
  {
    hide Plain, NodeAllowed, AllAllowed, AllPlain, IsPart, Kids;
    AllowedParts(v, depth);
    PlainIff(v, depth);
    PartsPlain(v, MAX_DEPTH - depth);
    AllAllowedIff(Kids(v), depth + 1);
    forall part: Json
      ensures part in Kids(v) <==> IsPart(v, part)
      ensures part in Kids(v) ==> (Allowed(part, depth + 1) <==> AllPlain(part, MAX_DEPTH - depth - 1))
    {
      KidsAreParts(v, part);
      if part in Kids(v) {
        var i :| 0 <= i < |Kids(v)| && Kids(v)[i] == part;
        KidSmaller(Kids(v), i);
        AllowedIff(part, depth + 1);
      }
    }
  }

  /**
    A value has a commitment exactly when everything in it, names included, is plain and at
    most 32 levels deep, there are at most 4096 values in all, and the encoding fits the limit.
  */
  lemma CommitsIff(v: Json)
    ensures Commit(v).Some? <==> AllPlain(v, 32) && Nodes(v) <= 4096 && |Encode(v)| <= 1048576
  {
    hide Encode, Nodes, AllPlain, Allowed;
    AllowedIff(v, 0);
  }
}

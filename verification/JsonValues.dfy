/**
  Python JSON values as an object graph, and what the preflight should say about them.

  Containers and strings are objects with an identity (`id`), so a container can be shared
  or can contain itself. `Measure` gives the height and the smallest encoded size of the
  tree a value unfolds to, when no container of it lies deeper than `room`.
*/
module JsonValues {
  import opened Wrappers
  import opened Powers
  import opened JsonText

  const MAX_MESSAGE_BYTES: nat := 10 * 1024 * 1024
  const MAX_DEPTH: int := 64

  /** A float carries the text the encoder would give it. */
  datatype Scalar = Null | Truth(b: bool) | Integer(v: int) | Float(finite: bool, spelling: seq<byte>) | Unsupported

  datatype Value = Container(id: nat) | Text(id: nat) | Plain(scalar: Scalar)

  datatype Shape = Sequence(items: seq<Value>) | Mapping(members: seq<(Value, Value)>)

  /** The objects of one traversal, and the interpreter's limit on decimal digits (0 for none). */
  datatype Heap = Heap(containers: map<nat, Shape>, texts: map<nat, seq<CodePoint>>, digitLimit: nat)

  function Children(shape: Shape): (cs: seq<Value>)
    ensures shape.Sequence? ==> cs == shape.items
    ensures shape.Mapping? ==> |cs| == 2 * |shape.members|
  {
    match shape
    case Sequence(items) => items
    case Mapping(members) =>
      seq(2 * |members|, i requires 0 <= i < 2 * |members| => if i % 2 == 0 then members[i / 2].0 else members[i / 2].1)
  }

  /** Whether the first `n` children yielded are acceptable as member names where they are names. */
  predicate NamesOk(shape: Shape, n: nat) {
    shape.Mapping? ==> forall i :: 0 <= i < n && i < |Children(shape)| && i % 2 == 0 ==> Children(shape)[i].Text?
  }

  predicate Known(h: Heap, v: Value) {
    (v.Container? ==> v.id in h.containers) && (v.Text? ==> v.id in h.texts)
  }

  /** Every reference leads to an object, and no object is both a container and a string. */
  ghost predicate Closed(h: Heap) {
    h.containers.Keys !! h.texts.Keys &&
    forall c, i :: c in h.containers && 0 <= i < |Children(h.containers[c])| ==> Known(h, Children(h.containers[c])[i])
  }

  // ----- the size of scalars ---------------------------------------------------------------

  /** UTF-8 bytes of one code point inside a JSON string that escapes only what it must. */
  function CodePointBytes(c: CodePoint): Option<nat> {
    if 0xD800 <= c < 0xE000 then None
    else if c == 0x22 || c == 0x5C || 8 <= c <= 10 || c == 12 || c == 13 then Some(2)
    else if c < 0x20 then Some(6)
    else if c < 0x80 then Some(1)
    else if c < 0x800 then Some(2)
    else if c < 0x10000 then Some(3)
    else Some(4)
  }

  function QuotedBytes(s: seq<CodePoint>): Option<nat> {
    if s == [] then Some(2)
    else match (CodePointBytes(s[0]), QuotedBytes(s[1..]))
         case (Some(a), Some(b)) => Some(a + b)
         case _ => None
  }

  function TextBytes(s: seq<CodePoint>): Option<nat> {
    if |s| > MAX_MESSAGE_BYTES then None else QuotedBytes(s)
  }

  function Abs(v: int): nat { if v < 0 then -v else v }

  /** The digit count estimated from the bit length alone. */
  function EstimatedDigits(n: nat): nat {
    var d := (BitLength(n) - 1) * 301 / 1000 + 1;
    if d < 1 then 1 else d
  }

  function IntegerBytes(v: int, digitLimit: nat): Option<nat> {
    var digits := EstimatedDigits(Abs(v));
    if digits > MAX_MESSAGE_BYTES then None
    else if digitLimit != 0 &&
            (digits > digitLimit || (BitLength(Abs(v)) > digitLimit * 3 && Abs(v) >= Pow(10, digitLimit))) then None
    else Some(digits + if v < 0 then 1 else 0)
  }

  function ScalarBytes(s: Scalar, digitLimit: nat): Option<nat> {
    match s
    case Null => Some(4)
    case Truth(b) => Some(if b then 4 else 5)
    case Integer(v) => IntegerBytes(v, digitLimit)
    case Float(finite, _) => if finite then Some(1) else None
    case Unsupported => None
  }

  /** A text can be charged exactly if it has no surrogates, and is charged the length of what is written for it. */
  lemma {:induction false} QuotedIsCharged(s: seq<CodePoint>)
    ensures QuotedBytes(s).Some? <==> ScalarValues(s)
    ensures QuotedBytes(s).Some? ==> QuotedBytes(s).value == |Quoted(s)| && |s| + 2 <= |Quoted(s)|
  {
    if s != [] {
      QuotedIsCharged(s[1..]);
      assert s == [s[0]] + s[1..];
      assert |Quoted(s)| == |WriteCodePoint(s[0])| + |Quoted(s[1..])|;
    }
  }

  /** The estimate never claims a digit that is not there. */
  lemma EstimateIsLowerBound(n: nat)
    ensures 1 <= EstimatedDigits(n) <= DecimalDigits(n)
  {
    DecimalDigitsBounds(n);
    if n > 0 && EstimatedDigits(n) > 1 {
      BitLengthBounds(n);
      var k := BitLength(n) - 1;
      var e: nat := k * 301 / 1000;
      BitsHoldDigits(k, e, 1000, 301);
      DigitsReach(n, e);
    }
  }

  /** The estimate is at most two digits short, and one more for every 3999. */
  lemma EstimateIsClose(n: nat)
    ensures DecimalDigits(n) <= EstimatedDigits(n) + EstimatedDigits(n) / 3999 + 2
  {
    if n > 0 {
      BitLengthBounds(n);
      DecimalDigitsBounds(n);
      var b := BitLength(n);
      var e: nat := (28 * b + 92) / 93;
      hide Pow, BitLength, DecimalDigits;
      DigitsHoldBits(b, e, 93, 28);
      DigitsReach(n, e);
    }
  }

  /** The two-part test refuses exactly the integers with more decimal digits than the limit. */
  lemma IntegerGuardExact(v: int, digitLimit: nat)
    requires digitLimit > 0 && EstimatedDigits(Abs(v)) <= MAX_MESSAGE_BYTES
    ensures IntegerBytes(v, digitLimit).None? <==> Abs(v) >= Pow(10, digitLimit)
    ensures IntegerBytes(v, digitLimit).None? <==> DecimalDigits(Abs(v)) > digitLimit
  {
    var n := Abs(v);
    DigitsReach(n, digitLimit);
    EstimateIsLowerBound(n);
    if n >= Pow(10, digitLimit) {
      PowPositive(10, digitLimit);
      BitLengthBounds(n);
      if BitLength(n) <= digitLimit * 3 {
        PowMonotone(2, BitLength(n), 3 * digitLimit);
        PowMul(2, 3, digitLimit);
        assert Pow(2, 3) == 8;
        PowMonotoneBase(8, 10, digitLimit);
      }
    }
  }

  // ----- the recursive definition ----------------------------------------------------------

  datatype Extent = Extent(height: int, size: nat)

  function Rank(room: int): nat { if room < 0 then 0 else room + 1 }

  function Measure(h: Heap, v: Value, room: int): (r: Option<Extent>)
    requires Known(h, v)
    decreases Rank(room), 0
  {
    match v
    case Plain(s) =>
      (match ScalarBytes(s, h.digitLimit) case Some(n) => Some(Extent(-1, n)) case None => None)
    case Text(id) =>
      (match TextBytes(h.texts[id]) case Some(n) => Some(Extent(-1, n)) case None => None)
    case Container(id) =>
      var cs := Children(h.containers[id]);
      if room < 0 || !NamesOk(h.containers[id], |cs|) || !(forall i :: 0 <= i < |cs| ==> Known(h, cs[i])) then None
      else match MeasureAll(h, cs, room - 1)
           case Some(e) => Some(Extent(e.height + 1, e.size + 2))
           case None => None
  }

  /** The children together: the greatest height, and the sizes with one byte between neighbours. */
  function MeasureAll(h: Heap, cs: seq<Value>, room: int): Option<Extent>
    requires forall i :: 0 <= i < |cs| ==> Known(h, cs[i])
    decreases Rank(room), 1 + |cs|
  {
    if cs == [] then Some(Extent(-1, 0))
    else match (MeasureAll(h, cs[..|cs| - 1], room), Measure(h, cs[|cs| - 1], room))
         case (Some(a), Some(b)) => Some(Joined(a, b, |cs| > 1))
         case _ => None
  }

  function Joined(a: Extent, b: Extent, separated: bool): Extent {
    Extent(if a.height < b.height then b.height else a.height, a.size + b.size + if separated then 1 else 0)
  }

  /** What the preflight is for: the unfolded value fits the depth limit and the byte budget. */
  predicate Acceptable(h: Heap, payload: Value)
    requires Known(h, payload)
  {
    var m := Measure(h, payload, MAX_DEPTH);
    m.Some? && m.value.size <= MAX_MESSAGE_BYTES
  }

  /** Room beyond the height changes nothing, and less room than the height refuses. */
  lemma {:induction false} RoomOnlyLimitsHeight(h: Heap, v: Value, room: int, other: int)
    requires Known(h, v) && room >= -1 && other >= -1 && Measure(h, v, room).Some?
    ensures var e := Measure(h, v, room).value;
            -1 <= e.height <= room && e.size >= 1 && (v.Container? ==> e.size >= 2 && e.height >= 0) &&
            Measure(h, v, other) == if e.height <= other then Some(e) else None
    decreases Rank(room), 0
  {
    if v.Text? {
      QuotedAtLeastTwo(h.texts[v.id]);
    } else if v.Container? {
      RoomOnlyLimitsHeights(h, Children(h.containers[v.id]), room - 1, if other < 0 then -1 else other - 1);
    }
  }

  lemma {:induction false} RoomOnlyLimitsHeights(h: Heap, cs: seq<Value>, room: int, other: int)
    requires forall i :: 0 <= i < |cs| ==> Known(h, cs[i])
    requires room >= -1 && other >= -1 && MeasureAll(h, cs, room).Some?
    ensures var e := MeasureAll(h, cs, room).value;
            -1 <= e.height <= room && MeasureAll(h, cs, other) == if e.height <= other then Some(e) else None
    decreases Rank(room), 1 + |cs|
  {
    if cs != [] {
      RoomOnlyLimitsHeights(h, cs[..|cs| - 1], room, other);
      RoomOnlyLimitsHeight(h, cs[|cs| - 1], room, other);
    }
  }

  lemma {:induction false} QuotedAtLeastTwo(s: seq<CodePoint>)
    ensures QuotedBytes(s).Some? ==> QuotedBytes(s).value >= 2
  {
    if s != [] { QuotedAtLeastTwo(s[1..]); }
  }

  /** A prefix of the children measures too, costs no more, and its last child with it. */
  lemma {:induction false} PrefixMeasures(h: Heap, cs: seq<Value>, room: int, n: nat)
    requires forall i :: 0 <= i < |cs| ==> Known(h, cs[i])
    requires n <= |cs| && MeasureAll(h, cs, room).Some?
    ensures MeasureAll(h, cs[..n], room).Some? &&
            MeasureAll(h, cs[..n], room).value.size <= MeasureAll(h, cs, room).value.size
    decreases |cs|
  {
    if n == |cs| {
      assert cs[..n] == cs;
    } else {
      PrefixMeasures(h, cs[..|cs| - 1], room, n);
      assert cs[..|cs| - 1][..n] == cs[..n];
    }
  }

  lemma AppendChild(h: Heap, cs: seq<Value>, n: nat, room: int)
    requires forall i :: 0 <= i < |cs| ==> Known(h, cs[i])
    requires n < |cs|
    ensures MeasureAll(h, cs[..n + 1], room) ==
            match (MeasureAll(h, cs[..n], room), Measure(h, cs[n], room))
            case (Some(a), Some(b)) => Some(Joined(a, b, n > 0))
            case _ => None
  {
    assert cs[..n + 1][..n] == cs[..n];
  }
}

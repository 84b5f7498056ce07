/**
  The expanded value as an ordinary finite tree, without identities or sharing, and the
  reading of the preflight's verdict on it.
*/
module JsonTrees {
  import opened Wrappers
  import opened Powers
  import opened JsonText
  import opened JsonValues
  import opened JsonPreflight

  datatype Tree = LeafTree(scalar: Scalar) | TextTree(text: seq<CodePoint>) | NodeTree(mapping: bool, kids: seq<Tree>)

  /** `t` is what the value is once every reference is followed; a cyclic value has no such tree. */
  ghost predicate Unfolds(h: Heap, v: Value, t: Tree)
    decreases t
  {
    match t
    case LeafTree(s) => v == Plain(s)
    case TextTree(text) => v.Text? && v.id in h.texts && h.texts[v.id] == text
    case NodeTree(mapping, kids) =>
      v.Container? && v.id in h.containers && h.containers[v.id].Mapping? == mapping && |kids| == |Kids(h, v.id)| &&
      forall i :: 0 <= i < |kids| ==> Unfolds(h, Kids(h, v.id)[i], kids[i])
  }

  /** Nesting of containers: a leaf is at -1, an empty container at 0. */
  function Height(t: Tree): int {
    match t case NodeTree(_, kids) => Highest(kids) + 1 case _ => -1
  }

  function Highest(ts: seq<Tree>): int {
    if ts == [] then -1
    else
      var a, b := Highest(ts[..|ts| - 1]), Height(ts[|ts| - 1]);
      if a < b then b else a
  }

  predicate NamesAreText(mapping: bool, kids: seq<Tree>) {
    mapping ==> forall i :: 0 <= i < |kids| && i % 2 == 0 ==> kids[i].TextTree?
  }

  /** The smallest number of bytes any JSON text of the tree can have, if it has one at all. */
  function Size(t: Tree, digitLimit: nat): Option<nat> {
    match t
    case LeafTree(s) => ScalarBytes(s, digitLimit)
    case TextTree(text) => TextBytes(text)
    case NodeTree(mapping, kids) =>
      if !NamesAreText(mapping, kids) then None
      else match Sizes(kids, digitLimit) case Some(n) => Some(n + 2) case None => None
  }

  function Sizes(ts: seq<Tree>, digitLimit: nat): Option<nat> {
    if ts == [] then Some(0)
    else match (Sizes(ts[..|ts| - 1], digitLimit), Size(ts[|ts| - 1], digitLimit))
         case (Some(a), Some(b)) => Some(a + b + if |ts| > 1 then 1 else 0)
         case _ => None
  }

  /** The tree a measurable value unfolds to. */
  ghost function Expand(h: Heap, v: Value, room: int): Tree
    requires Known(h, v)
    decreases Rank(room), 0
  {
    match v
    case Plain(s) => LeafTree(s)
    case Text(id) => TextTree(h.texts[id])
    case Container(id) =>
      if room < 0 || !(forall i :: 0 <= i < |Kids(h, id)| ==> Known(h, Kids(h, id)[i])) then LeafTree(Unsupported)
      else NodeTree(h.containers[id].Mapping?, ExpandAll(h, Kids(h, id), room - 1))
  }

  ghost function ExpandAll(h: Heap, cs: seq<Value>, room: int): (ts: seq<Tree>)
    requires forall i :: 0 <= i < |cs| ==> Known(h, cs[i])
    ensures |ts| == |cs| && forall i :: 0 <= i < |cs| ==> ts[i] == Expand(h, cs[i], room)
    decreases Rank(room), 1 + |cs|
  {
    if cs == [] then []
    else ExpandAll(h, cs[..|cs| - 1], room) + [Expand(h, cs[|cs| - 1], room)]
  }

  lemma {:induction false} MeasuredUnfolds(h: Heap, v: Value, room: int)
    requires Known(h, v) && Measure(h, v, room).Some?
    ensures var t := Expand(h, v, room); var e := Measure(h, v, room).value;
            Unfolds(h, v, t) && Height(t) == e.height && Size(t, h.digitLimit) == Some(e.size)
    decreases Rank(room), 0
  {
    hide TextBytes, ScalarBytes, Sizes, Highest, ExpandAll, MeasureAll;
    if v.Container? {
      var cs := Kids(h, v.id);
      AllMeasuredUnfold(h, cs, room - 1);
      var kids := ExpandAll(h, cs, room - 1);
      forall i | 0 <= i < |kids| && i % 2 == 0 && h.containers[v.id].Mapping? ensures kids[i].TextTree? {
        assert cs[i].Text?;
      }
    }
  }

  lemma {:induction false} AllMeasuredUnfold(h: Heap, cs: seq<Value>, room: int)
    requires forall i :: 0 <= i < |cs| ==> Known(h, cs[i])
    requires MeasureAll(h, cs, room).Some?
    ensures var ts := ExpandAll(h, cs, room); var e := MeasureAll(h, cs, room).value;
            (forall i :: 0 <= i < |cs| ==> Unfolds(h, cs[i], ts[i])) &&
            Highest(ts) == e.height && Sizes(ts, h.digitLimit) == Some(e.size)
    decreases Rank(room), 1 + |cs|
  {
    hide Unfolds, Height, Size, Expand, Measure, Kids, TextBytes, ScalarBytes, Known;
    if cs != [] {
      AllMeasuredUnfold(h, cs[..|cs| - 1], room);
      MeasuredUnfolds(h, cs[|cs| - 1], room);
      var ts := ExpandAll(h, cs, room);
      assert ts[..|ts| - 1] == ExpandAll(h, cs[..|cs| - 1], room);
    }
  }

  lemma {:induction false} UnfoldedMeasures(h: Heap, v: Value, t: Tree, room: int)
    requires Closed(h) && Known(h, v) && Unfolds(h, v, t) && Height(t) <= room && room >= -1
    requires Size(t, h.digitLimit).Some?
    ensures Measure(h, v, room) == Some(Extent(Height(t), Size(t, h.digitLimit).value))
    decreases t
  {
    if t.NodeTree? {
      HighestAtLeast(t.kids);
      KidsKnown(h, v.id);
      AllUnfoldedMeasure(h, Kids(h, v.id), t.kids, room - 1);
      forall i | 0 <= i < |t.kids| && i % 2 == 0 && t.mapping ensures Kids(h, v.id)[i].Text? {
        assert t.kids[i].TextTree? && Unfolds(h, Kids(h, v.id)[i], t.kids[i]);
      }
    }
  }

  lemma {:induction false} HighestAtLeast(ts: seq<Tree>)
    ensures Highest(ts) >= -1
  {
    if ts != [] { HighestAtLeast(ts[..|ts| - 1]); }
  }

  lemma {:induction false} AllUnfoldedMeasure(h: Heap, cs: seq<Value>, ts: seq<Tree>, room: int)
    requires Closed(h) && |cs| == |ts| && (forall i :: 0 <= i < |cs| ==> Known(h, cs[i]) && Unfolds(h, cs[i], ts[i]))
    requires Highest(ts) <= room && room >= -1 && Sizes(ts, h.digitLimit).Some?
    ensures MeasureAll(h, cs, room) == Some(Extent(Highest(ts), Sizes(ts, h.digitLimit).value))
    decreases ts
  {
    if cs != [] {
      AllUnfoldedMeasure(h, cs[..|cs| - 1], ts[..|ts| - 1], room);
      UnfoldedMeasures(h, cs[|cs| - 1], ts[|ts| - 1], room);
    }
  }

  // ----- what can be sent, and what it is charged ---------------------------------------------

  /** Numbers are finite and, if there is a limit on digits, not too long. */
  predicate ScalarOk(s: Scalar, digitLimit: nat) {
    match s
    case Integer(v) => digitLimit > 0 ==> Abs(v) < Pow(10, digitLimit)
    case Float(finite, _) => finite
    case Unsupported => false
    case _ => true
  }

  /** Every value has a JSON text: no surrogates, texts as names, valid scalars. */
  predicate Sendable(t: Tree, digitLimit: nat) {
    match t
    case LeafTree(s) => ScalarOk(s, digitLimit)
    case TextTree(text) => ScalarValues(text)
    case NodeTree(mapping, kids) =>
      NamesAreText(mapping, kids) && forall i :: 0 <= i < |kids| ==> Sendable(kids[i], digitLimit)
  }

  function Decimal(n: nat): seq<byte> {
    if n < 10 then [(48 + n) as byte] else Decimal(n / 10) + [(48 + n % 10) as byte]
  }

  function WriteScalar(s: Scalar): seq<byte> {
    match s
    case Null => [110, 117, 108, 108]
    case Truth(b) => if b then [116, 114, 117, 101] else [102, 97, 108, 115, 101]
    case Integer(v) => (if v < 0 then [45] else []) + Decimal(Abs(v))
    case Float(_, spelling) => spelling
    case Unsupported => []
  }

  /** The compact JSON text. */
  function Write(t: Tree): seq<byte> {
    match t
    case LeafTree(s) => WriteScalar(s)
    case TextTree(text) => Quoted(text)
    case NodeTree(mapping, kids) =>
      [if mapping then 123 else 91] + WriteAll(kids, mapping) + [if mapping then 125 else 93]
  }

  /** Commas between the children, and a colon after each name. */
  function WriteAll(ts: seq<Tree>, mapping: bool): seq<byte> {
    if ts == [] then []
    else
      WriteAll(ts[..|ts| - 1], mapping) +
      (if |ts| == 1 then [] else if mapping && |ts| % 2 == 0 then [58] else [44]) + Write(ts[|ts| - 1])
  }

  /** What is charged: what is written, but for integers an estimate and for floats one byte. */
  function Charge(t: Tree): nat {
    match t
    case LeafTree(Integer(v)) => EstimatedDigits(Abs(v)) + if v < 0 then 1 else 0
    case LeafTree(Float(_, _)) => 1
    case LeafTree(s) => |WriteScalar(s)|
    case TextTree(text) => |Quoted(text)|
    case NodeTree(_, kids) => 2 + ChargeAll(kids)
  }

  function ChargeAll(ts: seq<Tree>): nat {
    if ts == [] then 0
    else ChargeAll(ts[..|ts| - 1]) + Charge(ts[|ts| - 1]) + if |ts| > 1 then 1 else 0
  }

  lemma ScalarCharged(s: Scalar, digitLimit: nat)
    ensures ScalarBytes(s, digitLimit).Some? ==>
              ScalarOk(s, digitLimit) && ScalarBytes(s, digitLimit).value == Charge(LeafTree(s))
    ensures ScalarOk(s, digitLimit) && Charge(LeafTree(s)) <= MAX_MESSAGE_BYTES ==> ScalarBytes(s, digitLimit).Some?
  {
    hide EstimatedDigits, BitLength, Pow, Decimal;
    if s.Integer? && EstimatedDigits(Abs(s.v)) <= MAX_MESSAGE_BYTES && digitLimit > 0 {
      IntegerGuardExact(s.v, digitLimit);
    }
  }

  lemma {:induction false} SizeIsCharge(t: Tree, digitLimit: nat)
    ensures Size(t, digitLimit).Some? ==> Sendable(t, digitLimit) && Size(t, digitLimit).value == Charge(t)
    ensures Sendable(t, digitLimit) && Charge(t) <= MAX_MESSAGE_BYTES ==> Size(t, digitLimit).Some?
    decreases t
  {
    match t
    case LeafTree(s) => ScalarCharged(s, digitLimit);
    case TextTree(text) => QuotedIsCharged(text);
    case NodeTree(_, kids) => SizesAreCharges(kids, digitLimit);
  }

  lemma {:induction false} SizesAreCharges(ts: seq<Tree>, digitLimit: nat)
    ensures Sizes(ts, digitLimit).Some? ==>
              (forall i :: 0 <= i < |ts| ==> Sendable(ts[i], digitLimit)) &&
                Sizes(ts, digitLimit).value == ChargeAll(ts)
    ensures (forall i :: 0 <= i < |ts| ==> Sendable(ts[i], digitLimit)) && ChargeAll(ts) <= MAX_MESSAGE_BYTES ==>
              Sizes(ts, digitLimit).Some?
    decreases ts
  {
    hide Size, Charge, Sendable;
    if ts != [] {
      SizesAreCharges(ts[..|ts| - 1], digitLimit);
      SizeIsCharge(ts[|ts| - 1], digitLimit);
    }
  }

  ghost predicate AcceptableTree(t: Tree, digitLimit: nat) {
    Height(t) <= MAX_DEPTH && Sendable(t, digitLimit) && Charge(t) <= MAX_MESSAGE_BYTES
  }

  /**
    The preflight accepts exactly the values that unfold to a finite tree (so no cycles) of
    container depth at most 64 that can be sent and whose charge fits the message limit,
    however objects are shared.
  */
  lemma AcceptedIffTree(h: Heap, payload: Value)
    requires Closed(h) && Known(h, payload)
    ensures Acceptable(h, payload) <==> exists t :: Unfolds(h, payload, t) && AcceptableTree(t, h.digitLimit)
  {
    hide Measure, Unfolds, Expand, Height, Size, Sendable, Charge;
    if Acceptable(h, payload) {
      var t := Expand(h, payload, MAX_DEPTH);
      RoomOnlyLimitsHeight(h, payload, MAX_DEPTH, MAX_DEPTH);
      MeasuredUnfolds(h, payload, MAX_DEPTH);
      SizeIsCharge(t, h.digitLimit);
      assert Unfolds(h, payload, t);
    }
    forall t | Unfolds(h, payload, t) && AcceptableTree(t, h.digitLimit) ensures Acceptable(h, payload) {
      SizeIsCharge(t, h.digitLimit);
      UnfoldedMeasures(h, payload, t, MAX_DEPTH);
    }
  }

  // ----- the budget refuses nothing that could have been sent ---------------------------------

  predicate FloatsHaveText(t: Tree)
  {
    match t
    case LeafTree(Float(_, spelling)) => spelling != []
    case NodeTree(_, kids) => forall i :: 0 <= i < |kids| ==> FloatsHaveText(kids[i])
    case _ => true
  }

  predicate NoNumbers(t: Tree) {
    match t
    case LeafTree(s) => !s.Integer? && !s.Float?
    case NodeTree(_, kids) => forall i :: 0 <= i < |kids| ==> NoNumbers(kids[i])
    case _ => true
  }

  lemma {:induction false} DecimalLength(n: nat)
    ensures |Decimal(n)| == DecimalDigits(n)
  {
    if n >= 10 { DecimalLength(n / 10); }
  }

  /** The charge never exceeds the length of the text the value is sent as, and without numbers is that length. */
  lemma {:induction false} ChargedAtMostWritten(t: Tree)
    requires FloatsHaveText(t)
    ensures Charge(t) <= |Write(t)| && (NoNumbers(t) ==> Charge(t) == |Write(t)|)
    decreases t
  {
    match t
    case LeafTree(s) =>
      if s.Integer? {
        EstimateIsLowerBound(Abs(s.v));
        DecimalLength(Abs(s.v));
      }
    case TextTree(_) =>
    case NodeTree(mapping, kids) => AllChargedAtMostWritten(kids, mapping);
  }

  lemma {:induction false} AllChargedAtMostWritten(ts: seq<Tree>, mapping: bool)
    requires forall i :: 0 <= i < |ts| ==> FloatsHaveText(ts[i])
    ensures ChargeAll(ts) <= |WriteAll(ts, mapping)|
    ensures (forall i :: 0 <= i < |ts| ==> NoNumbers(ts[i])) ==> ChargeAll(ts) == |WriteAll(ts, mapping)|
    decreases ts
  {
    hide Charge, Write, NoNumbers, FloatsHaveText;
    if ts != [] {
      AllChargedAtMostWritten(ts[..|ts| - 1], mapping);
      ChargedAtMostWritten(ts[|ts| - 1]);
    }
  }
}

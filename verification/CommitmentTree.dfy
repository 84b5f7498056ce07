/**
  The typed, length-framed encoding whose hash commits to a request. Text is given as its
  UTF-8 bytes; a float as the decimal that its repr spells; what has no encoding, such as a
  string with a lone surrogate, is `Unsupported`.
*/
module CommitmentTree {
  import opened Wrappers
  import opened CommitmentNumbers

  datatype Json =
    | Null
    | Bool(b: bool)
    | Int(i: int)
    | Float(number: Decimal)
    | Dec(number: Decimal)
    | Str(utf8: seq<byte>)
    | Arr(items: seq<Json>)
    | Obj(members: seq<Member>)
    | Unsupported

  /** An entry of a dictionary, in the dictionary's own order; a name need not be a string. */
  datatype Member = Member(name: Json, value: Json)

  // ----- order of names -----------------------------------------------------------------------

  predicate Before(a: seq<byte>, b: seq<byte>) {
    b != [] && (a == [] || a[0] < b[0] || (a[0] == b[0] && Before(a[1..], b[1..])))
  }

  lemma {:induction false} BeforeOrders(a: seq<byte>, b: seq<byte>)
    ensures Before(a, b) || Before(b, a) || a == b
    ensures !(Before(a, b) && Before(b, a)) && (a == b ==> !Before(a, b))
  {
    if a != [] && b != [] && a[0] == b[0] {
      BeforeOrders(a[1..], b[1..]);
      assert a == [a[0]] + a[1..] && b == [b[0]] + b[1..];
    }
  }

  lemma {:induction false} BeforeTransitive(a: seq<byte>, b: seq<byte>, c: seq<byte>)
    requires Before(a, b) && Before(b, c)
    ensures Before(a, c)
  {
    if a != [] && a[0] == b[0] == c[0] { BeforeTransitive(a[1..], b[1..], c[1..]); }
  }

  function Key(m: Member): seq<byte> { if m.name.Str? then m.name.utf8 else [] }

  function Insert(x: Member, s: seq<Member>): (r: seq<Member>)
    ensures |r| == |s| + 1 && multiset(r) == multiset(s) + multiset{x}
  {
    if s == [] || !Before(Key(s[0]), Key(x)) then [x] + s
    else
      assert s == [s[0]] + s[1..];
      [s[0]] + Insert(x, s[1..])
  }

  function SortMembers(ms: seq<Member>): (r: seq<Member>)
    ensures |r| == |ms| && multiset(r) == multiset(ms)
  {
    if ms == [] then []
    else
      assert ms == [ms[0]] + ms[1..];
      Insert(ms[0], SortMembers(ms[1..]))
  }

  predicate Increasing(s: seq<Member>) { forall i, j :: 0 <= i < j < |s| ==> Before(Key(s[i]), Key(s[j])) }

  predicate DistinctNames(s: seq<Member>) { forall i, j :: 0 <= i < j < |s| ==> Key(s[i]) != Key(s[j]) }

  lemma {:induction false} InsertIncreases(x: Member, s: seq<Member>)
    requires Increasing(s) && forall m :: m in s ==> Key(m) != Key(x)
    ensures Increasing(Insert(x, s))
  {
    if s != [] {
      BeforeOrders(Key(s[0]), Key(x));
      if Before(Key(s[0]), Key(x)) {
        InsertIncreases(x, s[1..]);
        var r := Insert(x, s[1..]);
        forall j | 0 <= j < |r| ensures Before(Key(s[0]), Key(r[j])) {
          assert r[j] in multiset(r);
          if r[j] != x { assert r[j] in s[1..]; }
        }
      } else {
        forall j | 0 <= j < |s| ensures Before(Key(x), Key(s[j])) {
          if j > 0 { BeforeTransitive(Key(x), Key(s[0]), Key(s[j])); }
        }
      }
    }
  }

  lemma {:induction false} SortIncreases(ms: seq<Member>)
    requires DistinctNames(ms)
    ensures Increasing(SortMembers(ms))
  {
    if ms != [] {
      SortIncreases(ms[1..]);
      forall m | m in SortMembers(ms[1..]) ensures Key(m) != Key(ms[0]) {
        assert m in multiset(SortMembers(ms[1..]));
        assert m in ms[1..];
      }
      InsertIncreases(ms[0], SortMembers(ms[1..]));
    }
  }

  lemma SortedMembers(ms: seq<Member>, m: Member)
    ensures m in SortMembers(ms) <==> m in ms
  {
    assert m in SortMembers(ms) <==> m in multiset(SortMembers(ms));
  }

  predicate NamedIn(m: Member, s: seq<Member>) { exists j :: 0 <= j < |s| && Key(s[j]) == Key(m) }

  predicate SameNames(s: seq<Member>, t: seq<Member>) {
    (forall i :: 0 <= i < |s| ==> NamedIn(s[i], t)) && (forall j :: 0 <= j < |t| ==> NamedIn(t[j], s))
  }

  /** An increasing list of names is determined by the set of its names. */
  lemma {:induction false} IncreasingUnique(s: seq<Member>, t: seq<Member>)
    requires Increasing(s) && Increasing(t) && SameNames(s, t)
    ensures |s| == |t| && forall i :: 0 <= i < |s| ==> Key(s[i]) == Key(t[i])
  {
    hide Increasing, SameNames, Key;
    BothEmpty(s, t);
    if s != [] {
      SameFirst(s, t);
      IncreasingUnique(s[1..], t[1..]);
      forall i | 0 <= i < |s| ensures Key(s[i]) == Key(t[i]) {
        if i > 0 { assert s[i] == s[1..][i - 1] && t[i] == t[1..][i - 1]; }
      }
    }
  }

  lemma BothEmpty(s: seq<Member>, t: seq<Member>)
    requires SameNames(s, t)
    ensures s == [] <==> t == []
  {
    assert t != [] ==> NamedIn(t[0], s);
    assert s != [] ==> NamedIn(s[0], t);
  }

  lemma SameFirst(s: seq<Member>, t: seq<Member>)
    requires Increasing(s) && Increasing(t) && SameNames(s, t) && s != [] && t != []
    ensures Key(s[0]) == Key(t[0]) && Increasing(s[1..]) && Increasing(t[1..]) && SameNames(s[1..], t[1..])
  {
    hide Before, NamedIn, Key;
    FirstIsSmallest(s, t);
    FirstIsSmallest(t, s);
    BeforeOrders(Key(s[0]), Key(t[0]));
    TailNames(s, t);
    TailNames(t, s);
  }

  lemma FirstIsSmallest(s: seq<Member>, t: seq<Member>)
    requires Increasing(t) && s != [] && t != [] && NamedIn(s[0], t)
    ensures !Before(Key(s[0]), Key(t[0]))
  {
    var j :| 0 <= j < |t| && Key(t[j]) == Key(s[0]);
    BeforeOrders(Key(t[0]), Key(t[j]));
  }

  lemma TailNames(s: seq<Member>, t: seq<Member>)
    requires Increasing(s) && s != [] && t != [] && Key(s[0]) == Key(t[0])
    requires forall i :: 0 <= i < |s| ==> NamedIn(s[i], t)
    ensures forall i :: 0 <= i < |s[1..]| ==> NamedIn(s[1..][i], t[1..])
  {
    forall i | 0 <= i < |s[1..]| ensures NamedIn(s[1..][i], t[1..]) {
      var m := s[i + 1];
      assert NamedIn(m, t);
      var j :| 0 <= j < |t| && Key(t[j]) == Key(m);
      BeforeOrders(Key(s[0]), Key(m));
      assert Before(Key(s[0]), Key(m));
      assert t[1..][j - 1] == t[j];
    }
  }

  // ----- the encoding -------------------------------------------------------------------------

  /** How many nodes the encoder visits, names included. */
  function Nodes(v: Json): (n: nat)
    ensures n >= 1
    decreases v, 0
  {
    match v
    case Arr(items) => 1 + NodesOfItems(items)
    case Obj(members) => 1 + NodesOfMembers(members)
    case _ => 1
  }

  function NodesOfItems(items: seq<Json>): (n: nat)
    decreases items
  {
    if items == [] then 0 else Nodes(items[0]) + NodesOfItems(items[1..])
  }

  function NodesOfMembers(ms: seq<Member>): nat
    decreases ms
  {
    if ms == [] then 0 else NodesOfMember(ms[0]) + NodesOfMembers(ms[1..])
  }

  function NodesOfMember(m: Member): nat
    decreases m
  {
    Nodes(m.name) + Nodes(m.value)
  }

  lemma {:induction false} InsertNodes(x: Member, s: seq<Member>)
    ensures NodesOfMembers(Insert(x, s)) == NodesOfMember(x) + NodesOfMembers(s)
  {
    var r := Insert(x, s);
    if s == [] || !Before(Key(s[0]), Key(x)) {
      assert r[1..] == s;
    } else {
      InsertNodes(x, s[1..]);
      assert r[1..] == Insert(x, s[1..]);
    }
  }

  lemma {:induction false} SortNodes(ms: seq<Member>)
    ensures NodesOfMembers(SortMembers(ms)) == NodesOfMembers(ms)
  {
    if ms != [] {
      SortNodes(ms[1..]);
      InsertNodes(ms[0], SortMembers(ms[1..]));
    }
  }

  /** Names and values in turn. */
  function Flatten(ms: seq<Member>): (r: seq<Json>)
    ensures NodesOfItems(r) == NodesOfMembers(ms) && |r| == 2 * |ms|
    ensures forall i :: 0 <= i < |ms| ==> r[2 * i] == ms[i].name && r[2 * i + 1] == ms[i].value
  {
    if ms == [] then []
    else
      var r := [ms[0].name, ms[0].value] + Flatten(ms[1..]);
      assert r[1..][1..] == Flatten(ms[1..]);
      r
  }

  /** The children in the order in which they are written. */
  function Kids(v: Json): (cs: seq<Json>)
    ensures NodesOfItems(cs) == Nodes(v) - 1
  {
    match v
    case Arr(items) => items
    case Obj(members) => SortNodes(members); Flatten(SortMembers(members))
    case _ => []
  }

  function Count(n: nat): seq<byte> { Ascii(Text(n)) }

  function Framed(tag: byte, n: nat, content: seq<byte>): seq<byte> { [tag] + (Count(n) + ([COLON] + content)) }

  function Encode(v: Json): seq<byte>
    decreases Nodes(v), 0
  {
    match v
    case Null => [110]
    case Bool(b) => [if b then 116 else 102]
    case Int(i) => IntegerToken(i)
    case Float(d) => if d.Finite? then DecimalToken(d) else []
    case Dec(d) => if d.Finite? then DecimalToken(d) else []
    case Str(utf8) => Framed(115, |utf8|, utf8)
    case Arr(items) => Framed(108, |items|, EncodeAll(Kids(v)) + [SEMICOLON])
    case Obj(members) => Framed(111, |members|, EncodeAll(Kids(v)) + [SEMICOLON])
    case Unsupported => []
  }

  function EncodeAll(cs: seq<Json>): seq<byte>
    decreases NodesOfItems(cs), 1 + |cs|
  {
    if cs == [] then [] else Encode(cs[0]) + EncodeAll(cs[1..])
  }

  const MAX_DEPTH: nat := 32
  const MAX_ITEMS: nat := 128
  const MAX_TEXT_BYTES: nat := 65536
  const MAX_BYTES: nat := 1048576
  const MAX_NODES: nat := 4096

  /** What is checked of one node by itself. */
  predicate NodeAllowed(v: Json, depth: nat) {
    depth <= MAX_DEPTH &&
    match v
    case Int(i) => IntegerAllowed(i)
    case Float(d) => DecimalAllowed(d)
    case Dec(d) => DecimalAllowed(d)
    case Str(utf8) => |utf8| <= MAX_TEXT_BYTES
    case Arr(items) => |items| <= MAX_ITEMS
    case Obj(members) => |members| <= MAX_ITEMS && forall i :: 0 <= i < |members| ==> members[i].name.Str?
    case Unsupported => false
    case _ => true
  }

  predicate Allowed(v: Json, depth: nat)
    decreases Nodes(v), 0
  {
    NodeAllowed(v, depth) && AllAllowed(Kids(v), depth + 1)
  }

  predicate AllAllowed(cs: seq<Json>, depth: nat)
    decreases NodesOfItems(cs), 1 + |cs|
  {
    cs == [] || (Allowed(cs[0], depth) && AllAllowed(cs[1..], depth))
  }

  // ----- what equal commitments mean ----------------------------------------------------------

  /** Names are distinct in every object, as in any dictionary. */
  predicate Proper(v: Json)
    decreases v, 0
  {
    match v
    case Arr(items) => forall i :: 0 <= i < |items| ==> Proper(items[i])
    case Obj(members) => DistinctNames(members) && forall i :: 0 <= i < |members| ==> Proper(members[i].value)
    case _ => true
  }

  predicate IsDecimal(v: Json) { v.Float? || v.Dec? }

  /** The same typed tree up to the order of members and the spelling of decimals. */
  ghost predicate Equivalent(a: Json, b: Json)
    decreases a
  {
    match a
    case Arr(items) =>
      b.Arr? && |items| == |b.items| && forall i :: 0 <= i < |items| ==> Equivalent(items[i], b.items[i])
    case Obj(members) =>
      b.Obj? && SameNames(members, b.members) &&
      forall i, j :: 0 <= i < |members| && 0 <= j < |b.members| && Key(members[i]) == Key(b.members[j]) ==>
        Equivalent(members[i].value, b.members[j].value)
    case _ => if IsDecimal(a) then IsDecimal(b) && SameDecimal(a.number, b.number) else a == b
  }
}

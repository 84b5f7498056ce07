/** Two accepted values have the same encoding exactly when they are equivalent; no encoding begins another. */
module CommitmentTheorems {
  import opened Wrappers
  import opened CommitmentNumbers
  import opened CommitmentTree

  ghost predicate AllProper(cs: seq<Json>) { forall i :: 0 <= i < |cs| ==> Proper(cs[i]) }

  ghost predicate AllEquivalent(cs: seq<Json>, ds: seq<Json>) {
    |cs| == |ds| && forall i :: 0 <= i < |cs| ==> Equivalent(cs[i], ds[i])
  }

  // ----- framing ------------------------------------------------------------------------------

  lemma FramedUnique(tag: byte, n: nat, x: seq<byte>, m: nat, y: seq<byte>)
    requires Framed(tag, n, x) == Framed(tag, m, y)
    ensures n == m && x == y
  {
    hide Ascii, Text;
    CoefficientText(Text(n));
    CoefficientText(Text(m));
    assert Framed(tag, n, x)[1..] == Count(n) + ([COLON] + x);
    assert Framed(tag, m, y)[1..] == Count(m) + ([COLON] + y);
    UpToStop(Count(n), x, Count(m), y, COLON);
    AsciiInjective(Text(n), Text(m));
    TextValue(n);
    TextValue(m);
  }

  lemma FramedThen(tag: byte, n: nat, x: seq<byte>, rest: seq<byte>)
    ensures Framed(tag, n, x) + rest == Framed(tag, n, x + rest)
    ensures Framed(tag, n, x + [SEMICOLON]) + rest == Framed(tag, n, x + ([SEMICOLON] + rest))
  {
    hide Ascii, Text;
    assert Framed(tag, n, x) + rest == Framed(tag, n, x + rest);
    assert x + [SEMICOLON] + rest == x + ([SEMICOLON] + rest);
  }

  /** The first byte of an encoding. */
  function Tag(v: Json): byte {
    match v
    case Null => 110
    case Bool(b) => if b then 116 else 102
    case Int(_) => 105
    case Float(_) => 100
    case Dec(_) => 100
    case Str(_) => 115
    case Arr(_) => 108
    case Obj(_) => 111
    case Unsupported => 0
  }

  lemma EncodingTagged(v: Json, depth: nat)
    requires NodeAllowed(v, depth)
    ensures Encode(v) != [] && Encode(v)[0] == Tag(v)
  {
    hide EncodeAll, NormalForm, IntegerText, Count, Ascii;
  }

  // ----- children -----------------------------------------------------------------------------

  lemma ProperMember(v: Json, depth: nat, p: nat)
    requires v.Obj? && Proper(v) && NodeAllowed(v, depth) && p < |v.members|
    ensures Proper(SortMembers(v.members)[p].name) && Proper(SortMembers(v.members)[p].value)
  {
    hide SortMembers, DistinctNames;
    var i := UnsortedAt(v.members, p);
  }

  lemma ProperKids(v: Json, depth: nat)
    requires Proper(v) && NodeAllowed(v, depth)
    ensures AllProper(Kids(v))
  {
    if v.Obj? {
      forall i | 0 <= i < |Kids(v)| ensures Proper(Kids(v)[i]) {
        hide Proper, NodeAllowed, SortMembers, Flatten;
        ProperMember(v, depth, i / 2);
        assert i == 2 * (i / 2) || i == 2 * (i / 2) + 1;
      }
    }
  }

  lemma SortedAt(ms: seq<Member>, i: nat) returns (p: nat)
    requires i < |ms|
    ensures p < |SortMembers(ms)| && SortMembers(ms)[p] == ms[i]
  {
    SortedMembers(ms, ms[i]);
    assert ms[i] in ms;
    p :| 0 <= p < |SortMembers(ms)| && SortMembers(ms)[p] == ms[i];
  }

  lemma UnsortedAt(ms: seq<Member>, p: nat) returns (i: nat)
    requires p < |ms|
    ensures i < |ms| && ms[i] == SortMembers(ms)[p]
  {
    SortedMembers(ms, SortMembers(ms)[p]);
    assert SortMembers(ms)[p] in SortMembers(ms);
    i :| 0 <= i < |ms| && ms[i] == SortMembers(ms)[p];
  }

  ghost predicate SameEntries(s: seq<Member>, t: seq<Member>) {
    |s| == |t| && forall p :: 0 <= p < |s| ==> SameEntry(s[p], t[p])
  }

  ghost predicate SameEntry(m: Member, n: Member) { Key(m) == Key(n) && Equivalent(m.value, n.value) }

  predicate StringNames(ms: seq<Member>) { forall i :: 0 <= i < |ms| ==> ms[i].name.Str? }

  predicate SameKeys(s: seq<Member>, t: seq<Member>) {
    |s| == |t| && forall p :: 0 <= p < |s| ==> Key(s[p]) == Key(t[p])
  }

  lemma EntryKeys(s: seq<Member>, t: seq<Member>)
    requires SameEntries(s, t)
    ensures SameKeys(s, t) && SameKeys(t, s)
  {
    hide Equivalent, Key;
    forall p | 0 <= p < |s| ensures Key(s[p]) == Key(t[p]) { assert SameEntry(s[p], t[p]); }
  }

  lemma NameFound(s: seq<Member>, t: seq<Member>, i: nat)
    requires SameKeys(SortMembers(s), SortMembers(t)) && i < |s|
    ensures NamedIn(s[i], t)
  {
    hide SortMembers, Key;
    var p := SortedAt(s, i);
    var j := UnsortedAt(t, p);
  }

  lemma NamesOf(s: seq<Member>, t: seq<Member>)
    requires SameKeys(SortMembers(s), SortMembers(t))
    ensures forall i :: 0 <= i < |s| ==> NamedIn(s[i], t)
  {
    hide *;
    forall i | 0 <= i < |s| ensures NamedIn(s[i], t) { NameFound(s, t, i); }
  }

  lemma IncreasingInjective(t: seq<Member>, p: nat, q: nat)
    requires Increasing(t) && p < |t| && q < |t| && p != q
    ensures Key(t[p]) != Key(t[q])
  {
    BeforeOrders(Key(t[p]), Key(t[q]));
  }

  lemma EntryEquivalent(a: Json, b: Json, i: nat, j: nat)
    requires a.Obj? && b.Obj? && Increasing(SortMembers(b.members))
    requires SameEntries(SortMembers(a.members), SortMembers(b.members))
    requires i < |a.members| && j < |b.members| && Key(a.members[i]) == Key(b.members[j])
    ensures Equivalent(a.members[i].value, b.members[j].value)
  {
    hide SortMembers, Increasing, Key, Equivalent;
    var s, t := SortMembers(a.members), SortMembers(b.members);
    var p := SortedAt(a.members, i);
    var q := SortedAt(b.members, j);
    assert SameEntry(s[p], t[p]);
    if p != q { IncreasingInjective(t, p, q); }
  }

  /** Objects whose sorted members agree are equivalent. */
  lemma EntriesEquivalent(a: Json, b: Json)
    requires a.Obj? && b.Obj? && DistinctNames(a.members) && DistinctNames(b.members)
    requires SameEntries(SortMembers(a.members), SortMembers(b.members))
    ensures Equivalent(a, b)
  {
    hide SortMembers, SameEntries, SameKeys, Key, NamedIn, DistinctNames, Increasing;
    EntryKeys(SortMembers(a.members), SortMembers(b.members));
    NamesOf(a.members, b.members);
    NamesOf(b.members, a.members);
    SortIncreases(b.members);
    forall i, j | 0 <= i < |a.members| && 0 <= j < |b.members| && Key(a.members[i]) == Key(b.members[j])
      ensures Equivalent(a.members[i].value, b.members[j].value)
    {
      EntryEquivalent(a, b, i, j);
    }
  }

  lemma SortedNamesIn(s: seq<Member>, t: seq<Member>)
    requires forall i :: 0 <= i < |s| ==> NamedIn(s[i], t)
    ensures forall p :: 0 <= p < |SortMembers(s)| ==> NamedIn(SortMembers(s)[p], SortMembers(t))
  {
    hide SortMembers;
    forall p | 0 <= p < |SortMembers(s)| ensures NamedIn(SortMembers(s)[p], SortMembers(t)) {
      var i := UnsortedAt(s, p);
      assert NamedIn(s[i], t);
      var j :| 0 <= j < |t| && Key(t[j]) == Key(s[i]);
      var q := SortedAt(t, j);
    }
  }

  /** Equivalent objects agree entry by entry once sorted, whatever their own order. */
  lemma EquivalentEntries(a: Json, b: Json)
    requires a.Obj? && b.Obj? && DistinctNames(a.members) && DistinctNames(b.members) && Equivalent(a, b)
    ensures SameEntries(SortMembers(a.members), SortMembers(b.members))
  {
    hide SortMembers, NamedIn, Increasing, DistinctNames, Key;
    var s, t := SortMembers(a.members), SortMembers(b.members);
    SortIncreases(a.members);
    SortIncreases(b.members);
    SortedNamesIn(a.members, b.members);
    SortedNamesIn(b.members, a.members);
    IncreasingUnique(s, t);
    forall p | 0 <= p < |s| ensures SameEntry(s[p], t[p]) {
      var i := UnsortedAt(a.members, p);
      var j := UnsortedAt(b.members, p);
    }
  }

  lemma EntriesAndKids(s: seq<Member>, t: seq<Member>)
    requires StringNames(s) && StringNames(t)
    ensures SameEntries(s, t) <==> AllEquivalent(Flatten(s), Flatten(t))
  {
    var f, g := Flatten(s), Flatten(t);
    if SameEntries(s, t) {
      forall i | 0 <= i < |f| ensures Equivalent(f[i], g[i]) {
        assert SameEntry(s[i / 2], t[i / 2]);
        assert i == 2 * (i / 2) || i == 2 * (i / 2) + 1;
      }
    }
    if AllEquivalent(f, g) {
      forall p | 0 <= p < |s| ensures SameEntry(s[p], t[p]) {
        assert Equivalent(f[2 * p], g[2 * p]) && Equivalent(f[2 * p + 1], g[2 * p + 1]);
      }
    }
  }

  lemma SortedStringNames(ms: seq<Member>)
    requires StringNames(ms)
    ensures StringNames(SortMembers(ms))
  {
    hide SortMembers;
    forall p | 0 <= p < |SortMembers(ms)| ensures SortMembers(ms)[p].name.Str? {
      var i := UnsortedAt(ms, p);
    }
  }

  /** Equivalence of containers of one kind is equivalence of what they write. */
  lemma EquivalentIffKids(a: Json, b: Json, da: nat, db: nat)
    requires NodeAllowed(a, da) && NodeAllowed(b, db) && Proper(a) && Proper(b)
    requires (a.Arr? && b.Arr?) || (a.Obj? && b.Obj?)
    ensures Equivalent(a, b) <==> AllEquivalent(Kids(a), Kids(b))
  {
    if a.Obj? {
      hide Equivalent, SortMembers, Flatten;
      SortedStringNames(a.members);
      SortedStringNames(b.members);
      EntriesAndKids(SortMembers(a.members), SortMembers(b.members));
      if Equivalent(a, b) { EquivalentEntries(a, b); }
      if AllEquivalent(Kids(a), Kids(b)) { EntriesEquivalent(a, b); }
    }
  }

  // ----- the theorem --------------------------------------------------------------------------

  /** What a container writes, followed by more. */
  lemma ContainerThen(v: Json, rest: seq<byte>)
    requires v.Arr? || v.Obj?
    ensures var n := if v.Arr? then |v.items| else |v.members|;
            Encode(v) + rest == Framed(Tag(v), n, EncodeAll(Kids(v)) + ([SEMICOLON] + rest)) &&
            |Kids(v)| == if v.Arr? then n else 2 * n
  {
    hide EncodeAll, Framed;
    FramedThen(Tag(v), if v.Arr? then |v.items| else |v.members|, EncodeAll(Kids(v)), rest);
  }

  lemma AllEquivalentCons(cs: seq<Json>, ds: seq<Json>)
    requires cs != [] && ds != [] && Equivalent(cs[0], ds[0]) && AllEquivalent(cs[1..], ds[1..])
    ensures AllEquivalent(cs, ds)
  {
    hide Equivalent;
    forall i | 0 <= i < |cs| ensures Equivalent(cs[i], ds[i]) {
      if i > 0 { assert Equivalent(cs[1..][i - 1], ds[1..][i - 1]); }
    }
  }

  lemma FirstOfAll(cs: seq<Json>, rest: seq<byte>)
    requires cs != []
    ensures EncodeAll(cs) + rest == Encode(cs[0]) + (EncodeAll(cs[1..]) + rest)
    ensures NodesOfItems(cs) == Nodes(cs[0]) + NodesOfItems(cs[1..])
  {
    hide Encode;
  }

  lemma AllAllowedAt(cs: seq<Json>, depth: nat)
    requires cs != [] && AllAllowed(cs, depth)
    ensures Allowed(cs[0], depth) && AllAllowed(cs[1..], depth)
  {
  }

  /** From equal streams back to equivalent values, and to equal rests: nothing is lost and nothing runs over. */
  lemma {:induction false} EncodingUnique(a: Json, restA: seq<byte>, b: Json, restB: seq<byte>, da: nat, db: nat)
    requires Allowed(a, da) && Allowed(b, db) && Proper(a) && Proper(b)
    requires Encode(a) + restA == Encode(b) + restB
    ensures Equivalent(a, b) && restA == restB
    decreases Nodes(a), 0
  {
    EncodingTagged(a, da);
    EncodingTagged(b, db);
    assert (Encode(a) + restA)[0] == Tag(a) && (Encode(b) + restB)[0] == Tag(b);
    if a.Arr? || a.Obj? {
      hide Encode, EncodeAll, Equivalent, Proper, NodeAllowed, Framed;
      ContainerThen(a, restA);
      ContainerThen(b, restB);
      var n, m := if a.Arr? then |a.items| else |a.members|, if b.Arr? then |b.items| else |b.members|;
      FramedUnique(Tag(a), n, EncodeAll(Kids(a)) + ([SEMICOLON] + restA), m,
        EncodeAll(Kids(b)) + ([SEMICOLON] + restB));
      ProperKids(a, da);
      ProperKids(b, db);
      AllUnique(Kids(a), [SEMICOLON] + restA, Kids(b), [SEMICOLON] + restB, da + 1, db + 1);
      EquivalentIffKids(a, b, da, db);
      assert ([SEMICOLON] + restA)[1..] == restA && ([SEMICOLON] + restB)[1..] == restB;
    } else {
      LeafUnique(a, restA, b, restB, da, db);
    }
  }

  lemma LeafUnique(a: Json, restA: seq<byte>, b: Json, restB: seq<byte>, da: nat, db: nat)
    requires NodeAllowed(a, da) && NodeAllowed(b, db) && !a.Arr? && !a.Obj? && Tag(a) == Tag(b)
    requires Encode(a) + restA == Encode(b) + restB
    ensures Equivalent(a, b) && restA == restB
  {
    hide DecimalToken, IntegerToken, Framed, SameDecimal;
    match a
    case Int(i) => IntegerTokenPrefix(i, restA, b.i, restB);
    case Str(utf8) =>
      FramedThen(115, |utf8|, utf8, restA);
      FramedThen(115, |b.utf8|, b.utf8, restB);
      FramedUnique(115, |utf8|, utf8 + restA, |b.utf8|, b.utf8 + restB);
      assert (utf8 + restA)[..|utf8|] == utf8 && (b.utf8 + restB)[..|utf8|] == b.utf8;
      assert (utf8 + restA)[|utf8|..] == restA && (b.utf8 + restB)[|utf8|..] == restB;
    case Float(d) => DecimalTokenIff(d, restA, b.number, restB);
    case Dec(d) => DecimalTokenIff(d, restA, b.number, restB);
    case Null => assert (Encode(a) + restA)[1..] == restA && (Encode(b) + restB)[1..] == restB;
    case Bool(_) => assert (Encode(a) + restA)[1..] == restA && (Encode(b) + restB)[1..] == restB;
    case Unsupported =>
  }

  lemma {:induction false} AllUnique(cs: seq<Json>, restC: seq<byte>, ds: seq<Json>, restD: seq<byte>, dc: nat, dd: nat)
    requires AllAllowed(cs, dc) && AllAllowed(ds, dd) && AllProper(cs) && AllProper(ds) && |cs| == |ds|
    requires EncodeAll(cs) + restC == EncodeAll(ds) + restD
    ensures AllEquivalent(cs, ds) && restC == restD
    decreases NodesOfItems(cs), 1 + |cs|
  {
    if cs == [] {
      assert EncodeAll(cs) + restC == restC && EncodeAll(ds) + restD == restD;
    } else {
      hide Encode, EncodeAll, Equivalent, Proper, Allowed, AllAllowed, AllEquivalent;
      FirstOfAll(cs, restC);
      FirstOfAll(ds, restD);
      AllAllowedAt(cs, dc);
      AllAllowedAt(ds, dd);
      EncodingUnique(cs[0], EncodeAll(cs[1..]) + restC, ds[0], EncodeAll(ds[1..]) + restD, dc, dd);
      AllUnique(cs[1..], restC, ds[1..], restD, dc, dd);
      AllEquivalentCons(cs, ds);
    }
  }

  /** Equivalent values are written alike. */
  lemma {:induction false} EquivalentEncodes(a: Json, b: Json, da: nat, db: nat)
    requires Allowed(a, da) && Allowed(b, db) && Proper(a) && Proper(b) && Equivalent(a, b)
    ensures Encode(a) == Encode(b)
    decreases Nodes(a), 0
  {
    if a.Arr? || a.Obj? {
      ContainerThen(a, []);
      ContainerThen(b, []);
      assert Encode(a) + [] == Encode(a) && Encode(b) + [] == Encode(b);
      hide Encode, EncodeAll, Equivalent, Proper, NodeAllowed, Framed;
      SameKind(a, b);
      EquivalentIffKids(a, b, da, db);
      ProperKids(a, da);
      ProperKids(b, db);
      AllEquivalentEncode(Kids(a), Kids(b), da + 1, db + 1);
    } else if IsDecimal(a) {
      DecimalTokenIff(a.number, [], b.number, []);
      assert DecimalToken(a.number) + [] == DecimalToken(a.number) &&
        DecimalToken(b.number) + [] == DecimalToken(b.number);
    }
  }

  lemma SameKind(a: Json, b: Json)
    requires Equivalent(a, b)
    ensures (a.Arr? <==> b.Arr?) && (a.Obj? <==> b.Obj?) && Tag(a) == Tag(b)
  {
  }

  lemma {:induction false} AllEquivalentEncode(cs: seq<Json>, ds: seq<Json>, dc: nat, dd: nat)
    requires AllAllowed(cs, dc) && AllAllowed(ds, dd) && AllProper(cs) && AllProper(ds) && AllEquivalent(cs, ds)
    ensures EncodeAll(cs) == EncodeAll(ds)
    decreases NodesOfItems(cs), 1 + |cs|
  {
    if cs != [] {
      hide Encode, Equivalent, Proper, Allowed;
      AllAllowedAt(cs, dc);
      AllAllowedAt(ds, dd);
      EquivalentEncodes(cs[0], ds[0], dc, dd);
      AllEquivalentEncode(cs[1..], ds[1..], dc, dd);
    }
  }

  /** The commitment means the value, and only the value. */
  lemma EncodingIff(a: Json, restA: seq<byte>, b: Json, restB: seq<byte>)
    requires Allowed(a, 0) && Allowed(b, 0) && Proper(a) && Proper(b)
    ensures Encode(a) + restA == Encode(b) + restB <==> Equivalent(a, b) && restA == restB
  {
    hide *;
    if Encode(a) + restA == Encode(b) + restB { EncodingUnique(a, restA, b, restB, 0, 0); }
    if Equivalent(a, b) { EquivalentEncodes(a, b, 0, 0); }
  }
}

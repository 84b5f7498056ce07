/** The bytes fed to the hash for a value: written node by node under running limits. */
module RequestCommitment {
  import opened Wrappers
  import opened CommitmentNumbers
  import opened CommitmentTree
  import CommitmentTheorems

  function Bytes(s: string): (r: seq<byte>)
    ensures |r| == |s|
  {
    seq(|s|, i requires 0 <= i < |s| => if s[i] < 128 as char then s[i] as int as byte else 0)
  }

  const PREFIX: seq<byte> := Bytes("ordin.authority-json.v1") + [0]

  predicate WithinLimits(v: Json, depth: nat, total: nat, nodes: nat) {
    Allowed(v, depth) && total + |Encode(v)| <= MAX_BYTES && nodes + Nodes(v) <= MAX_NODES
  }

  /** What is hashed for a value, if it is accepted. */
  function Commit(v: Json): Option<seq<byte>> {
    if WithinLimits(v, 0, 0, 0) then Some(PREFIX + Encode(v)) else None
  }

  /** Equal commitments, equivalent values. */
  lemma CommitIff(a: Json, b: Json)
    requires Commit(a).Some? && Commit(b).Some? && Proper(a) && Proper(b)
    ensures Commit(a) == Commit(b) <==> Equivalent(a, b)
  {
    hide Allowed, Encode, Equivalent, Proper, PREFIX;
    CommitmentTheorems.EncodingIff(a, [], b, []);
    assert Encode(a) + [] == Encode(a) && Encode(b) + [] == Encode(b);
    assert (PREFIX + Encode(a))[|PREFIX|..] == Encode(a) && (PREFIX + Encode(b))[|PREFIX|..] == Encode(b);
  }

  /** The opening of a node's encoding; containers go on with their children and a semicolon. */
  function Opening(v: Json): seq<byte> {
    match v
    case Arr(items) => Framed(108, |items|, [])
    case Obj(members) => Framed(111, |members|, [])
    case _ => Encode(v)
  }

  lemma EncodingParts(v: Json)
    ensures Encode(v) == Opening(v) + (if v.Arr? || v.Obj? then EncodeAll(Kids(v)) + [SEMICOLON] else [])
    ensures Nodes(v) == 1 + NodesOfItems(Kids(v))
    ensures !v.Arr? && !v.Obj? ==> Kids(v) == []
  {
    hide EncodeAll, Ascii, Text;
  }

  lemma AllowedParts(v: Json, depth: nat)
    ensures Allowed(v, depth) <==> NodeAllowed(v, depth) && AllAllowed(Kids(v), depth + 1)
    ensures AllAllowed([], depth) && EncodeAll([]) == [] && NodesOfItems([]) == 0
  {
  }

  lemma FirstKid(cs: seq<Json>, i: nat, depth: nat)
    requires i < |cs|
    ensures EncodeAll(cs[i..]) == Encode(cs[i]) + EncodeAll(cs[i + 1..])
    ensures NodesOfItems(cs[i..]) == Nodes(cs[i]) + NodesOfItems(cs[i + 1..])
    ensures AllAllowed(cs[i..], depth) <==> Allowed(cs[i], depth) && AllAllowed(cs[i + 1..], depth)
  {
    hide Encode, Nodes, Allowed;
    assert cs[i..][0] == cs[i] && cs[i..][1..] == cs[i + 1..];
  }

  /** The children are smaller than their parent, so the walk ends. */
  lemma {:induction false} KidSmaller(cs: seq<Json>, i: nat)
    requires i < |cs|
    ensures Nodes(cs[i]) <= NodesOfItems(cs)
    decreases |cs|
  {
    if i > 0 { KidSmaller(cs[1..], i - 1); }
  }

  class Committer {
    var stream: seq<byte>
    var total: nat
    var nodes: nat

    constructor ()
      ensures stream == PREFIX && total == 0 && nodes == 0
    {
      stream, total, nodes := PREFIX, 0, 0;
    }

    predicate Valid()
      reads this
    {
      total <= MAX_BYTES && nodes <= MAX_NODES
    }

    method Write(data: seq<byte>) returns (ok: bool)
      modifies this`stream, this`total
      ensures total == old(total) + |data| && ok == (total <= MAX_BYTES)
      ensures ok ==> stream == old(stream) + data
    {
      total := total + |data|;
      if total > MAX_BYTES { return false; }
      stream := stream + data;
      return true;
    }

    /** Checks one node and writes its opening. */
    method Open(v: Json, depth: nat) returns (ok: bool)
      requires Valid()
      modifies this
      ensures ok <==> NodeAllowed(v, depth) && old(total) + |Opening(v)| <= MAX_BYTES && old(nodes) + 1 <= MAX_NODES
      ensures ok ==> Valid() && stream == old(stream) + Opening(v) && total == old(total) + |Opening(v)| &&
                     nodes == old(nodes) + 1
    {
      hide NormalForm, IntegerText, Kids, EncodeAll, Ascii, Text;
      nodes := nodes + 1;
      if nodes > MAX_NODES || depth > MAX_DEPTH { return false; }
      match v {
        case Null => ok := Write([110]);
        case Bool(b) => ok := Write([if b then 116 else 102]);
        case Int(i) =>
          if !IntegerAllowed(i) { return false; }
          ok := Write(IntegerToken(i));
        case Float(d) => ok := OpenDecimal(d);
        case Dec(d) => ok := OpenDecimal(d);
        case Str(utf8) =>
          if |utf8| > MAX_TEXT_BYTES { return false; }
          ok := Write(Framed(115, |utf8|, utf8));
        case Arr(items) =>
          if |items| > MAX_ITEMS { return false; }
          ok := Write(Framed(108, |items|, []));
        case Obj(members) =>
          if |members| > MAX_ITEMS { return false; }
          if exists i :: 0 <= i < |members| && !members[i].name.Str? { return false; }
          ok := Write(Framed(111, |members|, []));
        case Unsupported => return false;
      }
    }

    method OpenDecimal(d: Decimal) returns (ok: bool)
      requires Valid()
      modifies this`stream, this`total
      ensures ok <==> DecimalAllowed(d) && old(total) + |DecimalToken(d)| <= MAX_BYTES
      ensures ok ==> Valid() && stream == old(stream) + DecimalToken(d) && total == old(total) + |DecimalToken(d)|
    {
      hide DecimalToken, NormalForm;
      var token := WriteDecimal(d);
      if token.None? { return false; }
      ok := Write(token.value);
    }

    /** Accepts a value exactly when the limits allow it, and then appends its encoding. */
    method Walk(v: Json, depth: nat) returns (ok: bool)
      requires Valid()
      modifies this
      ensures ok <==> WithinLimits(v, depth, old(total), old(nodes))
      ensures ok ==> Valid() && stream == old(stream) + Encode(v) && total == old(total) + |Encode(v)| &&
                     nodes == old(nodes) + Nodes(v)
      decreases Nodes(v)
    {
      hide Encode, EncodeAll, Opening, NodeAllowed, Allowed, AllAllowed, Nodes, NodesOfItems, Kids;
      EncodingParts(v);
      AllowedParts(v, depth);
      AllowedParts(v, depth + 1);
      ok := Open(v, depth);
      if !ok { return; }
      if v.Arr? || v.Obj? {
        var kids := Kids(v);
        ghost var start, all := stream, EncodeAll(kids);
        var i := 0;
        assert kids[0..] == kids;
        while i < |kids|
          invariant i <= |kids| && Valid()
          invariant stream + EncodeAll(kids[i..]) == start + all &&
                    total + |EncodeAll(kids[i..])| == |all| + |Opening(v)| + old(total)
          invariant nodes + NodesOfItems(kids[i..]) == old(nodes) + Nodes(v)
          invariant AllAllowed(kids[i..], depth + 1) <==> AllAllowed(kids, depth + 1)
        {
          FirstKid(kids, i, depth + 1);
          KidSmaller(kids, i);
          ghost var before := stream;
          ok := Walk(kids[i], depth + 1);
          if !ok { return; }
          assert before + (Encode(kids[i]) + EncodeAll(kids[i + 1..])) == stream + EncodeAll(kids[i + 1..]);
          i := i + 1;
        }
        assert kids[i..] == [] && stream + [] == stream;
        ghost var closing := [SEMICOLON];
        assert old(stream) + Opening(v) + all + closing == old(stream) + (Opening(v) + (all + closing));
        ok := Write([SEMICOLON]);
      } else {
        assert Opening(v) + [] == Opening(v);
      }
    }
  }

  method RequestBytes(v: Json) returns (r: Option<seq<byte>>)
    ensures r == Commit(v)
  {
    hide Encode, Allowed, Nodes;
    var committer := new Committer();
    var ok := committer.Walk(v, 0);
    return if ok then Some(committer.stream) else None;
  }
}

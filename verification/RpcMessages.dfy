/**
  Which JSON-RPC bodies are committed to: those made of messages as they are written here,
  member by member (JSON-RPC 2.0, section 4), in any order of members.
*/
module RpcMessages {
  import opened Wrappers
  import opened CommitmentTree
  import opened RequestCommitment
  import opened RpcCommitment
  import JsonText

  // ----- procedure names ----------------------------------------------------------------------

  /** A character of a procedure name: visible, and not an asterisk. */
  predicate NameCharacter(c: JsonText.CodePoint) { JsonText.ScalarValue(c) && c > 32 && c != 127 && c != 42 }

  function Encoded(cs: seq<JsonText.CodePoint>): seq<byte> {
    if cs == [] then [] else JsonText.Utf8(cs[0]) + Encoded(cs[1..])
  }

  /** The bytes are the UTF-8 encoding of some text. */
  ghost predicate IsText(utf8: seq<byte>) { exists cs :: JsonText.ScalarValues(cs) && utf8 == Encoded(cs) }

  lemma {:induction false} CharactersBoth(a: seq<byte>, b: seq<byte>)
    ensures Characters(a + b) == Characters(a) + Characters(b)
  {
    if a == [] {
      assert a + b == b;
    } else {
      assert (a + b)[1..] == a[1..] + b;
      CharactersBoth(a[1..], b);
    }
  }

  predicate Tail(s: seq<byte>) { forall i :: 0 <= i < |s| ==> 128 <= s[i] < 192 }

  lemma {:induction false} TailHasNone(s: seq<byte>)
    requires Tail(s)
    ensures Characters(s) == 0
  {
    if s != [] { TailHasNone(s[1..]); }
  }

  lemma OneCharacter(c: JsonText.CodePoint)
    ensures Characters(JsonText.Utf8(c)) == 1
    ensures c >= 128 ==> forall i :: 0 <= i < |JsonText.Utf8(c)| ==> JsonText.Utf8(c)[i] >= 128
    ensures c < 128 ==> JsonText.Utf8(c) == [c as byte]
  {
    var u := JsonText.Utf8(c);
    assert Tail(u[1..]) && !(128 <= u[0] < 192);
    TailHasNone(u[1..]);
    hide JsonText.Utf8;
    assert u == [u[0]] + u[1..];
  }

  predicate Allowed(b: byte) { b > 32 && b !in {127, 42} }

  /** Characters are counted, and refused bytes are those of refused characters. */
  lemma {:induction false} EncodedName(cs: seq<JsonText.CodePoint>)
    requires JsonText.ScalarValues(cs)
    ensures Characters(Encoded(cs)) == |cs|
    ensures (forall i :: 0 <= i < |Encoded(cs)| ==> Allowed(Encoded(cs)[i])) <==>
            forall i :: 0 <= i < |cs| ==> NameCharacter(cs[i])
  {
    if cs != [] {
      hide Characters;
      var first, rest := JsonText.Utf8(cs[0]), Encoded(cs[1..]);
      EncodedName(cs[1..]);
      OneCharacter(cs[0]);
      CharactersBoth(first, rest);
      AllBoth(first, rest);
      assert cs == [cs[0]] + cs[1..];
      FirstAllowed(cs[0]);
    }
  }

  lemma FirstAllowed(c: JsonText.CodePoint)
    requires JsonText.ScalarValue(c)
    ensures (forall i :: 0 <= i < |JsonText.Utf8(c)| ==> Allowed(JsonText.Utf8(c)[i])) <==> NameCharacter(c)
  {
    OneCharacter(c);
    assert c < 128 ==> JsonText.Utf8(c)[0] == c as byte;
  }

  lemma AllBoth(a: seq<byte>, b: seq<byte>)
    ensures (forall i :: 0 <= i < |a + b| ==> Allowed((a + b)[i])) <==>
            (forall i :: 0 <= i < |a| ==> Allowed(a[i])) && (forall i :: 0 <= i < |b| ==> Allowed(b[i]))
  {
    hide Allowed;
    assert forall i :: 0 <= i < |a| ==> (a + b)[i] == a[i];
    forall i | 0 <= i < |b| ensures (a + b)[|a| + i] == b[i] {}
    if forall i :: 0 <= i < |a + b| ==> Allowed((a + b)[i]) {
      forall i | 0 <= i < |b| ensures Allowed(b[i]) { assert Allowed((a + b)[|a| + i]); }
    }
  }

  // ----- messages -----------------------------------------------------------------------------

  /** A request has an identifier; a notification has none. */
  datatype Message = Message(procedure: seq<JsonText.CodePoint>, id: Option<Json>, params: Option<Json>)

  predicate Correct(m: Message) {
    1 <= |m.procedure| <= MAX_METHOD && (forall i :: 0 <= i < |m.procedure| ==> NameCharacter(m.procedure[i])) &&
    (m.id.Some? ==> m.id.value.Null? || m.id.value.Str? || m.id.value.Int? || m.id.value.Float? || m.id.value.Dec?) &&
    (m.params.Some? ==> m.params.value.Null? || m.params.value.Obj? || m.params.value.Arr?)
  }

  function Optional(name: string, value: Option<Json>): seq<Member> {
    if value.Some? then [Member(Name(name), value.value)] else []
  }

  function WriteMessage(m: Message): seq<Member> {
    [Member(Name("jsonrpc"), Name("2.0")), Member(Name("method"), Str(Encoded(m.procedure)))] +
    Optional("id", m.id) + Optional("params", m.params)
  }

  ghost predicate SameMembers(a: seq<Member>, b: seq<Member>) { forall m :: m in a <==> m in b }

  /** A mapping has each name once. */
  predicate NamedOnce(ms: seq<Member>) { forall i, j :: 0 <= i < j < |ms| ==> ms[i].name != ms[j].name }

  lemma {:induction false} GetIff(ms: seq<Member>, name: Json, value: Json)
    requires NamedOnce(ms)
    ensures Get(ms, name) == Some(value) <==> Member(name, value) in ms
    ensures Get(ms, name).None? <==> forall m :: m in ms ==> m.name != name
  {
    if ms != [] {
      GetIff(ms[1..], name, value);
      assert ms == [ms[0]] + ms[1..];
      if Member(name, value) in ms && ms[0].name == name {
        var i :| 0 <= i < |ms| && ms[i] == Member(name, value);
        assert i == 0;
      }
    }
  }

  lemma NamesDiffer()
    ensures Name("jsonrpc") != Name("method") && Name("jsonrpc") != Name("id") && Name("jsonrpc") != Name("params")
    ensures Name("method") != Name("id") && Name("method") != Name("params") && Name("id") != Name("params")
  {
    assert Bytes("jsonrpc")[0] == 106 && Bytes("method")[0] == 109 && Bytes("id")[0] == 105 &&
      Bytes("params")[0] == 112;
  }

  /** What is written is found under its name, and nothing else is written. */
  lemma WrittenMembers(m: Message)
    ensures forall x :: x in WriteMessage(m) <==>
              x == Member(Name("jsonrpc"), Name("2.0")) || x == Member(Name("method"), Str(Encoded(m.procedure))) ||
              (m.id.Some? && x == Member(Name("id"), m.id.value)) ||
              (m.params.Some? && x == Member(Name("params"), m.params.value))
  {
    hide Name, Encoded;
  }

  ghost predicate TextsValid(ms: seq<Member>) {
    forall i :: 0 <= i < |ms| && ms[i].value.Str? ==> IsText(ms[i].value.utf8)
  }

  lemma MethodIff(cs: seq<JsonText.CodePoint>)
    requires JsonText.ScalarValues(cs)
    ensures MethodAllowed(Some(Str(Encoded(cs)))) <==>
            1 <= |cs| <= MAX_METHOD && forall i :: 0 <= i < |cs| ==> NameCharacter(cs[i])
  {
    EncodedName(cs);
    hide Characters, NameCharacter, Encoded;
    assert forall i :: 0 <= i < |Encoded(cs)| ==> (Allowed(Encoded(cs)[i]) <==>
                       Encoded(cs)[i] > 32 && Encoded(cs)[i] !in {127, 42});
  }

  /** A mapping is accepted as a message exactly if it is written so, in some order, and can be committed to. */
  lemma MessageIff(message: Json)
    requires message.Obj? && NamedOnce(message.members) && TextsValid(message.members)
    ensures IsMessage(message) <==>
            Commit(message).Some? && exists m :: Correct(m) && SameMembers(message.members, WriteMessage(m))
  {
    hide Commit, Name, Bytes, Get, NameCharacter, Encoded, MethodAllowed, IsText, WriteMessage, NamedOnce;
    if IsMessage(message) { var m := AsMessage(message); }
    if Commit(message).Some? && exists m :: Correct(m) && SameMembers(message.members, WriteMessage(m)) {
      var m :| Correct(m) && SameMembers(message.members, WriteMessage(m));
      FromMessage(message, m);
    }
  }

  lemma AsMessage(message: Json) returns (m: Message)
    requires message.Obj? && NamedOnce(message.members) && TextsValid(message.members) && IsMessage(message)
    ensures Correct(m) && SameMembers(message.members, WriteMessage(m))
  {
    hide Commit, Name, Bytes, Get, NameCharacter, Encoded, MethodAllowed, WriteMessage, NamedOnce;
    var ms := message.members;
    ProcedureIsText(ms);
    var procedure := Get(ms, Name("method")).value;
    var cs :| JsonText.ScalarValues(cs) && procedure.utf8 == Encoded(cs);
    MethodIff(cs);
    assert procedure == Str(Encoded(cs));
    m := Message(cs, Get(ms, Name("id")), Get(ms, Name("params")));
    WrittenMembers(m);
    forall x ensures x in ms <==> x in WriteMessage(m) {
      GetIff(ms, x.name, x.value);
      if x in ms {
        var i :| 0 <= i < |ms| && ms[i] == x;
        assert x.name in {Name("jsonrpc"), Name("id"), Name("method"), Name("params")};
      }
    }
  }

  lemma ProcedureIsText(ms: seq<Member>)
    requires NamedOnce(ms) && TextsValid(ms) && MethodAllowed(Get(ms, Name("method")))
    ensures Get(ms, Name("method")).Some? && Get(ms, Name("method")).value.Str? &&
            IsText(Get(ms, Name("method")).value.utf8)
  {
    hide Name, Characters, IsText, NamedOnce;
    var v := Get(ms, Name("method")).value;
    GetIff(ms, Name("method"), v);
    var i :| 0 <= i < |ms| && ms[i] == Member(Name("method"), v);
  }

  lemma FromMessage(message: Json, m: Message)
    requires message.Obj? && NamedOnce(message.members) && Correct(m) && SameMembers(message.members, WriteMessage(m))
    requires Commit(message).Some?
    ensures IsMessage(message)
  {
    hide Commit, Name, Bytes, Get, NameCharacter, Encoded, MethodAllowed, WriteMessage, NamedOnce;
    var ms := message.members;
    NamesDiffer();
    WrittenMembers(m);
    GetIff(ms, Name("jsonrpc"), Name("2.0"));
    GetIff(ms, Name("method"), Str(Encoded(m.procedure)));
    GetIff(ms, Name("id"), if m.id.Some? then m.id.value else Null);
    GetIff(ms, Name("params"), if m.params.Some? then m.params.value else Null);
    CharactersScalar(m);
    MethodIff(m.procedure);
    forall i | 0 <= i < |ms| ensures ms[i].name in {Name("jsonrpc"), Name("id"), Name("method"), Name("params")} {
      assert ms[i] in ms;
    }
    assert m.id.None? ==> Get(ms, Name("id")).None?;
    assert m.params.None? ==> Get(ms, Name("params")).None?;
  }

  lemma CharactersScalar(m: Message)
    requires Correct(m)
    ensures JsonText.ScalarValues(m.procedure)
  {
    assert forall i :: 0 <= i < |m.procedure| ==> NameCharacter(m.procedure[i]);
  }

  /** A body is committed to exactly if it and what it projects to are within the limits, and it is made of messages. */
  lemma BodyIff(body: Json)
    ensures RpcCommit(body).Some? <==>
            Commit(body).Some? &&
            (if body.Arr? then 1 <= |body.items| <= MAX_ITEMS &&
                               forall i :: 0 <= i < |body.items| ==> IsMessage(body.items[i])
             else IsMessage(body)) &&
            Committed(body).Some? && Commit(Committed(body).value).Some?
  {
    hide Commit, IsMessage, AuthorityOf, Projected;
    if body.Arr? { ProjectedItems(body.items); }
  }
}

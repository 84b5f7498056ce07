/**
  Commitments to JSON-RPC bodies: the authority of a message is its kind, method and
  parameters; the transport's correlation id is checked but not committed.
*/
module RpcCommitment {
  import opened Wrappers
  import opened CommitmentTree
  import opened RequestCommitment

  const MAX_METHOD: nat := 128

  function Name(s: string): Json { Str(Bytes(s)) }

  /** `dict.get`, for a string name. */
  function Get(ms: seq<Member>, name: Json): Option<Json> {
    if ms == [] then None else if ms[0].name == name then Some(ms[0].value) else Get(ms[1..], name)
  }

  /** Characters in a text: bytes that do not continue a UTF-8 sequence. */
  function Characters(utf8: seq<byte>): nat {
    if utf8 == [] then 0 else (if 128 <= utf8[0] < 192 then 0 else 1) + Characters(utf8[1..])
  }

  predicate MethodAllowed(procedure: Option<Json>) {
    procedure.Some? && procedure.value.Str? && 1 <= Characters(procedure.value.utf8) <= MAX_METHOD &&
    forall i :: 0 <= i < |procedure.value.utf8| ==> procedure.value.utf8[i] > 32 &&
                                                    procedure.value.utf8[i] !in {127, 42}
  }

  predicate IdAllowed(id: Option<Json>) {
    id.Some? ==> id.value.Null? || id.value.Str? || id.value.Int? || id.value.Float? || id.value.Dec?
  }

  predicate ParamsAllowed(params: Option<Json>) {
    params.Some? ==> params.value.Null? || params.value.Obj? || params.value.Arr?
  }

  predicate OnlyRpcNames(ms: seq<Member>) {
    forall i :: 0 <= i < |ms| ==> ms[i].name in {Name("jsonrpc"), Name("id"), Name("method"), Name("params")}
  }

  predicate IsMessage(message: Json) {
    message.Obj? && OnlyRpcNames(message.members) &&
    Get(message.members, Name("jsonrpc")) == Some(Name("2.0")) &&
    MethodAllowed(Get(message.members, Name("method"))) &&
    IdAllowed(Get(message.members, Name("id"))) &&
    ParamsAllowed(Get(message.members, Name("params"))) &&
    Commit(message).Some?
  }

  datatype Authority = Authority(request: bool, procedure: Json, params: Option<Json>)

  /** What a message asks for, without its correlation id. */
  function AuthorityOf(message: Json): Authority
    requires IsMessage(message)
  {
    Authority(Get(message.members, Name("id")).Some?, Get(message.members, Name("method")).value,
      Get(message.members, Name("params")))
  }

  ghost predicate SameAuthority(a: Authority, b: Authority) {
    a.request == b.request && a.procedure == b.procedure &&
    (a.params.None? <==> b.params.None?) &&
      (a.params.Some? && b.params.Some? ==> Equivalent(a.params.value, b.params.value))
  }

  function Projected(a: Authority): (r: Json)
    ensures r.Obj?
  {
    Obj([Member(Name("kind"), Name(if a.request then "request" else "notification")),
      Member(Name("method"), a.procedure)] +
        if a.params.Some? then [Member(Name("params"), a.params.value)] else [])
  }

  function Project(message: Json): Option<Json> {
    if IsMessage(message) then Some(Projected(AuthorityOf(message))) else None
  }

  function ProjectAll(messages: seq<Json>): Option<seq<Json>> {
    if messages == [] then Some([])
    else
      match (Project(messages[0]), ProjectAll(messages[1..]))
      case (Some(m), Some(rest)) => Some([m] + rest)
      case _ => None
  }

  /** What a whole body commits to: one authority, or the batch of them in order. */
  function RpcCommit(body: Json): Option<seq<byte>> {
    if Commit(body).None? then None
    else if body.Arr? then
      if body.items == [] || |body.items| > MAX_ITEMS then None
      else match ProjectAll(body.items) case Some(all) => Commit(Arr(all)) case None => None
    else match Project(body) case Some(one) => Commit(one) case None => None
  }

  // ----- what equal RPC commitments mean ------------------------------------------------------

  lemma Literals()
    ensures Bytes("kind")[0] == 107 && Bytes("method")[0] == 109 && Bytes("params")[0] == 112
    ensures Bytes("request")[0] == 114 && Bytes("notification")[0] == 110
    ensures |Bytes("kind")| == 4 && |Bytes("method")| == 6 && |Bytes("params")| == 6
  {
  }

  lemma {:induction false} GetProper(ms: seq<Member>, name: Json)
    requires Get(ms, name).Some?
    ensures exists i :: 0 <= i < |ms| && ms[i].value == Get(ms, name).value
  {
    if ms[0].name != name {
      GetProper(ms[1..], name);
      var i :| 0 <= i < |ms[1..]| && ms[1..][i].value == Get(ms, name).value;
      assert ms[i + 1].value == Get(ms, name).value;
    }
  }

  ghost predicate ProperAuthority(a: Authority) {
    a.procedure.Str? && (a.params.Some? ==> Proper(a.params.value))
  }

  lemma AuthorityProper(message: Json)
    requires Proper(message) && IsMessage(message)
    ensures ProperAuthority(AuthorityOf(message))
  {
    hide OnlyRpcNames, Commit, Bytes;
    if Get(message.members, Name("params")).Some? { GetProper(message.members, Name("params")); }
  }

  lemma ProjectedProper(a: Authority)
    requires ProperAuthority(a)
    ensures Proper(Projected(a))
  {
    Literals();
    hide Bytes;
    var ms := Projected(a).members;
    assert Key(ms[0])[0] != Key(ms[1])[0];
    assert |ms| == 3 ==> Key(ms[0])[0] != Key(ms[2])[0] && Key(ms[1])[0] != Key(ms[2])[0];
    assert DistinctNames(ms);
  }

  ghost predicate KeysMatch(s: seq<Member>, t: seq<Member>) {
    |s| == |t| && forall i :: 0 <= i < |s| ==> Key(s[i]) == Key(t[i])
  }

  lemma KeysMatchNames(s: seq<Member>, t: seq<Member>)
    requires KeysMatch(s, t)
    ensures SameNames(s, t)
  {
    hide Key;
    forall i | 0 <= i < |s| ensures NamedIn(s[i], t) && NamedIn(t[i], s) {
      assert Key(s[i]) == Key(t[i]);
    }
  }

  lemma DistinctAt(s: seq<Member>, t: seq<Member>, i: nat, j: nat)
    requires KeysMatch(s, t) && DistinctNames(t) && i < |s| && j < |t| && Key(s[i]) == Key(t[j])
    ensures i == j
  {
    hide Key;
  }

  ghost predicate ValuesMatch(s: seq<Member>, t: seq<Member>) {
    |s| == |t| && forall i :: 0 <= i < |s| ==> Equivalent(s[i].value, t[i].value)
  }

  /** Objects whose names agree position by position are equivalent when their values are. */
  lemma ByPosition(s: seq<Member>, t: seq<Member>)
    requires DistinctNames(t) && KeysMatch(s, t)
    ensures Equivalent(Obj(s), Obj(t)) <==> ValuesMatch(s, t)
  {
    hide SameNames, DistinctNames, Key;
    KeysMatchNames(s, t);
    if Equivalent(Obj(s), Obj(t)) {
      forall i | 0 <= i < |s| ensures Equivalent(s[i].value, t[i].value) {
        assert Key(s[i]) == Key(t[i]);
      }
    }
    hide KeysMatch;
    if ValuesMatch(s, t) {
      forall i, j | 0 <= i < |s| && 0 <= j < |t| && Key(s[i]) == Key(t[j])
        ensures Equivalent(s[i].value, t[j].value)
      {
        DistinctAt(s, t, i, j);
      }
    }
  }

  lemma Shape(a: Authority)
    ensures var s := Projected(a).members;
            |s| == (if a.params.Some? then 3 else 2) &&
              s[0] == Member(Name("kind"), Name(if a.request then "request" else "notification")) &&
            s[1] == Member(Name("method"), a.procedure) &&
              (a.params.Some? ==> s[2] == Member(Name("params"), a.params.value))
  {
    hide Name;
  }

  lemma MissingParams(a: Authority, b: Authority)
    requires a.params.Some? && b.params.None?
    ensures !SameNames(Projected(a).members, Projected(b).members) &&
            !SameNames(Projected(b).members, Projected(a).members)
  {
    hide Projected, Bytes;
    Shape(a);
    Shape(b);
    Literals();
    var s, t := Projected(a).members, Projected(b).members;
    assert Key(s[2])[0] == 112 && Key(t[0])[0] == 107 && Key(t[1])[0] == 109;
    assert !NamedIn(s[2], t);
  }

  lemma ProjectedEquivalent(a: Authority, b: Authority)
    requires ProperAuthority(a) && ProperAuthority(b)
    ensures Equivalent(Projected(a), Projected(b)) <==> SameAuthority(a, b)
  {
    if a.params.Some? && b.params.None? {
      MissingParams(a, b);
    } else if a.params.None? && b.params.Some? {
      MissingParams(b, a);
    } else {
      ProjectedProper(b);
      hide Projected, Bytes, DistinctNames, Equivalent, Key, Proper, KeysMatch;
      Shape(a);
      Shape(b);
      Literals();
      ProjectedKeys(a, b);
      var s, t := Projected(a).members, Projected(b).members;
      ByPosition(s, t);
      TextEquivalent(s[0].value, t[0].value);
      TextEquivalent(s[1].value, t[1].value);
    }
  }

  lemma ProjectedKeys(a: Authority, b: Authority)
    requires a.params.Some? <==> b.params.Some?
    ensures KeysMatch(Projected(a).members, Projected(b).members)
  {
    hide Bytes;
  }

  lemma TextEquivalent(a: Json, b: Json)
    requires a.Str? && b.Str?
    ensures Equivalent(a, b) <==> a == b
  {
  }

  /** The authorities of a body: one for a single message, one each for a batch. */
  ghost predicate Carries(body: Json, authorities: seq<Authority>) {
    if body.Arr? then
      |body.items| == |authorities| &&
      forall i :: 0 <= i < |authorities| ==> IsMessage(body.items[i]) && authorities[i] == AuthorityOf(body.items[i])
    else IsMessage(body) && authorities == [AuthorityOf(body)]
  }

  lemma {:induction false} ProjectedItems(messages: seq<Json>)
    ensures ProjectAll(messages).Some? <==> forall i :: 0 <= i < |messages| ==> IsMessage(messages[i])
    ensures ProjectAll(messages).Some? ==>
              |ProjectAll(messages).value| == |messages| &&
              forall i :: 0 <= i < |messages| ==> IsMessage(messages[i]) &&
                                                  ProjectAll(messages).value[i] == Projected(AuthorityOf(messages[i]))
  {
    hide IsMessage, AuthorityOf, Projected;
    if messages != [] { ProjectedItems(messages[1..]); }
  }

  ghost predicate AllSame(x: seq<Authority>, y: seq<Authority>) {
    |x| == |y| && forall i :: 0 <= i < |x| ==> SameAuthority(x[i], y[i])
  }

  lemma ItemProper(body: Json, i: nat)
    requires Proper(body) && body.Arr? && i < |body.items|
    ensures Proper(body.items[i])
  {
  }

  function Committed(body: Json): Option<Json> {
    if body.Arr? then match ProjectAll(body.items) case Some(all) => Some(Arr(all)) case None => None
    else Project(body)
  }

  lemma CommittedValue(body: Json)
    requires RpcCommit(body).Some?
    ensures Committed(body).Some? && RpcCommit(body) == Commit(Committed(body).value)
  {
    hide Commit, ProjectAll, Project;
  }

  ghost predicate Projections(items: seq<Json>, authorities: seq<Authority>) {
    |items| == |authorities| && forall i :: 0 <= i < |items| ==> items[i] == Projected(authorities[i]) &&
                                                                 ProperAuthority(authorities[i])
  }

  /** A committed value made of these authorities, as a batch or as a single message. */
  ghost predicate MadeOf(batch: bool, v: Json, authorities: seq<Authority>) {
    if batch then v.Arr? && Projections(v.items, authorities)
    else v.Obj? && Projections([v], authorities)
  }

  /** The value that is committed for a body is made of its authorities, in order. */
  lemma CommittedShape(body: Json, authorities: seq<Authority>)
    requires Committed(body).Some? && Carries(body, authorities) && Proper(body)
    ensures Proper(Committed(body).value) && MadeOf(body.Arr?, Committed(body).value, authorities)
  {
    hide IsMessage, AuthorityOf, ProperAuthority, ProjectAll;
    if body.Arr? {
      ProjectedItems(body.items);
      hide Projected;
      forall i | 0 <= i < |authorities| ensures ProperAuthority(authorities[i]) && Proper(Projected(authorities[i])) {
        ItemProper(body, i);
        AuthorityProper(body.items[i]);
        ProjectedProper(authorities[i]);
      }
    } else {
      AuthorityProper(body);
      ProjectedProper(AuthorityOf(body));
    }
  }

  lemma BatchEquivalent(s: seq<Json>, x: seq<Authority>, t: seq<Json>, y: seq<Authority>)
    requires Projections(s, x) && Projections(t, y)
    ensures Equivalent(Arr(s), Arr(t)) <==> AllSame(x, y)
  {
    hide Projected, SameAuthority, ProperAuthority;
    forall i | 0 <= i < |x| && i < |y| ensures Equivalent(s[i], t[i]) <==> SameAuthority(x[i], y[i]) {
      ProjectedEquivalent(x[i], y[i]);
    }
  }

  lemma MadeOfEquivalent(p: bool, v: Json, x: seq<Authority>, q: bool, w: Json, y: seq<Authority>)
    requires MadeOf(p, v, x) && MadeOf(q, w, y)
    ensures Equivalent(v, w) <==> p == q && AllSame(x, y)
  {
    if p && q {
      BatchEquivalent(v.items, x, w.items, y);
    } else if !p && !q {
      BatchEquivalent([v], x, [w], y);
      hide SameAuthority, ProperAuthority, Projected;
      SingleItem(v, w);
    }
  }

  lemma SingleItem(v: Json, w: Json)
    ensures Equivalent(Arr([v]), Arr([w])) <==> Equivalent(v, w)
  {
    assert [v][0] == v && [w][0] == w;
  }

  /** Equal RPC commitments mean the same kind of body carrying the same authorities in the same order. */
  lemma RpcCommitIff(a: Json, x: seq<Authority>, b: Json, y: seq<Authority>)
    requires RpcCommit(a).Some? && RpcCommit(b).Some? && Proper(a) && Proper(b) && Carries(a, x) && Carries(b, y)
    ensures RpcCommit(a) == RpcCommit(b) <==> (a.Arr? <==> b.Arr?) && AllSame(x, y)
  {
    hide *;
    CommittedValue(a);
    CommittedValue(b);
    CommittedShape(a, x);
    CommittedShape(b, y);
    CommitIff(Committed(a).value, Committed(b).value);
    MadeOfEquivalent(a.Arr?, Committed(a).value, x, b.Arr?, Committed(b).value, y);
  }

  /** Every accepted body carries authorities, so the theorem is about every accepted body. */
  lemma AcceptedCarries(body: Json) returns (authorities: seq<Authority>)
    requires RpcCommit(body).Some?
    ensures Carries(body, authorities)
  {
    CommittedValue(body);
    hide IsMessage, Commit;
    if body.Arr? {
      ProjectedItems(body.items);
      authorities := seq(|body.items|, i requires 0 <= i < |body.items| => AuthorityOf(body.items[i]));
    } else {
      authorities := [AuthorityOf(body)];
    }
  }
}

/**
  Exactly which requests are accepted: the converse of what acceptance means, with the
  limits on visits and nesting stated as counts over the inlined selections.
*/
module GraphqlAcceptance {
  import opened Wrappers
  import opened GraphqlParser
  import opened GraphqlExpansion
  import opened GraphqlDocument

  /** One response key, one field. */
  ghost predicate KeysAgree(responses: map<seq<string>, Signature>, vs: seq<Visit>) {
    (forall j :: 0 <= j < |vs| && vs[j].effect.OnField? && vs[j].effect.key in responses ==>
       responses[vs[j].effect.key] == vs[j].effect.signature) &&
    (forall i, j :: 0 <= i < j < |vs| && vs[i].effect.OnField? && vs[j].effect.OnField? &&
                    vs[i].effect.key == vs[j].effect.key ==>
       vs[i].effect.signature == vs[j].effect.signature)
  }

  predicate Shallow(vs: seq<Visit>) { forall j :: 0 <= j < |vs| ==> vs[j].depth <= MAX_NESTING }

  lemma KeysAgreeStep(responses: map<seq<string>, Signature>, vs: seq<Visit>)
    requires vs != []
    ensures var first := vs[0].effect;
            KeysAgree(responses, vs) <==>
              if first.OnField? then
                (first.key in responses ==> responses[first.key] == first.signature) &&
                KeysAgree(responses[first.key := first.signature], vs[1..])
              else KeysAgree(responses, vs[1..])
  {
    var first, rest := vs[0].effect, vs[1..];
    assert forall j :: 0 <= j < |rest| ==> rest[j] == vs[j + 1];
    assert forall j :: 0 < j < |vs| ==> vs[j] == rest[j - 1];
    var next := if first.OnField? then responses[first.key := first.signature] else responses;
    if KeysAgree(responses, vs) {
      forall j | 0 <= j < |rest| && rest[j].effect.OnField? && rest[j].effect.key in next
        ensures next[rest[j].effect.key] == rest[j].effect.signature
      {
        assert vs[0].effect == first && rest[j] == vs[j + 1];
      }
    }
    if KeysAgree(next, rest) && (first.OnField? && first.key in responses ==> responses[first.key] == first.signature) {
      forall j | 0 <= j < |vs| && vs[j].effect.OnField? && vs[j].effect.key in responses
        ensures responses[vs[j].effect.key] == vs[j].effect.signature
      {
        if j > 0 { assert vs[j] == rest[j - 1]; }
      }
      forall i, j | 0 <= i < j < |vs| && vs[i].effect.OnField? && vs[j].effect.OnField? &&
        vs[i].effect.key == vs[j].effect.key
        ensures vs[i].effect.signature == vs[j].effect.signature
      {
        assert vs[j] == rest[j - 1];
        if i > 0 { assert vs[i] == rest[i - 1]; }
      }
    }
  }

  ghost predicate SpreadVar(vs: seq<Visit>, vars: map<string, set<string>>, x: string) {
    exists j :: 0 <= j < |vs| && vs[j].effect.OnSpread? && x in VarsOfFragment(vars, vs[j].effect.fragment)
  }

  lemma SpreadVarStep(vs: seq<Visit>, vars: map<string, set<string>>, x: string)
    requires vs != []
    ensures SpreadVar(vs, vars, x) <==>
            (vs[0].effect.OnSpread? && x in VarsOfFragment(vars, vs[0].effect.fragment)) || SpreadVar(vs[1..], vars, x)
  {
    hide VarsOfFragment;
    if SpreadVar(vs[1..], vars, x) {
      var j :| 0 <= j < |vs[1..]| && vs[1..][j].effect.OnSpread? &&
        x in VarsOfFragment(vars, vs[1..][j].effect.fragment);
      assert vs[j + 1] == vs[1..][j];
    }
    if SpreadVar(vs, vars, x) {
      var j :| 0 <= j < |vs| && vs[j].effect.OnSpread? && x in VarsOfFragment(vars, vs[j].effect.fragment);
      if j > 0 { assert vs[j] == vs[1..][j - 1]; }
    }
  }

  /** Gathering fails only for a conflict of response keys or a limit. */
  lemma {:induction false} GatherIff(g: Gathering, vs: seq<Visit>, vars: map<string, set<string>>)
    requires g.visits <= MAX_NODES
    ensures GatherAll(g, vs, vars).Some? <==> KeysAgree(g.responses, vs) && Shallow(vs) && g.visits + |vs| <= MAX_NODES
    ensures GatherAll(g, vs, vars).Some? ==>
              var h := GatherAll(g, vs, vars).value;
              h.visits == g.visits + |vs| && forall x :: x in h.references <==>
                x in g.references || SpreadVar(vs, vars, x)
    decreases |vs|
  {
    if vs != [] {
      hide KeysAgree, SpreadVar, Dotted, VarsOfFragment;
      KeysAgreeStep(g.responses, vs);
      ShallowStep(vs);
      forall x ensures SpreadVar(vs, vars, x) <==>
                       (vs[0].effect.OnSpread? && x in VarsOfFragment(vars, vs[0].effect.fragment)) ||
                         SpreadVar(vs[1..], vars, x) {
        SpreadVarStep(vs, vars, x);
      }
      hide Shallow;
      var next := Gather(g, vs[0], vars);
      if next.Some? { GatherIff(next.value, vs[1..], vars); }
    } else {
      assert forall x :: !SpreadVar([], vars, x);
    }
  }

  lemma ShallowStep(vs: seq<Visit>)
    requires vs != []
    ensures Shallow(vs) <==> vs[0].depth <= MAX_NESTING && Shallow(vs[1..])
  {
    assert forall j :: 0 < j < |vs| ==> vs[j] == vs[1..][j - 1];
    assert forall j :: 0 <= j < |vs[1..]| ==> vs[1..][j] == vs[j + 1];
  }

  // ----- one operation ------------------------------------------------------------------------

  /** Every spread the operation leads to has a fragment that does not lead back to itself. */
  ghost predicate SpreadsResolve(nodes: seq<Node>, fragments: Fragments) {
    forall f :: Selects(nodes, fragments, OnSpread(f)) ==> f in fragments && !Recursive(fragments, f)
  }

  /** What the operation expands to is not nested too deeply. */
  ghost predicate NestingOk(nodes: seq<Node>, fragments: Fragments) {
    VisitsOf(nodes, fragments).Some? ==> Shallow(VisitsOf(nodes, fragments).value)
  }

  /** The number of nodes of the inlined selection, counted as often as they are visited. */
  function Size(nodes: seq<Node>, fragments: Fragments): nat {
    match VisitsOf(nodes, fragments) case Some(vs) => |vs| case None => 0
  }

  ghost predicate OpFine(doc: Document, op: Op) {
    SpreadsResolve(op.nodes, doc.fragments) && NestingOk(op.nodes, doc.fragments) &&
      ResponsesAgree(op.nodes, doc.fragments) &&
    VariablesDeclared(op, doc)
  }

  lemma ResolvesIff(nodes: seq<Node>, fragments: Fragments)
    ensures VisitsOf(nodes, fragments).Some? <==> SpreadsResolve(nodes, fragments)
  {
    hide Visits, Meets, Recursive;
    ExpandsIff(nodes, fragments);
    if VisitsOf(nodes, fragments).Some? {
      forall f | Selects(nodes, fragments, OnSpread(f)) ensures f in fragments && !Recursive(fragments, f) {
        SelectedAcyclic(nodes, fragments, f);
      }
    } else {
      var k: nat, f :| Meets(k, nodes, [], [], fragments, OnSpread(f)) && !(f in fragments && !Recursive(fragments, f));
      assert Selects(nodes, fragments, OnSpread(f));
    }
  }

  lemma AgreeIff(nodes: seq<Node>, fragments: Fragments)
    requires VisitsOf(nodes, fragments).Some?
    ensures KeysAgree(map[], VisitsOf(nodes, fragments).value) <==> ResponsesAgree(nodes, fragments)
  {
    hide Visits, Meets, Selects, Visited, VisitsOf;
    var vs := VisitsOf(nodes, fragments).value;
    forall e ensures Visited(vs, e) <==> Selects(nodes, fragments, e) { VisitedIffSelected(nodes, fragments, e); }
    if KeysAgree(map[], vs) {
      forall p, q, key, s, t | Selects(nodes, fragments, OnField(p, key, s)) &&
        Selects(nodes, fragments, OnField(q, key, t))
        ensures s == t
      {
        var i := At(vs, OnField(p, key, s));
        var j := At(vs, OnField(q, key, t));
      }
    }
    if ResponsesAgree(nodes, fragments) {
      forall i, j | 0 <= i < j < |vs| && vs[i].effect.OnField? && vs[j].effect.OnField? &&
        vs[i].effect.key == vs[j].effect.key
        ensures vs[i].effect.signature == vs[j].effect.signature
      {
        IsAt(vs, i);
        IsAt(vs, j);
        var a, b := vs[i].effect, vs[j].effect;
        assert Selects(nodes, fragments, OnField(a.path, a.key, a.signature)) &&
          Selects(nodes, fragments, OnField(b.path, a.key, b.signature));
      }
    }
  }

  lemma DeclaredIff(doc: Document, op: Op)
    requires VisitsOf(op.nodes, doc.fragments).Some?
    ensures VariablesDeclared(op, doc) <==>
            op.references <= op.declared &&
              forall x :: SpreadVar(VisitsOf(op.nodes, doc.fragments).value, doc.vars, x) ==> x in op.declared
  {
    hide Visits, Meets, Selects, Visited, VisitsOf, VarsOfFragment;
    var vs := VisitsOf(op.nodes, doc.fragments).value;
    forall e ensures Visited(vs, e) <==> Selects(op.nodes, doc.fragments, e) {
      VisitedIffSelected(op.nodes, doc.fragments, e);
    }
    if VariablesDeclared(op, doc) {
      forall x | SpreadVar(vs, doc.vars, x) ensures x in op.declared {
        var j :| 0 <= j < |vs| && vs[j].effect.OnSpread? && x in VarsOfFragment(doc.vars, vs[j].effect.fragment);
        IsAt(vs, j);
        assert Selects(op.nodes, doc.fragments, OnSpread(vs[j].effect.fragment));
      }
    }
    if forall x :: SpreadVar(vs, doc.vars, x) ==> x in op.declared {
      forall f | Selects(op.nodes, doc.fragments, OnSpread(f)) ensures VarsOfFragment(doc.vars, f) <= op.declared {
        var j := At(vs, OnSpread(f));
        forall x | x in VarsOfFragment(doc.vars, f) ensures x in op.declared { assert SpreadVar(vs, doc.vars, x); }
      }
    }
  }

  /** One operation passes exactly if it is sound and its nodes still fit the count. */
  lemma CheckOpIff(doc: Document, g: Gathering, op: Op)
    requires g.visits <= MAX_NODES
    ensures CheckOp(doc, g, op).Some? <==> OpFine(doc, op) && g.visits + Size(op.nodes, doc.fragments) <= MAX_NODES
    ensures CheckOp(doc, g, op).Some? ==> CheckOp(doc, g, op).value.visits == g.visits + Size(op.nodes, doc.fragments)
  {
    hide Visits, GatherAll, KeysAgree, Shallow, SpreadVar, SpreadsResolve, ResponsesAgree, VariablesDeclared;
    ResolvesIff(op.nodes, doc.fragments);
    if VisitsOf(op.nodes, doc.fragments).Some? {
      var start := Restarted(g, op.references);
      GatherIff(start, VisitsOf(op.nodes, doc.fragments).value, doc.vars);
      AgreeIff(op.nodes, doc.fragments);
      DeclaredIff(doc, op);
    }
  }

  // ----- the whole request --------------------------------------------------------------------

  function TotalSize(doc: Document, ops: seq<Op>): nat {
    if ops == [] then 0 else Size(ops[0].nodes, doc.fragments) + TotalSize(doc, ops[1..])
  }

  lemma {:induction false} CheckOpsIff(doc: Document, g: Gathering, ops: seq<Op>)
    requires g.visits <= MAX_NODES
    ensures CheckOps(doc, g, ops).Some? <==>
            (forall i :: 0 <= i < |ops| ==> OpFine(doc, ops[i])) && g.visits + TotalSize(doc, ops) <= MAX_NODES
    ensures CheckOps(doc, g, ops).Some? ==> CheckOps(doc, g, ops).value.visits == g.visits + TotalSize(doc, ops)
    decreases |ops|
  {
    hide CheckOp, OpFine, Size;
    if ops != [] {
      CheckOpIff(doc, g, ops[0]);
      if CheckOp(doc, g, ops[0]).Some? { CheckOpsIff(doc, CheckOp(doc, g, ops[0]).value, ops[1..]); }
      assert forall i :: 0 < i < |ops| ==> ops[i] == ops[1..][i - 1];
      assert forall i :: 0 <= i < |ops[1..]| ==> ops[1..][i] == ops[i + 1];
    }
  }

  /** The chosen operation is expanded once more, after all of them. */
  predicate CountOk(doc: Document, c: nat)
    requires c < |doc.operations|
  {
    TotalSize(doc, doc.operations) + Size(doc.operations[c].nodes, doc.fragments) <= MAX_NODES
  }

  /**
    A request is accepted exactly if the chosen operation's required variables are supplied,
    every operation is sound, every fragment is used by one of them, and all expansions
    together fit the count.
  */
  lemma AcceptedIff(doc: Document, c: nat, provided: set<string>)
    requires c < |doc.operations|
    ensures Select(doc, c, provided).Some? <==>
            doc.operations[c].required <= provided &&
              (forall i :: 0 <= i < |doc.operations| ==> OpFine(doc, doc.operations[i])) &&
            (forall f :: f in doc.fragments <==> UsedIn(doc, doc.operations, f)) && CountOk(doc, c)
  {
    hide CheckOps, OpFine, UsedIn, Visits, GatherAll, Recursive, TotalSize;
    CheckOpsIff(doc, NOTHING, doc.operations);
    if CheckOps(doc, NOTHING, doc.operations).Some? {
      CheckedSound(doc, NOTHING, doc.operations);
      var g := CheckOps(doc, NOTHING, doc.operations).value;
      AgainIff(doc, g, doc.operations[c]);
      assert g.used == doc.fragments.Keys <==> forall f :: f in doc.fragments <==> UsedIn(doc, doc.operations, f);
    }
  }

  /** Expanding a sound operation again can only fail for the count. */
  lemma AgainIff(doc: Document, g: Gathering, op: Op)
    requires g.visits <= MAX_NODES && OpFine(doc, op)
    ensures Outcome(Restarted(g, g.references), VisitsOf(op.nodes, doc.fragments), doc.vars).Some? <==>
            g.visits + Size(op.nodes, doc.fragments) <= MAX_NODES
  {
    hide Visits, GatherAll, KeysAgree, Shallow, SpreadVar, SpreadsResolve, ResponsesAgree, VariablesDeclared;
    ResolvesIff(op.nodes, doc.fragments);
    GatherIff(Restarted(g, g.references), VisitsOf(op.nodes, doc.fragments).value, doc.vars);
    AgreeIff(op.nodes, doc.fragments);
  }
}

/**
  Selecting an operation of a document: every operation is expanded and checked, then the
  selected one alone gives the fields. The theorems say what acceptance means, in the terms
  of sections 5.3.2, 5.5.1.4, 5.5.2.1, 5.5.2.2 and 5.8.3 of the GraphQL specification of
  October 2021.
*/
module GraphqlDocument {
  import opened Wrappers
  import opened GraphqlSyntax
  import opened GraphqlDefinitions
  import opened GraphqlParser
  import opened GraphqlExpansion

  datatype Selected = Selected(kind: Kind, title: Option<string>, fields: set<string>)

  predicate DistinctTitles(ops: seq<Op>) { forall i, j :: 0 <= i < j < |ops| ==> ops[i].title != ops[j].title }

  /** Operations have distinct names, and one without a name is alone. */
  predicate TitlesOk(ops: seq<Op>) {
    ops != [] && DistinctTitles(ops) && (|ops| > 1 ==> forall i :: 0 <= i < |ops| ==> ops[i].title.Some?)
  }

  predicate Matches(op: Op, wanted: Option<string>) { wanted.None? || op.title == wanted }

  /** The only operation that matches. */
  predicate IsChosen(ops: seq<Op>, wanted: Option<string>, c: nat) {
    c < |ops| && forall i :: 0 <= i < |ops| ==> (Matches(ops[i], wanted) <==> i == c)
  }

  // ----- what acceptance means ----------------------------------------------------------------

  ghost predicate Selects(nodes: seq<Node>, fragments: Fragments, e: Effect) {
    exists k: nat :: Meets(k, nodes, [], [], fragments, e)
  }

  /** Fields that would share a key in the response are the same field with the same arguments. */
  ghost predicate ResponsesAgree(nodes: seq<Node>, fragments: Fragments) {
    forall p, q, key, s, t ::
      Selects(nodes, fragments, OnField(p, key, s)) && Selects(nodes, fragments, OnField(q, key, t)) ==> s == t
  }

  /** Variables of the operation and of all fragments it reaches are declared by it. */
  ghost predicate VariablesDeclared(op: Op, doc: Document) {
    op.references <= op.declared &&
    forall f :: Selects(op.nodes, doc.fragments, OnSpread(f)) ==> VarsOfFragment(doc.vars, f) <= op.declared
  }

  /** The dotted paths of an inlined selection. */
  ghost predicate IsFieldPath(nodes: seq<Node>, fragments: Fragments, path: string) {
    exists p, key, s :: Selects(nodes, fragments, OnField(p, key, s)) && Dotted(p) == path
  }

  // ----- checking -----------------------------------------------------------------------------

  const NOTHING: Gathering := Gathering({}, map[], {}, {}, 0)

  function VisitsOf(nodes: seq<Node>, fragments: Fragments): Option<seq<Visit>> { Visits(nodes, [], {}, [], fragments) }

  function Restarted(g: Gathering, references: set<string>): Gathering {
    g.(fields := {}, responses := map[], references := references)
  }

  function CheckOp(doc: Document, g: Gathering, op: Op): Option<Gathering> {
    match Outcome(Restarted(g, op.references), VisitsOf(op.nodes, doc.fragments), doc.vars)
    case Some(h) => if h.references <= op.declared then Some(h) else None
    case None => None
  }

  function CheckOps(doc: Document, g: Gathering, ops: seq<Op>): Option<Gathering>
    decreases |ops|
  {
    if ops == [] then Some(g)
    else match CheckOp(doc, g, ops[0]) case Some(h) => CheckOps(doc, h, ops[1..]) case None => None
  }

  /** The decision about a parsed document, given which operation was chosen. */
  function Select(doc: Document, c: nat, provided: set<string>): Option<Selected>
    requires c < |doc.operations|
  {
    var op := doc.operations[c];
    if !(op.required <= provided) then None
    else
      match CheckOps(doc, NOTHING, doc.operations)
      case None => None
      case Some(g) =>
        if g.used != doc.fragments.Keys then None
        else
          match Outcome(Restarted(g, g.references), VisitsOf(op.nodes, doc.fragments), doc.vars)
          case Some(h) => Some(Selected(op.kind, op.title, h.fields))
          case None => None
  }

  class Selector {
    const doc: Document
    const expander: Expander

    constructor (doc: Document)
      ensures this.doc == doc && fresh(expander) && Valid() && expander.State() == NOTHING
    {
      this.doc := doc;
      this.expander := new Expander(doc.fragments, doc.vars);
    }

    predicate Valid()
      reads expander
    {
      expander.fragments == doc.fragments && expander.vars == doc.vars
    }

    method Check(op: Op) returns (ok: bool)
      requires Valid()
      modifies expander
      ensures match CheckOp(doc, old(expander.State()), op)
              case Some(g) => ok && expander.State() == g
              case None => !ok
    {
      hide Visits, GatherAll;
      expander.fields, expander.responses, expander.references := {}, map[], op.references;
      ok := expander.Expand(op.nodes, [], {}, []);
      if ok { ok := expander.references <= op.declared; }
    }

    method Choose(c: nat, provided: set<string>) returns (r: Option<Selected>)
      requires Valid() && expander.State() == NOTHING && c < |doc.operations|
      modifies expander
      ensures r == Select(doc, c, provided)
    {
      hide Visits, GatherAll, CheckOp;
      var op := doc.operations[c];
      if !(op.required <= provided) { return None; }
      var i := 0;
      assert doc.operations[0..] == doc.operations;
      while i < |doc.operations|
        invariant i <= |doc.operations|
        invariant CheckOps(doc, NOTHING, doc.operations) == CheckOps(doc, expander.State(), doc.operations[i..])
      {
        assert doc.operations[i..][0] == doc.operations[i] && doc.operations[i..][1..] == doc.operations[i + 1..];
        var ok := Check(doc.operations[i]);
        if !ok { return None; }
        i := i + 1;
      }
      if expander.used != doc.fragments.Keys { return None; }
      expander.fields, expander.responses := {}, map[];
      var ok := expander.Expand(op.nodes, [], {}, []);
      return if ok then Some(Selected(op.kind, op.title, expander.fields)) else None;
    }
  }

  /** Finds the one operation that matches. */
  method FindOperation(ops: seq<Op>, wanted: Option<string>) returns (c: Option<nat>)
    ensures match c
            case Some(n) => IsChosen(ops, wanted, n)
            case None => forall n: nat :: !IsChosen(ops, wanted, n)
  {
    c := None;
    var i := 0;
    while i < |ops|
      invariant i <= |ops|
      invariant c.None? ==> forall j :: 0 <= j < i ==> !Matches(ops[j], wanted)
      invariant c.Some? ==> c.value < i && forall j :: 0 <= j < i ==> (Matches(ops[j], wanted) <==> j == c.value)
    {
      if Matches(ops[i], wanted) {
        if c.Some? {
          forall n: nat ensures !IsChosen(ops, wanted, n) {
            assert Matches(ops[i], wanted) && Matches(ops[c.value], wanted);
          }
          return None;
        }
        c := Some(i);
      }
      i := i + 1;
    }
    if c.None? {
      forall n: nat ensures !IsChosen(ops, wanted, n) {
        assert n < |ops| ==> !Matches(ops[n], wanted);
      }
    }
  }

  lemma ChosenOnce(ops: seq<Op>, wanted: Option<string>, c: nat, d: nat)
    requires IsChosen(ops, wanted, c) && IsChosen(ops, wanted, d)
    ensures c == d
  {
    assert Matches(ops[d], wanted);
  }

  method TitlesDistinct(ops: seq<Op>) returns (ok: bool)
    ensures ok <==> TitlesOk(ops)
  {
    if ops == [] { return false; }
    var titles: set<Option<string>> := {};
    var i := 0;
    while i < |ops|
      invariant i <= |ops|
      invariant forall t :: t in titles <==> exists j :: 0 <= j < i && ops[j].title == t
      invariant DistinctTitles(ops[..i])
    {
      if ops[i].title in titles { return false; }
      titles := titles + {ops[i].title};
      i := i + 1;
    }
    assert ops[..i] == ops;
    if None in titles && |ops| > 1 { return false; }
    return true;
  }

  // ----- theorems -----------------------------------------------------------------------------

  lemma VisitedIffSelected(nodes: seq<Node>, fragments: Fragments, e: Effect)
    requires VisitsOf(nodes, fragments).Some?
    ensures Visited(VisitsOf(nodes, fragments).value, e) <==> Selects(nodes, fragments, e)
  {
    hide Visits, Meets;
    if Visited(VisitsOf(nodes, fragments).value, e) {
      var k := VisitedIsMet(nodes, [], {}, [], fragments, e);
    }
    if Selects(nodes, fragments, e) {
      var k: nat :| Meets(k, nodes, [], [], fragments, e);
      MetIsVisited(k, nodes, [], {}, [], fragments, e);
    }
  }

  /** One successful expansion: responses agree, what it reached is recorded and acyclic, the fields are the paths. */
  lemma ExpansionMeans(nodes: seq<Node>, doc: Document, g: Gathering)
    requires Outcome(g, VisitsOf(nodes, doc.fragments), doc.vars).Some? && g.responses == map[] && g.fields == {}
    ensures var h := Outcome(g, VisitsOf(nodes, doc.fragments), doc.vars).value;
            ResponsesAgree(nodes, doc.fragments) && g.references <= h.references &&
            (forall f :: Selects(nodes, doc.fragments, OnSpread(f)) ==>
               VarsOfFragment(doc.vars, f) <= h.references && f in doc.fragments && !Recursive(doc.fragments, f)) &&
            (forall f :: f in h.used <==> f in g.used || Selects(nodes, doc.fragments, OnSpread(f))) &&
            (forall path :: path in h.fields <==> IsFieldPath(nodes, doc.fragments, path))
  {
    var vs := VisitsOf(nodes, doc.fragments).value;
    Gathered(g, vs, doc.vars);
    hide GatherAll, Visits, Meets, Visited, Dotted, VarsOfFragment, Recursive, Selects;
    forall e ensures Visited(vs, e) <==> Selects(nodes, doc.fragments, e) {
      VisitedIffSelected(nodes, doc.fragments, e);
    }
    var h := Outcome(g, VisitsOf(nodes, doc.fragments), doc.vars).value;
    forall f | Selects(nodes, doc.fragments, OnSpread(f))
      ensures VarsOfFragment(doc.vars, f) <= h.references && f in doc.fragments && !Recursive(doc.fragments, f)
    {
      var j := At(vs, OnSpread(f));
      SelectedAcyclic(nodes, doc.fragments, f);
    }
    forall p, q, key, s, t | Selects(nodes, doc.fragments, OnField(p, key, s)) &&
      Selects(nodes, doc.fragments, OnField(q, key, t))
      ensures s == t
    {
      var i := At(vs, OnField(p, key, s));
      var j := At(vs, OnField(q, key, t));
    }
    forall path ensures path in h.fields <==> IsFieldPath(nodes, doc.fragments, path) {
      if FieldVisited(vs, path) {
        var j :| 0 <= j < |vs| && vs[j].effect.OnField? && Dotted(vs[j].effect.path) == path;
        IsAt(vs, j);
        assert Selects(nodes, doc.fragments, OnField(vs[j].effect.path, vs[j].effect.key, vs[j].effect.signature));
      }
      if IsFieldPath(nodes, doc.fragments, path) {
        var p, key, s :| Selects(nodes, doc.fragments, OnField(p, key, s)) && Dotted(p) == path;
        var j := At(vs, OnField(p, key, s));
      }
    }
  }

  lemma At(vs: seq<Visit>, e: Effect) returns (j: nat)
    requires Visited(vs, e)
    ensures j < |vs| && vs[j].effect == e
  {
    j :| 0 <= j < |vs| && vs[j].effect == e;
  }

  lemma IsAt(vs: seq<Visit>, j: nat)
    requires j < |vs|
    ensures Visited(vs, vs[j].effect)
  {
  }

  lemma SelectedAcyclic(nodes: seq<Node>, fragments: Fragments, f: string)
    requires VisitsOf(nodes, fragments).Some? && Selects(nodes, fragments, OnSpread(f))
    ensures f in fragments && !Recursive(fragments, f)
  {
    hide Visits, Meets;
    var k: nat :| Meets(k, nodes, [], [], fragments, OnSpread(f));
    ReachedIsAcyclic(k, nodes, [], {}, [], fragments, f);
  }

  ghost predicate OpSound(doc: Document, op: Op) {
    ResponsesAgree(op.nodes, doc.fragments) && VariablesDeclared(op, doc)
  }

  lemma CheckedOpSound(doc: Document, g: Gathering, op: Op)
    requires CheckOp(doc, g, op).Some?
    ensures OpSound(doc, op)
    ensures forall f :: f in CheckOp(doc, g, op).value.used <==> f in g.used ||
                                                                 Selects(op.nodes, doc.fragments, OnSpread(f))
    ensures forall f :: Selects(op.nodes, doc.fragments, OnSpread(f)) ==>
            f in doc.fragments && !Recursive(doc.fragments, f)
  {
    hide Outcome, VisitsOf, ResponsesAgree, Selects, Recursive, VarsOfFragment;
    ExpansionMeans(op.nodes, doc, Restarted(g, op.references));
  }

  ghost predicate UsedIn(doc: Document, ops: seq<Op>, f: string) {
    exists i :: 0 <= i < |ops| && Selects(ops[i].nodes, doc.fragments, OnSpread(f))
  }

  lemma UsedInFirst(doc: Document, ops: seq<Op>, f: string)
    requires ops != []
    ensures UsedIn(doc, ops, f) <==> Selects(ops[0].nodes, doc.fragments, OnSpread(f)) || UsedIn(doc, ops[1..], f)
  {
    hide Selects;
    if UsedIn(doc, ops[1..], f) {
      var i :| 0 <= i < |ops[1..]| && Selects(ops[1..][i].nodes, doc.fragments, OnSpread(f));
      assert ops[i + 1] == ops[1..][i];
    }
    if UsedIn(doc, ops, f) {
      var i :| 0 <= i < |ops| && Selects(ops[i].nodes, doc.fragments, OnSpread(f));
      if i > 0 { assert ops[i] == ops[1..][i - 1]; }
    }
  }

  lemma {:induction false} CheckedSound(doc: Document, g: Gathering, ops: seq<Op>)
    requires CheckOps(doc, g, ops).Some?
    ensures forall i :: 0 <= i < |ops| ==> OpSound(doc, ops[i])
    ensures forall f :: f in CheckOps(doc, g, ops).value.used <==> f in g.used || UsedIn(doc, ops, f)
    ensures forall f :: UsedIn(doc, ops, f) ==> f in doc.fragments && !Recursive(doc.fragments, f)
    decreases |ops|
  {
    hide CheckOp, OpSound, Recursive, UsedIn, Selects;
    if ops == [] {
      forall f ensures !UsedIn(doc, ops, f) { NotUsed(doc, f); }
    } else {
      var h := CheckOp(doc, g, ops[0]).value;
      CheckedOpSound(doc, g, ops[0]);
      CheckedSound(doc, h, ops[1..]);
      forall f ensures UsedIn(doc, ops, f) <==> Selects(ops[0].nodes, doc.fragments, OnSpread(f)) ||
                                                UsedIn(doc, ops[1..], f) {
        UsedInFirst(doc, ops, f);
      }
      forall i | 0 <= i < |ops| ensures OpSound(doc, ops[i]) {
        if i > 0 { assert ops[i] == ops[1..][i - 1]; }
      }
    }
  }

  lemma NotUsed(doc: Document, f: string)
    ensures !UsedIn(doc, [], f)
  {
  }

  /**
    What an accepted request guarantees: the fields are the dotted paths of the selected
    operation with every spread replaced by its fragment; in every operation, fields under
    one response key are the same and variables are declared; every fragment is reached by
    some operation, and none leads back to itself.
  */
  lemma AcceptedMeans(doc: Document, c: nat, provided: set<string>)
    requires c < |doc.operations| && Select(doc, c, provided).Some?
    ensures var r := Select(doc, c, provided).value; var op := doc.operations[c];
            r.kind == op.kind && r.title == op.title && op.required <= provided &&
            forall path :: path in r.fields <==> IsFieldPath(op.nodes, doc.fragments, path)
    ensures forall i :: 0 <= i < |doc.operations| ==>
              ResponsesAgree(doc.operations[i].nodes, doc.fragments) && VariablesDeclared(doc.operations[i], doc)
    ensures forall f :: f in doc.fragments <==> UsedIn(doc, doc.operations, f)
    ensures forall f :: f in doc.fragments ==> !Recursive(doc.fragments, f)
  {
    hide Outcome, CheckOps, ResponsesAgree, VariablesDeclared, UsedIn, Recursive, IsFieldPath, VisitsOf, Selects;
    CheckedSound(doc, NOTHING, doc.operations);
    var g := CheckOps(doc, NOTHING, doc.operations).value;
    ExpansionMeans(doc.operations[c].nodes, doc, Restarted(g, g.references));
    forall i | 0 <= i < |doc.operations|
      ensures ResponsesAgree(doc.operations[i].nodes, doc.fragments) && VariablesDeclared(doc.operations[i], doc)
    {
      assert OpSound(doc, doc.operations[i]);
    }
  }
}

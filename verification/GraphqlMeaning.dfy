/**
  What an accepted request selects, in terms of the document as it is written: fields with
  their names, aliases and arguments, spreads replaced by the selections of their fragments,
  and variables as they stand in the tokens.
*/
module GraphqlMeaning {
  import opened Wrappers
  import opened GraphqlSyntax
  import opened GraphqlDefinitions
  import opened GraphqlPrinting
  import opened GraphqlVariables
  import opened GraphqlParser
  import opened GraphqlExpansion
  import opened GraphqlDocument
  import opened GraphqlAcceptance

  // ----- the written selection ----------------------------------------------------------------

  function NameOf(f: Selection): string { if f.Field? then f.name else "" }

  /** The name a field has in the response. */
  function KeyOf(f: Selection): string {
    if f.Field? then if f.alias.Some? then f.alias.value else f.name else ""
  }

  ghost predicate Defines(d: Definition, name: string) { d.Fragment? && d.name == name }

  /**
    The selection `f` stands below these selections, within the fields `path`, when spreads
    are replaced by what their fragments select; `k` bounds the way there.
  */
  ghost predicate Occurs(k: nat, sels: seq<Selection>, ds: seq<Definition>, path: seq<Selection>, f: Selection)
    decreases k, 1
  {
    exists i :: 0 <= i < |sels| && OccursAt(k, sels[i], ds, path, f)
  }

  ghost predicate OccursAt(k: nat, s: Selection, ds: seq<Definition>, path: seq<Selection>, f: Selection)
    decreases k, 0
  {
    (path == [] && f == s) ||
    (k > 0 &&
     match s
     case Field(_, _, _, _, children) => path != [] && path[0] == s && Occurs(k - 1, children, ds, path[1..], f)
     case Inline(_, _, children) => Occurs(k - 1, children, ds, path, f)
     case Spread(name, _) =>
       exists j :: 0 <= j < |ds| && Defines(ds[j], name) && Occurs(k - 1, ds[j].selections, ds, path, f))
  }

  function Names(path: seq<Selection>): (r: seq<string>)
    ensures |r| == |path| && forall i :: 0 <= i < |path| ==> r[i] == NameOf(path[i])
  {
    if path == [] then [] else [NameOf(path[0])] + Names(path[1..])
  }

  function Keys(path: seq<Selection>): (r: seq<string>)
    ensures |r| == |path| && forall i :: 0 <= i < |path| ==> r[i] == KeyOf(path[i])
  {
    if path == [] then [] else [KeyOf(path[0])] + Keys(path[1..])
  }

  /** The fragments are those that are defined. */
  ghost predicate Fits(ds: seq<Definition>, fragments: Fragments) {
    (forall j :: 0 <= j < |ds| && ds[j].Fragment? ==>
       ds[j].name in fragments && fragments[ds[j].name] == NodesOf(ds[j].selections)) &&
    (forall name :: name in fragments ==> exists j :: 0 <= j < |ds| && Defines(ds[j], name))
  }

  /** What is gathered for this selection on this way. */
  ghost function EffectOf(path: seq<Selection>, f: Selection, prefix: seq<string>, key: seq<string>): Effect
  {
    match f
    case Field(_, name, arguments, _, _) =>
      OnField(prefix + Names(path) + [name], key + Keys(path) + [KeyOf(f)], Signature(name, ArgumentMap(arguments)))
    case Inline(_, _, _) => OnInline
    case Spread(name, _) => OnSpread(name)
  }

  lemma FirstEffect(s: Selection, path: seq<Selection>, f: Selection, prefix: seq<string>, key: seq<string>)
    requires s.Field?
    ensures EffectOf([s] + path, f, prefix, key) == EffectOf(path, f, prefix + [s.name], key + [KeyOf(s)])
  {
    var all := [s] + path;
    assert all[1..] == path;
    assert prefix + Names(all) == prefix + [s.name] + Names(path);
    assert key + Keys(all) == key + [KeyOf(s)] + Keys(path);
  }

  lemma NoWay(f: Selection, prefix: seq<string>, key: seq<string>)
    ensures f.Field? ==> EffectOf([], f, prefix, key) == OnField(prefix + [f.name], key + [KeyOf(f)],
              Signature(f.name, ArgumentMap(f.arguments)))
  {
    assert prefix + [] == prefix && key + [] == key;
  }

  /** Every selection that stands there is met, with its own name and key. */
  lemma {:induction false} OccursIsMet(k: nat, sels: seq<Selection>, ds: seq<Definition>, fragments: Fragments,
                                       path: seq<Selection>, f: Selection, prefix: seq<string>, key: seq<string>)
    requires Fits(ds, fragments) && Occurs(k, sels, ds, path, f)
    ensures Meets(k, NodesOf(sels), prefix, key, fragments, EffectOf(path, f, prefix, key))
    decreases k, 1
  {
    hide OccursAt, MeetsAt, EffectOf;
    var i :| 0 <= i < |sels| && OccursAt(k, sels[i], ds, path, f);
    OccursAtIsMet(k, sels[i], ds, fragments, path, f, prefix, key);
    assert NodesOf(sels)[i] == NodeOf(sels[i]);
  }

  lemma {:induction false} OccursAtIsMet(k: nat, s: Selection, ds: seq<Definition>, fragments: Fragments,
                                         path: seq<Selection>, f: Selection, prefix: seq<string>, key: seq<string>)
    requires Fits(ds, fragments) && OccursAt(k, s, ds, path, f)
    ensures MeetsAt(k, NodeOf(s), prefix, key, fragments, EffectOf(path, f, prefix, key))
    decreases k, 0
  {
    hide Occurs, Meets, NodesOf, ArgumentMap;
    NoWay(f, prefix, key);
    if !(path == [] && f == s) {
      match s
      case Field(_, _, _, _, children) =>
        var rest := path[1..];
        assert path == [s] + rest;
        FirstEffect(s, rest, f, prefix, key);
        OccursIsMet(k - 1, children, ds, fragments, rest, f, prefix + [s.name], key + [KeyOf(s)]);
      case Inline(_, _, children) => OccursIsMet(k - 1, children, ds, fragments, path, f, prefix, key);
      case Spread(name, _) =>
        var j :| 0 <= j < |ds| && Defines(ds[j], name) && Occurs(k - 1, ds[j].selections, ds, path, f);
        OccursIsMet(k - 1, ds[j].selections, ds, fragments, path, f, prefix, key);
    }
  }

  /** Whatever is met is a selection that stands there. */
  lemma {:induction false} MetOccurs(k: nat, sels: seq<Selection>, ds: seq<Definition>, fragments: Fragments,
                                     prefix: seq<string>, key: seq<string>, e: Effect)
    returns (path: seq<Selection>, f: Selection)
    requires Fits(ds, fragments) && Meets(k, NodesOf(sels), prefix, key, fragments, e)
    ensures Occurs(k, sels, ds, path, f) && EffectOf(path, f, prefix, key) == e
    decreases k, 1
  {
    hide OccursAt, MeetsAt, EffectOf;
    var i :| 0 <= i < |sels| && MeetsAt(k, NodesOf(sels)[i], prefix, key, fragments, e);
    assert NodesOf(sels)[i] == NodeOf(sels[i]);
    path, f := MetAtOccurs(k, sels[i], ds, fragments, prefix, key, e);
  }

  lemma {:induction false} MetAtOccurs(k: nat, s: Selection, ds: seq<Definition>, fragments: Fragments,
                                       prefix: seq<string>, key: seq<string>, e: Effect)
    returns (path: seq<Selection>, f: Selection)
    requires Fits(ds, fragments) && MeetsAt(k, NodeOf(s), prefix, key, fragments, e)
    ensures OccursAt(k, s, ds, path, f) && EffectOf(path, f, prefix, key) == e
    decreases k, 0
  {
    hide Occurs, Meets, NodesOf, ArgumentMap;
    NoWay(s, prefix, key);
    path, f := [], s;
    if EffectOf([], s, prefix, key) != e {
      match s
      case Field(_, _, _, _, children) =>
        var rest;
        rest, f := MetOccurs(k - 1, children, ds, fragments, prefix + [s.name], key + [KeyOf(s)], e);
        path := [s] + rest;
        FirstEffect(s, rest, f, prefix, key);
        assert path[1..] == rest;
      case Inline(_, _, children) => path, f := MetOccurs(k - 1, children, ds, fragments, prefix, key, e);
      case Spread(name, _) =>
        var j :| 0 <= j < |ds| && Defines(ds[j], name);
        path, f := MetOccurs(k - 1, ds[j].selections, ds, fragments, prefix, key, e);
    }
  }

  // ----- documents ----------------------------------------------------------------------------

  ghost predicate Distinguished(ds: seq<Definition>) {
    forall i, j :: 0 <= i < j < |ds| && ds[i].Fragment? && ds[j].Fragment? ==> ds[i].name != ds[j].name
  }

  ghost predicate AllOk(ds: seq<Definition>) { forall i :: 0 <= i < |ds| ==> DefinitionOk(ds[i]) }

  lemma {:induction false} DocumentParts(ds: seq<Definition>, named: set<string>)
    requires DocumentOk(ds, named)
    ensures AllOk(ds) && Distinguished(ds)
    ensures forall i :: 0 <= i < |ds| && ds[i].Fragment? ==> ds[i].name !in named
    decreases |ds|
  {
    hide DefinitionOk;
    if ds != [] {
      DocumentParts(ds[1..], if ds[0].Fragment? then named + {ds[0].name} else named);
      assert forall i :: 0 < i < |ds| ==> ds[i] == ds[1..][i - 1];
    }
  }

  function Operations(ds: seq<Definition>): (r: seq<Definition>)
    ensures forall i :: 0 <= i < |r| ==> r[i].Operation? && r[i] in ds
  {
    if ds == [] then []
    else
      var last := ds[|ds| - 1];
      Operations(ds[..|ds| - 1]) + if last.Operation? then [last] else []
  }

  ghost predicate VarsFit(ds: seq<Definition>, doc: Document) {
    doc.vars.Keys == doc.fragments.Keys &&
    forall j :: 0 <= j < |ds| && ds[j].Fragment? ==>
      ds[j].name in doc.vars && doc.vars[ds[j].name] == VarsOfDefinition(ds[j])
  }

  ghost predicate OperationsFit(ds: seq<Definition>, ops: seq<Op>) {
    |ops| == |Operations(ds)| && forall i :: 0 <= i < |ops| ==> ops[i] == OpOf(Operations(ds)[i])
  }

  /** What is kept of a document: each fragment and each operation under its own selections. */
  lemma {:induction false} DocumentKeeps(ds: seq<Definition>)
    requires Distinguished(ds)
    ensures Fits(ds, DocumentOf(ds).fragments) && VarsFit(ds, DocumentOf(ds)) &&
            OperationsFit(ds, DocumentOf(ds).operations)
    decreases |ds|
  {
    hide NodesOf, VarsOfDefinition, OpOf;
    if ds != [] {
      var front, last := ds[..|ds| - 1], ds[|ds| - 1];
      assert ds == front + [last];
      DocumentKeeps(front);
      hide Fits, VarsFit, OperationsFit, Operations;
      FitsMore(front, last, DocumentOf(front));
      VarsMore(front, last, DocumentOf(front));
      OperationsMore(front, last, DocumentOf(front).operations);
    }
  }

  lemma FitsMore(front: seq<Definition>, last: Definition, doc: Document)
    requires Distinguished(front + [last]) && Fits(front, doc.fragments)
    ensures Fits(front + [last], WithDefinition(doc, last).fragments)
  {
    hide NodesOf, VarsOfDefinition, OpOf, Distinguished;
    var ds, next := front + [last], WithDefinition(doc, last).fragments;
    LastDiffers(front, last);
    forall j | 0 <= j < |ds| && ds[j].Fragment?
      ensures ds[j].name in next && next[ds[j].name] == NodesOf(ds[j].selections)
    {
      if j < |front| { assert front[j] == ds[j]; }
    }
    forall name | name in next ensures exists j :: 0 <= j < |ds| && Defines(ds[j], name) {
      if name in doc.fragments {
        var j :| 0 <= j < |front| && Defines(front[j], name);
        assert Defines(ds[j], name);
      } else {
        assert Defines(ds[|front|], name);
      }
    }
  }

  lemma VarsMore(front: seq<Definition>, last: Definition, doc: Document)
    requires Distinguished(front + [last]) && VarsFit(front, doc)
    ensures VarsFit(front + [last], WithDefinition(doc, last))
  {
    hide NodesOf, VarsOfDefinition, OpOf, Distinguished;
    var ds, next := front + [last], WithDefinition(doc, last);
    LastDiffers(front, last);
    forall j | 0 <= j < |ds| && ds[j].Fragment?
      ensures ds[j].name in next.vars && next.vars[ds[j].name] == VarsOfDefinition(ds[j])
    {
      if j < |front| { assert front[j] == ds[j]; }
    }
  }

  lemma LastDiffers(front: seq<Definition>, last: Definition)
    requires Distinguished(front + [last])
    ensures last.Fragment? ==> forall j :: 0 <= j < |front| && front[j].Fragment? ==> front[j].name != last.name
    ensures Distinguished(front)
  {
    var ds := front + [last];
    assert ds[|front|] == last && forall j :: 0 <= j < |front| ==> front[j] == ds[j];
  }

  lemma OperationsMore(front: seq<Definition>, last: Definition, ops: seq<Op>)
    requires OperationsFit(front, ops)
    ensures OperationsFit(front + [last], if last.Operation? then ops + [OpOf(last)] else ops)
  {
    hide OpOf;
    assert (front + [last])[..|front|] == front;
  }

  // ----- the written operation ----------------------------------------------------------------

  /** The selection stands below these, within these fields. */
  ghost predicate Stands(sels: seq<Selection>, ds: seq<Definition>, path: seq<Selection>, f: Selection) {
    exists k: nat :: Occurs(k, sels, ds, path, f)
  }

  lemma SelectsIff(sels: seq<Selection>, ds: seq<Definition>, fragments: Fragments, e: Effect)
    requires Fits(ds, fragments)
    ensures Selects(NodesOf(sels), fragments, e) <==>
            exists path, f :: Stands(sels, ds, path, f) && EffectOf(path, f, [], []) == e
  {
    hide Occurs, Meets, EffectOf, NodesOf, Fits;
    if Selects(NodesOf(sels), fragments, e) {
      var k: nat :| Meets(k, NodesOf(sels), [], [], fragments, e);
      var path, f := MetOccurs(k, sels, ds, fragments, [], [], e);
      assert Stands(sels, ds, path, f);
    }
    if exists path, f :: Stands(sels, ds, path, f) && EffectOf(path, f, [], []) == e {
      var path, f :| Stands(sels, ds, path, f) && EffectOf(path, f, [], []) == e;
      var k: nat :| Occurs(k, sels, ds, path, f);
      OccursIsMet(k, sels, ds, fragments, path, f, [], []);
    }
  }

  lemma NamesAppend(path: seq<Selection>, f: Selection)
    ensures Names(path + [f]) == [] + Names(path) + [NameOf(f)] && Keys(path + [f]) == [] + Keys(path) + [KeyOf(f)]
  {
    hide Names, Keys, NameOf, KeyOf;
  }

  lemma EffectIs(path: seq<Selection>, f: Selection)
    ensures f.Field? ==> EffectOf(path, f, [], []) ==
                         OnField(Names(path + [f]), Keys(path + [f]), Signature(f.name, ArgumentMap(f.arguments)))
    ensures f.Spread? ==> EffectOf(path, f, [], []) == OnSpread(f.name)
    ensures f.Inline? ==> EffectOf(path, f, [], []) == OnInline
  {
    hide ArgumentMap, Names, Keys;
    NamesAppend(path, f);
  }

  /** The names with a dot between neighbours. */
  function DotJoin(names: seq<string>): string {
    if names == [] then "" else if |names| == 1 then names[0] else names[0] + "." + DotJoin(names[1..])
  }

  lemma {:induction false} DotJoinLast(names: seq<string>, last: string)
    requires names != []
    ensures DotJoin(names + [last]) == DotJoin(names) + "." + last
  {
    var all := names + [last];
    assert all[1..] == names[1..] + [last];
    if |names| > 1 { DotJoinLast(names[1..], last); } else { assert all[1..] == [last]; }
  }

  lemma {:induction false} DottedIsJoined(names: seq<string>)
    ensures Dotted(names) == DotJoin(names)
  {
    if |names| > 1 {
      var front := names[..|names| - 1];
      assert names == front + [names[|names| - 1]];
      DottedIsJoined(front);
      DotJoinLast(front, names[|names| - 1]);
    }
  }

  /** The dotted paths of the fields that stand there. */
  ghost predicate WrittenPath(sels: seq<Selection>, ds: seq<Definition>, path: string) {
    exists way, f :: Stands(sels, ds, way, f) && f.Field? && DotJoin(Names(way + [f])) == path
  }

  lemma PathIff(sels: seq<Selection>, ds: seq<Definition>, fragments: Fragments, path: string)
    requires Fits(ds, fragments)
    ensures IsFieldPath(NodesOf(sels), fragments, path) <==> WrittenPath(sels, ds, path)
  {
    hide Stands, Selects, EffectOf, NodesOf, Fits, ArgumentMap, Dotted, DotJoin, Names, Keys;
    forall names ensures Dotted(names) == DotJoin(names) { DottedIsJoined(names); }
    if IsFieldPath(NodesOf(sels), fragments, path) {
      var p, key, s :| Selects(NodesOf(sels), fragments, OnField(p, key, s)) && Dotted(p) == path;
      SelectsIff(sels, ds, fragments, OnField(p, key, s));
      var way, f :| Stands(sels, ds, way, f) && EffectOf(way, f, [], []) == OnField(p, key, s);
      EffectIs(way, f);
    }
    if WrittenPath(sels, ds, path) {
      var way, f :| Stands(sels, ds, way, f) && f.Field? && DotJoin(Names(way + [f])) == path;
      EffectIs(way, f);
      SelectsIff(sels, ds, fragments, EffectOf(way, f, [], []));
    }
  }

  // ----- response keys ------------------------------------------------------------------------

  /** The argument is given with a value that is written so. */
  ghost predicate Given(arguments: seq<Argument>, name: string, value: seq<Token>) {
    exists i :: 0 <= i < |arguments| && arguments[i].name == name && PrintValue(arguments[i].value) == value
  }

  ghost predicate SameArguments(a: seq<Argument>, b: seq<Argument>) {
    forall name, value :: Given(a, name, value) <==> Given(b, name, value)
  }

  lemma GivenLast(front: seq<Argument>, last: Argument, name: string, value: seq<Token>)
    ensures Given(front + [last], name, value) <==>
            Given(front, name, value) || (last.name == name && PrintValue(last.value) == value)
  {
    hide PrintValue;
    var a := front + [last];
    if Given(front, name, value) {
      var i :| 0 <= i < |front| && front[i].name == name && PrintValue(front[i].value) == value;
      assert a[i] == front[i];
    }
    assert a[|front|] == last;
  }

  lemma DistinctLast(front: seq<Argument>, last: Argument)
    requires Distinct(front + [last])
    ensures Distinct(front) && forall i :: 0 <= i < |front| ==> front[i].name != last.name
  {
    var a := front + [last];
    assert a[|front|] == last && forall i :: 0 <= i < |front| ==> a[i] == front[i];
  }

  lemma MapLast(front: seq<Argument>, last: Argument)
    ensures ArgumentMap(front + [last]) == ArgumentMap(front)[last.name := PrintValue(last.value)]
  {
    hide PrintValue;
    assert (front + [last])[..|front|] == front;
  }

  lemma {:induction false} GivenIff(a: seq<Argument>, name: string, value: seq<Token>)
    requires Distinct(a)
    ensures Given(a, name, value) <==> name in ArgumentMap(a) && ArgumentMap(a)[name] == value
    ensures name in ArgumentMap(a) ==> exists i :: 0 <= i < |a| && a[i].name == name
  {
    hide PrintValue, Given, Distinct;
    if a == [] {
      NothingGiven(name, value);
    } else {
      hide ArgumentMap;
      var front, last := a[..|a| - 1], a[|a| - 1];
      assert a == front + [last];
      DistinctLast(front, last);
      GivenIff(front, name, value);
      GivenLast(front, last, name, value);
      MapLast(front, last);
      if name in ArgumentMap(front) {
        var i :| 0 <= i < |front| && front[i].name == name;
        assert a[i] == front[i] && name != last.name;
      }
    }
  }

  lemma NothingGiven(name: string, value: seq<Token>)
    ensures !Given([], name, value)
  {
  }

  lemma SameArgumentsIff(a: seq<Argument>, b: seq<Argument>)
    requires Distinct(a) && Distinct(b)
    ensures ArgumentMap(a) == ArgumentMap(b) <==> SameArguments(a, b)
  {
    hide Given, ArgumentMap, Distinct;
    forall name, value
      ensures Given(a, name, value) <==> name in ArgumentMap(a) && ArgumentMap(a)[name] == value
      ensures Given(b, name, value) <==> name in ArgumentMap(b) && ArgumentMap(b)[name] == value
    {
      GivenIff(a, name, value);
      GivenIff(b, name, value);
    }
    if SameArguments(a, b) {
      forall name ensures name in ArgumentMap(a) <==> name in ArgumentMap(b) {
        if name in ArgumentMap(a) { assert Given(a, name, ArgumentMap(a)[name]); }
        if name in ArgumentMap(b) { assert Given(b, name, ArgumentMap(b)[name]); }
      }
      forall name | name in ArgumentMap(a) ensures ArgumentMap(a)[name] == ArgumentMap(b)[name] {
        assert Given(a, name, ArgumentMap(a)[name]);
      }
    }
  }

  lemma ChildrenOk(s: Selection, depth: nat)
    requires SelectionOk(s, depth)
    ensures !s.Spread? ==> forall i :: 0 <= i < |s.children| ==> SelectionOk(s.children[i], depth + 1)
    ensures s.Field? ==> Distinct(s.arguments)
  {
    assert !s.Spread? && s.children != [] ==> SetOk(s.children, depth + 1);
  }

  /** Wherever a field stands, its arguments are named apart. */
  lemma {:induction false} OccursOk(k: nat, sels: seq<Selection>, depth: nat, ds: seq<Definition>,
                                    path: seq<Selection>, f: Selection)
    requires Occurs(k, sels, ds, path, f) && AllOk(ds)
    requires forall i :: 0 <= i < |sels| ==> SelectionOk(sels[i], depth)
    ensures f.Field? ==> Distinct(f.arguments)
    decreases k
  {
    hide ArgumentOk, DirectivesOk, NameOk, VarDefsOk, Distinct, SelectionOk;
    var i :| 0 <= i < |sels| && OccursAt(k, sels[i], ds, path, f);
    assert SelectionOk(sels[i], depth);
    ChildrenOk(sels[i], depth);
    if !(path == [] && f == sels[i]) {
      match sels[i]
      case Field(_, _, _, _, children) => OccursOk(k - 1, children, depth + 1, ds, path[1..], f);
      case Inline(_, _, children) => OccursOk(k - 1, children, depth + 1, ds, path, f);
      case Spread(name, _) =>
        var j :| 0 <= j < |ds| && Defines(ds[j], name) && Occurs(k - 1, ds[j].selections, ds, path, f);
        assert DefinitionOk(ds[j]);
        OccursOk(k - 1, ds[j].selections, 0, ds, path, f);
    }
  }

  /** Fields under one key are the same field with the same arguments. */
  ghost predicate KeysAgreeWritten(sels: seq<Selection>, ds: seq<Definition>) {
    forall way, f, other, g ::
      Stands(sels, ds, way, f) && f.Field? && Stands(sels, ds, other, g) && g.Field? &&
        Keys(way + [f]) == Keys(other + [g])
      ==> f.name == g.name && SameArguments(f.arguments, g.arguments)
  }

  lemma AgreeWrittenIff(sels: seq<Selection>, ds: seq<Definition>, fragments: Fragments)
    requires Fits(ds, fragments) && AllOk(ds) && SetOk(sels, 0)
    ensures ResponsesAgree(NodesOf(sels), fragments) <==> KeysAgreeWritten(sels, ds)
  {
    hide Stands, Selects, EffectOf, NodesOf, Fits, ArgumentMap, Names, Keys, SameArguments, AllOk, SetOk;
    if ResponsesAgree(NodesOf(sels), fragments) {
      forall way, f, other, g | Stands(sels, ds, way, f) && f.Field? && Stands(sels, ds, other, g) && g.Field? &&
        Keys(way + [f]) == Keys(other + [g])
        ensures f.name == g.name && SameArguments(f.arguments, g.arguments)
      {
        StandsSelected(sels, ds, fragments, way, f);
        StandsSelected(sels, ds, fragments, other, g);
        SameArgumentsIff(f.arguments, g.arguments);
      }
    }
    if KeysAgreeWritten(sels, ds) {
      forall p, q, key, s, t | Selects(NodesOf(sels), fragments, OnField(p, key, s)) &&
        Selects(NodesOf(sels), fragments, OnField(q, key, t))
        ensures s == t
      {
        var way, f := SelectedStands(sels, ds, fragments, p, key, s);
        var other, g := SelectedStands(sels, ds, fragments, q, key, t);
        SameArgumentsIff(f.arguments, g.arguments);
      }
    }
  }

  lemma StandsSelected(sels: seq<Selection>, ds: seq<Definition>, fragments: Fragments, way: seq<Selection>,
                       f: Selection)
    requires Fits(ds, fragments) && AllOk(ds) && SetOk(sels, 0) && Stands(sels, ds, way, f) && f.Field?
    ensures Selects(NodesOf(sels), fragments, OnField(Names(way + [f]), Keys(way + [f]),
              Signature(f.name, ArgumentMap(f.arguments))))
    ensures Distinct(f.arguments)
  {
    hide Selects, EffectOf, NodesOf, Fits, ArgumentMap, Names, Keys, SelectionOk, Occurs, Distinct;
    EffectIs(way, f);
    SelectsIff(sels, ds, fragments, EffectOf(way, f, [], []));
    var k: nat :| Occurs(k, sels, ds, way, f);
    OccursOk(k, sels, 0, ds, way, f);
  }

  lemma SelectedStands(sels: seq<Selection>, ds: seq<Definition>, fragments: Fragments, p: seq<string>,
                       key: seq<string>, s: Signature) returns (way: seq<Selection>, f: Selection)
    requires Fits(ds, fragments) && AllOk(ds) && SetOk(sels, 0)
    requires Selects(NodesOf(sels), fragments, OnField(p, key, s))
    ensures Stands(sels, ds, way, f) && f.Field? && Names(way + [f]) == p && Keys(way + [f]) == key &&
            s == Signature(f.name, ArgumentMap(f.arguments)) && Distinct(f.arguments)
  {
    hide Selects, EffectOf, NodesOf, Fits, ArgumentMap, Names, Keys, SelectionOk, Occurs, Distinct;
    SelectsIff(sels, ds, fragments, OnField(p, key, s));
    way, f :| Stands(sels, ds, way, f) && EffectOf(way, f, [], []) == OnField(p, key, s);
    EffectIs(way, f);
    var k: nat :| Occurs(k, sels, ds, way, f);
    OccursOk(k, sels, 0, ds, way, f);
  }

  // ----- spreads ------------------------------------------------------------------------------

  /** A spread of this fragment stands below these selections. */
  ghost predicate Spreads(sels: seq<Selection>, ds: seq<Definition>, name: string) {
    exists way, f :: Stands(sels, ds, way, f) && f.Spread? && f.name == name
  }

  ghost predicate Defined(ds: seq<Definition>, name: string) { exists j :: 0 <= j < |ds| && Defines(ds[j], name) }

  /** The fragment leads back to itself. */
  ghost predicate Loops(ds: seq<Definition>, name: string) {
    exists j :: 0 <= j < |ds| && Defines(ds[j], name) && Spreads(ds[j].selections, ds, name)
  }

  lemma SpreadsIff(sels: seq<Selection>, ds: seq<Definition>, fragments: Fragments, name: string)
    requires Fits(ds, fragments)
    ensures Spreads(sels, ds, name) <==> Selects(NodesOf(sels), fragments, OnSpread(name))
  {
    hide Stands, Selects, EffectOf, NodesOf, Fits;
    SelectsIff(sels, ds, fragments, OnSpread(name));
    if Spreads(sels, ds, name) {
      var way, f :| Stands(sels, ds, way, f) && f.Spread? && f.name == name;
      EffectIs(way, f);
    }
    if Selects(NodesOf(sels), fragments, OnSpread(name)) {
      var way, f :| Stands(sels, ds, way, f) && EffectOf(way, f, [], []) == OnSpread(name);
      EffectIs(way, f);
    }
  }

  lemma DefinedIff(ds: seq<Definition>, fragments: Fragments, name: string)
    requires Fits(ds, fragments)
    ensures Defined(ds, name) <==> name in fragments
    ensures Loops(ds, name) <==> Recursive(fragments, name)
  {
    hide Spreads, NodesOf, Meets;
    if Loops(ds, name) {
      var j :| 0 <= j < |ds| && Defines(ds[j], name) && Spreads(ds[j].selections, ds, name);
      SpreadsIff(ds[j].selections, ds, fragments, name);
    }
    if Recursive(fragments, name) {
      var j :| 0 <= j < |ds| && Defines(ds[j], name);
      SpreadsIff(ds[j].selections, ds, fragments, name);
    }
  }

  /** Every spread leads to a fragment that is defined and does not lead back to itself. */
  ghost predicate SpreadsResolveWritten(sels: seq<Selection>, ds: seq<Definition>) {
    forall name :: Spreads(sels, ds, name) ==> Defined(ds, name) && !Loops(ds, name)
  }

  lemma ResolveWrittenIff(sels: seq<Selection>, ds: seq<Definition>, fragments: Fragments)
    requires Fits(ds, fragments)
    ensures SpreadsResolve(NodesOf(sels), fragments) <==> SpreadsResolveWritten(sels, ds)
  {
    hide Spreads, Selects, Defined, Loops, Recursive, Fits, NodesOf;
    forall name
      ensures Spreads(sels, ds, name) <==> Selects(NodesOf(sels), fragments, OnSpread(name))
      ensures (Defined(ds, name) <==> name in fragments) && (Loops(ds, name) <==> Recursive(fragments, name))
    {
      SpreadsIff(sels, ds, fragments, name);
      DefinedIff(ds, fragments, name);
    }
  }

  // ----- variables ----------------------------------------------------------------------------

  /** Every variable that the definition's tokens mention is declared by the operation. */
  ghost predicate MentionsDeclared(d: Definition, op: Definition) {
    forall x :: Mentions(PrintDefinition(d), x) ==> Declares(op, x)
  }

  /** So are those of every fragment that a spread leads to. */
  ghost predicate VariablesWritten(op: Definition, ds: seq<Definition>) {
    MentionsDeclared(op, op) &&
    forall j :: 0 <= j < |ds| && ds[j].Fragment? && Spreads(op.selections, ds, ds[j].name) ==>
      MentionsDeclared(ds[j], op)
  }

  lemma MentionsDeclaredIff(d: Definition, op: Definition)
    requires DefinitionOk(d) && op.Operation? && (d.Fragment? || d == op)
    ensures MentionsDeclared(d, op) <==> VarsOfDefinition(d) <= Declared(op.variables)
  {
    hide Mentions, PrintDefinition, DefinitionOk, VarsOfDefinition, Declared;
    forall x
      ensures Mentions(PrintDefinition(d), x) <==> x in VarsOfDefinition(d) || Declares(d, x)
      ensures Declares(op, x) <==> x in Declared(op.variables)
    {
      DefinitionMentions(d, x);
      DeclaresIff(op.variables, x);
    }
  }

  lemma VariablesWrittenIff(op: Definition, ds: seq<Definition>, doc: Document)
    requires op.Operation? && AllOk(ds) && DefinitionOk(op) && Fits(ds, doc.fragments) && VarsFit(ds, doc)
    ensures VariablesDeclared(OpOf(op), doc) <==> VariablesWritten(op, ds)
  {
    hide Spreads, Selects, MentionsDeclared, NodesOf, VarsOfDefinition, Declared, Required, DefinitionOk, Fits;
    MentionsDeclaredIff(op, op);
    forall j | 0 <= j < |ds| && ds[j].Fragment?
      ensures MentionsDeclared(ds[j], op) <==> VarsOfFragment(doc.vars, ds[j].name) <= Declared(op.variables)
      ensures Spreads(op.selections, ds, ds[j].name) <==>
              Selects(NodesOf(op.selections), doc.fragments, OnSpread(ds[j].name))
    {
      MentionsDeclaredIff(ds[j], op);
      SpreadsIff(op.selections, ds, doc.fragments, ds[j].name);
    }
    if VariablesWritten(op, ds) {
      forall f | Selects(NodesOf(op.selections), doc.fragments, OnSpread(f))
        ensures VarsOfFragment(doc.vars, f) <= Declared(op.variables)
      {
        DefinedIff(ds, doc.fragments, f);
        if f in doc.vars {
          var j :| 0 <= j < |ds| && Defines(ds[j], f);
        }
      }
    }
  }

  // ----- nesting ------------------------------------------------------------------------------

  /** Some selection stands within `n` fields and fragments. */
  ghost predicate Deep(k: nat, sels: seq<Selection>, ds: seq<Definition>, n: nat)
    decreases k, 1
  {
    exists i :: 0 <= i < |sels| && DeepAt(k, sels[i], ds, n)
  }

  ghost predicate DeepAt(k: nat, s: Selection, ds: seq<Definition>, n: nat)
    decreases k, 0
  {
    n == 0 ||
    (k > 0 &&
     match s
     case Field(_, _, _, _, children) => Deep(k - 1, children, ds, n - 1)
     case Inline(_, _, children) => Deep(k - 1, children, ds, n)
     case Spread(name, _) => exists j :: 0 <= j < |ds| && Defines(ds[j], name) &&
                                         Deep(k - 1, ds[j].selections, ds, n - 1))
  }

  ghost predicate AtDepth(vs: seq<Visit>, d: int) { exists j :: 0 <= j < |vs| && vs[j].depth == d }

  lemma AtDepthBoth(a: seq<Visit>, b: seq<Visit>, d: int)
    ensures AtDepth(a + b, d) <==> AtDepth(a, d) || AtDepth(b, d)
  {
    if AtDepth(a, d) { var j :| 0 <= j < |a| && a[j].depth == d; assert (a + b)[j] == a[j]; }
    if AtDepth(b, d) { var j :| 0 <= j < |b| && b[j].depth == d; assert (a + b)[|a| + j] == b[j]; }
  }

  lemma OneVisit(depth: nat, e: Effect, d: int)
    ensures AtDepth([Visit(depth, e)], d) <==> d == depth
  {
    assert [Visit(depth, e)][0].depth == depth;
  }

  lemma {:induction false} DepthIndex(nodes: seq<Node>, i: nat, prefix: seq<string>, active: set<string>,
                                      key: seq<string>, fragments: Fragments, d: int)
    requires Visits(nodes, prefix, active, key, fragments).Some? && i < |nodes|
    ensures VisitsAt(nodes[i], prefix, active, key, fragments).Some?
    ensures AtDepth(VisitsAt(nodes[i], prefix, active, key, fragments).value, d) ==>
              AtDepth(Visits(nodes, prefix, active, key, fragments).value, d)
    decreases nodes
  {
    hide VisitsAt, AtDepth;
    AtDepthBoth(VisitsAt(nodes[0], prefix, active, key, fragments).value,
                Visits(nodes[1..], prefix, active, key, fragments).value, d);
    if i > 0 { DepthIndex(nodes[1..], i - 1, prefix, active, key, fragments, d); }
  }

  lemma {:induction false} DeepIsVisited(k: nat, sels: seq<Selection>, ds: seq<Definition>, n: nat, prefix: seq<string>,
                                         active: set<string>, key: seq<string>, fragments: Fragments)
    requires Fits(ds, fragments) && Visits(NodesOf(sels), prefix, active, key, fragments).Some? && Deep(k, sels, ds, n)
    ensures AtDepth(Visits(NodesOf(sels), prefix, active, key, fragments).value, |prefix| + |active| + n)
    decreases k, 1
  {
    hide DeepAt, Visits, VisitsAt, AtDepth, NodeOf;
    var i :| 0 <= i < |sels| && DeepAt(k, sels[i], ds, n);
    DepthIndex(NodesOf(sels), i, prefix, active, key, fragments, |prefix| + |active| + n);
    DeepAtIsVisited(k, sels[i], ds, n, prefix, active, key, fragments);
  }

  lemma {:induction false} DeepAtIsVisited(k: nat, s: Selection, ds: seq<Definition>, n: nat, prefix: seq<string>,
                                           active: set<string>, key: seq<string>, fragments: Fragments)
    requires Fits(ds, fragments) && VisitsAt(NodeOf(s), prefix, active, key, fragments).Some? && DeepAt(k, s, ds, n)
    ensures AtDepth(VisitsAt(NodeOf(s), prefix, active, key, fragments).value, |prefix| + |active| + n)
    decreases k, 0
  {
    hide Visits, Deep, AtDepth, NodesOf, ArgumentMap;
    var depth := |prefix| + |active|;
    match s
    case Field(_, name, arguments, _, children) =>
      var own := OnField(prefix + [name], key + [KeyOf(s)], Signature(name, ArgumentMap(arguments)));
      var below := Visits(NodesOf(children), prefix + [name], active, key + [KeyOf(s)], fragments).value;
      AtDepthBoth([Visit(depth, own)], below, depth + n);
      OneVisit(depth, own, depth + n);
      if n > 0 { DeepIsVisited(k - 1, children, ds, n - 1, prefix + [name], active, key + [KeyOf(s)], fragments); }
    case Inline(_, _, children) =>
      AtDepthBoth([Visit(depth, OnInline)], Visits(NodesOf(children), prefix, active, key, fragments).value, depth + n);
      OneVisit(depth, OnInline, depth + n);
      if n > 0 { DeepIsVisited(k - 1, children, ds, n, prefix, active, key, fragments); }
    case Spread(name, _) =>
      var below := Visits(fragments[name], prefix, active + {name}, key, fragments).value;
      AtDepthBoth([Visit(depth, OnSpread(name))], below, depth + n);
      OneVisit(depth, OnSpread(name), depth + n);
      if n > 0 {
        var j :| 0 <= j < |ds| && Defines(ds[j], name) && Deep(k - 1, ds[j].selections, ds, n - 1);
        DeepIsVisited(k - 1, ds[j].selections, ds, n - 1, prefix, active + {name}, key, fragments);
      }
  }

  lemma {:induction false} VisitedIsDeep(sels: seq<Selection>, ds: seq<Definition>, d: int, prefix: seq<string>,
                                         active: set<string>, key: seq<string>, fragments: Fragments)
    returns (k: nat)
    requires Fits(ds, fragments) && Visits(NodesOf(sels), prefix, active, key, fragments).Some?
    requires AtDepth(Visits(NodesOf(sels), prefix, active, key, fragments).value, d)
    ensures d >= |prefix| + |active| && Deep(k, sels, ds, d - |prefix| - |active|)
    decreases fragments.Keys - active, sels
  {
    hide DeepAt, VisitsAt, AtDepth, NodeOf;
    FirstNodes(sels);
    var nodes := NodesOf(sels);
    if sels == [] { NothingAtDepth(d); }
    AtDepthBoth(VisitsAt(nodes[0], prefix, active, key, fragments).value,
                Visits(nodes[1..], prefix, active, key, fragments).value, d);
    if AtDepth(VisitsAt(nodes[0], prefix, active, key, fragments).value, d) {
      k := VisitedAtIsDeep(sels[0], ds, d, prefix, active, key, fragments);
    } else {
      k := VisitedIsDeep(sels[1..], ds, d, prefix, active, key, fragments);
      var i :| 0 <= i < |sels[1..]| && DeepAt(k, sels[1..][i], ds, d - |prefix| - |active|);
      assert sels[i + 1] == sels[1..][i];
    }
  }

  lemma NothingAtDepth(d: int)
    ensures !AtDepth([], d)
  {
  }

  lemma FirstNodes(sels: seq<Selection>)
    ensures sels == [] <==> NodesOf(sels) == []
    ensures sels != [] ==> NodesOf(sels)[0] == NodeOf(sels[0]) && NodesOf(sels)[1..] == NodesOf(sels[1..])
  {
    hide NodeOf, NodesOf;
  }

  lemma {:induction false} VisitedAtIsDeep(s: Selection, ds: seq<Definition>, d: int, prefix: seq<string>,
                                           active: set<string>, key: seq<string>, fragments: Fragments)
    returns (k: nat)
    requires Fits(ds, fragments) && VisitsAt(NodeOf(s), prefix, active, key, fragments).Some?
    requires AtDepth(VisitsAt(NodeOf(s), prefix, active, key, fragments).value, d)
    ensures d >= |prefix| + |active| && DeepAt(k, s, ds, d - |prefix| - |active|)
    decreases fragments.Keys - active, s
  {
    hide Visits, Deep, AtDepth, NodesOf, ArgumentMap;
    var depth := |prefix| + |active|;
    k := 0;
    if d != depth {
      var n: nat;
      match s
      case Field(_, name, arguments, _, children) =>
        var own := OnField(prefix + [name], key + [KeyOf(s)], Signature(name, ArgumentMap(arguments)));
        AtDepthBoth([Visit(depth, own)],
                    Visits(NodesOf(children), prefix + [name], active, key + [KeyOf(s)], fragments).value, d);
        OneVisit(depth, own, d);
        n := VisitedIsDeep(children, ds, d, prefix + [name], active, key + [KeyOf(s)], fragments);
        k := n + 1;
      case Inline(_, _, children) =>
        AtDepthBoth([Visit(depth, OnInline)], Visits(NodesOf(children), prefix, active, key, fragments).value, d);
        OneVisit(depth, OnInline, d);
        n := VisitedIsDeep(children, ds, d, prefix, active, key, fragments);
        k := n + 1;
      case Spread(name, _) =>
        AtDepthBoth([Visit(depth, OnSpread(name))],
                    Visits(fragments[name], prefix, active + {name}, key, fragments).value, d);
        OneVisit(depth, OnSpread(name), d);
        var j :| 0 <= j < |ds| && Defines(ds[j], name);
        assert name in fragments.Keys - active;
        n := VisitedIsDeep(ds[j].selections, ds, d, prefix, active + {name}, key, fragments);
        k := n + 1;
    }
  }

  ghost predicate NestingWritten(sels: seq<Selection>, ds: seq<Definition>) {
    forall k: nat, n: nat :: Deep(k, sels, ds, n) ==> n <= MAX_NESTING
  }

  lemma NestingWrittenIff(sels: seq<Selection>, ds: seq<Definition>, fragments: Fragments)
    requires Fits(ds, fragments) && VisitsOf(NodesOf(sels), fragments).Some?
    ensures NestingOk(NodesOf(sels), fragments) <==> NestingWritten(sels, ds)
  {
    hide Visits, Deep, NodesOf, Fits;
    var vs := VisitsOf(NodesOf(sels), fragments).value;
    if Shallow(vs) {
      forall k: nat, n: nat | Deep(k, sels, ds, n) ensures n <= MAX_NESTING {
        DeepIsVisited(k, sels, ds, n, [], {}, [], fragments);
        var j :| 0 <= j < |vs| && vs[j].depth == n;
      }
    }
    if NestingWritten(sels, ds) {
      forall j | 0 <= j < |vs| ensures vs[j].depth <= MAX_NESTING {
        assert AtDepth(vs, vs[j].depth);
        var k := VisitedIsDeep(sels, ds, vs[j].depth, [], {}, [], fragments);
      }
    }
  }

  // ----- counting -----------------------------------------------------------------------------

  /** What the first definition of this fragment selects. */
  function SelectedBy(ds: seq<Definition>, name: string): seq<Selection> {
    if ds == [] then []
    else if ds[0].Fragment? && ds[0].name == name then ds[0].selections
    else SelectedBy(ds[1..], name)
  }

  /** How many selections stand there, fragments counted as often as they are spread, to `k` levels. */
  function Count(k: nat, sels: seq<Selection>, ds: seq<Definition>): nat
    decreases k, sels
  {
    if sels == [] then 0 else CountAt(k, sels[0], ds) + Count(k, sels[1..], ds)
  }

  function CountAt(k: nat, s: Selection, ds: seq<Definition>): nat
    decreases k, s
  {
    1 +
    if k == 0 then 0
    else
      match s
      case Field(_, _, _, _, children) => Count(k - 1, children, ds)
      case Inline(_, _, children) => Count(k - 1, children, ds)
      case Spread(name, _) => Count(k - 1, SelectedBy(ds, name), ds)
  }

  lemma {:induction false} SelectedByFits(ds: seq<Definition>, name: string)
    ensures Defined(ds, name) ==> exists j :: 0 <= j < |ds| && Defines(ds[j], name) &&
                                              ds[j].selections == SelectedBy(ds, name)
  {
    if ds != [] && !Defines(ds[0], name) {
      SelectedByFits(ds[1..], name);
      if Defined(ds, name) {
        var j :| 0 <= j < |ds| && Defines(ds[j], name);
        assert Defines(ds[1..][j - 1], name);
        var i :| 0 <= i < |ds[1..]| && Defines(ds[1..][i], name) && ds[1..][i].selections == SelectedBy(ds[1..], name);
        assert ds[i + 1] == ds[1..][i];
      }
    } else if ds != [] {
      assert ds[0].selections == SelectedBy(ds, name);
    }
  }

  lemma SelectedByNodes(ds: seq<Definition>, fragments: Fragments, name: string)
    requires Fits(ds, fragments) && name in fragments
    ensures fragments[name] == NodesOf(SelectedBy(ds, name))
  {
    hide NodesOf, SelectedBy;
    SelectedByFits(ds, name);
    assert Defined(ds, name);
  }

  /** No more are counted than are visited. */
  lemma {:induction false} CountAtMost(k: nat, sels: seq<Selection>, ds: seq<Definition>, prefix: seq<string>,
                                       active: set<string>, key: seq<string>, fragments: Fragments)
    requires Fits(ds, fragments) && Visits(NodesOf(sels), prefix, active, key, fragments).Some?
    ensures Count(k, sels, ds) <= |Visits(NodesOf(sels), prefix, active, key, fragments).value|
    decreases k, sels
  {
    hide VisitsAt, CountAt, NodeOf, NodesOf, Fits;
    FirstNodes(sels);
    if sels != [] {
      CountAtAtMost(k, sels[0], ds, prefix, active, key, fragments);
      CountAtMost(k, sels[1..], ds, prefix, active, key, fragments);
    }
  }

  lemma {:induction false} CountAtAtMost(k: nat, s: Selection, ds: seq<Definition>, prefix: seq<string>,
                                         active: set<string>, key: seq<string>, fragments: Fragments)
    requires Fits(ds, fragments) && VisitsAt(NodeOf(s), prefix, active, key, fragments).Some?
    ensures CountAt(k, s, ds) <= |VisitsAt(NodeOf(s), prefix, active, key, fragments).value|
    decreases k, s
  {
    hide Visits, Count, NodesOf, ArgumentMap, Fits, SelectedBy;
    if k > 0 {
      match s
      case Field(_, name, _, _, children) =>
        CountAtMost(k - 1, children, ds, prefix + [name], active, key + [KeyOf(s)], fragments);
      case Inline(_, _, children) => CountAtMost(k - 1, children, ds, prefix, active, key, fragments);
      case Spread(name, _) =>
        SelectedByNodes(ds, fragments, name);
        CountAtMost(k - 1, SelectedBy(ds, name), ds, prefix, active + {name}, key, fragments);
    }
  }

  /** From some number of levels on all that are visited are counted. */
  lemma {:induction false} CountReaches(sels: seq<Selection>, ds: seq<Definition>, prefix: seq<string>,
                                        active: set<string>, key: seq<string>, fragments: Fragments) returns (k: nat)
    requires Fits(ds, fragments) && Visits(NodesOf(sels), prefix, active, key, fragments).Some?
    ensures forall m: nat :: m >= k ==>
              Count(m, sels, ds) == |Visits(NodesOf(sels), prefix, active, key, fragments).value|
    decreases fragments.Keys - active, sels
  {
    hide VisitsAt, CountAt, NodeOf, NodesOf, Fits;
    FirstNodes(sels);
    k := 0;
    if sels != [] {
      var i := CountAtReaches(sels[0], ds, prefix, active, key, fragments);
      var j := CountReaches(sels[1..], ds, prefix, active, key, fragments);
      k := if i < j then j else i;
    }
  }

  lemma {:induction false} CountAtReaches(s: Selection, ds: seq<Definition>, prefix: seq<string>,
                                          active: set<string>, key: seq<string>, fragments: Fragments) returns (k: nat)
    requires Fits(ds, fragments) && VisitsAt(NodeOf(s), prefix, active, key, fragments).Some?
    ensures forall m: nat :: m >= k ==>
              CountAt(m, s, ds) == |VisitsAt(NodeOf(s), prefix, active, key, fragments).value|
    decreases fragments.Keys - active, s
  {
    hide Visits, Count, NodesOf, ArgumentMap, Fits, SelectedBy;
    var n: nat;
    match s
    case Field(_, name, _, _, children) =>
      n := CountReaches(children, ds, prefix + [name], active, key + [KeyOf(s)], fragments);
      k := n + 1;
    case Inline(_, _, children) =>
      n := CountReaches(children, ds, prefix, active, key, fragments);
      k := n + 1;
    case Spread(name, _) =>
      SelectedByNodes(ds, fragments, name);
      assert name in fragments.Keys - active;
      n := CountReaches(SelectedBy(ds, name), ds, prefix, active + {name}, key, fragments);
      k := n + 1;
  }

  function TotalCount(k: nat, ops: seq<Definition>, ds: seq<Definition>): nat {
    if ops == [] then 0 else Count(k, ops[0].selections, ds) + TotalCount(k, ops[1..], ds)
  }

  ghost predicate AllExpand(ops: seq<Definition>, fragments: Fragments) {
    forall i :: 0 <= i < |ops| ==> VisitsOf(NodesOf(ops[i].selections), fragments).Some?
  }

  lemma {:induction false} TotalCounted(ops: seq<Definition>, kept: seq<Op>, ds: seq<Definition>, doc: Document)
    returns (k: nat)
    requires Fits(ds, doc.fragments) && AllExpand(ops, doc.fragments)
    requires |kept| == |ops| && forall i :: 0 <= i < |ops| ==> kept[i].nodes == NodesOf(ops[i].selections)
    ensures forall m: nat :: TotalCount(m, ops, ds) <= TotalSize(doc, kept)
    ensures forall m: nat :: m >= k ==> TotalCount(m, ops, ds) == TotalSize(doc, kept)
  {
    hide Visits, Count, NodesOf, Fits;
    k := 0;
    if ops != [] {
      var sels := ops[0].selections;
      var i := CountReaches(sels, ds, [], {}, [], doc.fragments);
      var j := TotalCounted(ops[1..], kept[1..], ds, doc);
      forall m: nat ensures Count(m, sels, ds) <= Size(NodesOf(sels), doc.fragments) {
        CountAtMost(m, sels, ds, [], {}, [], doc.fragments);
      }
      k := if i < j then j else i;
    }
  }

  // ----- requests -----------------------------------------------------------------------------

  /** Every spread resolves, nothing is nested too deeply, response keys agree, and variables are declared. */
  ghost predicate OperationFine(op: Definition, ds: seq<Definition>) {
    SpreadsResolveWritten(op.selections, ds) && NestingWritten(op.selections, ds) &&
    KeysAgreeWritten(op.selections, ds) && VariablesWritten(op, ds)
  }

  /** Variables that are not null and have no default are supplied. */
  predicate Supplied(op: Definition, provided: set<string>)
    requires op.Operation?
  {
    forall i :: 0 <= i < |op.variables| && op.variables[i].varType.nonNull && op.variables[i].default.None? ==>
      op.variables[i].name in provided
  }

  /** Every fragment is spread by some operation, directly or through other fragments. */
  ghost predicate AllSpread(ds: seq<Definition>) {
    forall j :: 0 <= j < |ds| && ds[j].Fragment? ==>
      exists i :: 0 <= i < |Operations(ds)| && Spreads(Operations(ds)[i].selections, ds, ds[j].name)
  }

  /** All operations together, and the chosen one once more, are within the count, fragments inlined. */
  ghost predicate CountWritten(ds: seq<Definition>, c: nat)
    requires c < |Operations(ds)|
  {
    forall k: nat :: TotalCount(k, Operations(ds), ds) + Count(k, Operations(ds)[c].selections, ds) <= MAX_NODES
  }

  ghost predicate Accepts(ds: seq<Definition>, c: nat, provided: set<string>)
    requires c < |Operations(ds)|
  {
    Supplied(Operations(ds)[c], provided) &&
    (forall i :: 0 <= i < |Operations(ds)| ==> OperationFine(Operations(ds)[i], ds)) &&
    AllSpread(ds) && CountWritten(ds, c)
  }

  lemma OpFineIff(op: Definition, ds: seq<Definition>, doc: Document)
    requires op.Operation? && op in ds && AllOk(ds) && Fits(ds, doc.fragments) && VarsFit(ds, doc)
    ensures OpFine(doc, OpOf(op)) <==> OperationFine(op, ds)
    ensures OpFine(doc, OpOf(op)) ==> VisitsOf(NodesOf(op.selections), doc.fragments).Some?
  {
    hide Fits, VarsFit, NodesOf, VisitsOf, SpreadsResolve, SpreadsResolveWritten, NestingOk, NestingWritten,
      ResponsesAgree,
      KeysAgreeWritten, VariablesDeclared, VariablesWritten, Required, Declared, VarsOfDefinition, SelectionOk,
      DirectivesOk;
    assert DefinitionOk(op);
    ResolveWrittenIff(op.selections, ds, doc.fragments);
    ResolvesIff(NodesOf(op.selections), doc.fragments);
    if VisitsOf(NodesOf(op.selections), doc.fragments).Some? {
      NestingWrittenIff(op.selections, ds, doc.fragments);
    }
    AgreeWrittenIff(op.selections, ds, doc.fragments);
    VariablesWrittenIff(op, ds, doc);
  }

  lemma SuppliedIff(op: Definition, provided: set<string>)
    requires op.Operation?
    ensures Required(op.variables) <= provided <==> Supplied(op, provided)
  {
    hide Required;
    forall x ensures x in Required(op.variables) <==>
                     exists i :: 0 <= i < |op.variables| && op.variables[i].name == x &&
                                 op.variables[i].varType.nonNull && op.variables[i].default.None? {
      DeclaresIff(op.variables, x);
    }
  }

  ghost predicate AllFine(doc: Document) {
    forall i :: 0 <= i < |doc.operations| ==> OpFine(doc, doc.operations[i])
  }

  lemma AllFineIff(ds: seq<Definition>, doc: Document)
    requires AllOk(ds) && Fits(ds, doc.fragments) && VarsFit(ds, doc) && OperationsFit(ds, doc.operations)
    ensures AllFine(doc) <==> forall i :: 0 <= i < |Operations(ds)| ==> OperationFine(Operations(ds)[i], ds)
    ensures AllFine(doc) ==> AllExpand(Operations(ds), doc.fragments)
  {
    hide Fits, VarsFit, OpFine, OperationFine, AllOk, VisitsOf, NodesOf, OpOf;
    forall i | 0 <= i < |Operations(ds)|
      ensures OpFine(doc, doc.operations[i]) <==> OperationFine(Operations(ds)[i], ds)
      ensures OpFine(doc, doc.operations[i]) ==>
                VisitsOf(NodesOf(Operations(ds)[i].selections), doc.fragments).Some?
    {
      OpFineIff(Operations(ds)[i], ds, doc);
    }
    if AllFine(doc) {
      forall i | 0 <= i < |Operations(ds)|
        ensures VisitsOf(NodesOf(Operations(ds)[i].selections), doc.fragments).Some?
      {
        assert OpFine(doc, doc.operations[i]);
      }
    }
  }

  lemma AllSpreadIff(ds: seq<Definition>, doc: Document)
    requires Fits(ds, doc.fragments) && OperationsFit(ds, doc.operations)
    requires forall i :: 0 <= i < |Operations(ds)| ==> OperationFine(Operations(ds)[i], ds)
    ensures (forall f :: f in doc.fragments <==> UsedIn(doc, doc.operations, f)) <==> AllSpread(ds)
  {
    hide Spreads, Selects, NodesOf, NestingWritten, KeysAgreeWritten, VariablesWritten, Loops, Required, Declared,
      VarsOfDefinition, Operations;
    var ops := Operations(ds);
    forall f ensures UsedIn(doc, doc.operations, f) <==> SpreadBy(ops, ds, f) {
      UsedIff(ds, doc, f);
    }
    forall f ensures f in doc.fragments <==> Defined(ds, f) { DefinedIff(ds, doc.fragments, f); }
    forall f | SpreadBy(ops, ds, f) ensures Defined(ds, f) {
      var i :| 0 <= i < |ops| && Spreads(ops[i].selections, ds, f);
      assert OperationFine(ops[i], ds);
    }
    if AllSpread(ds) {
      forall f | Defined(ds, f) ensures SpreadBy(ops, ds, f) {
        var j :| 0 <= j < |ds| && Defines(ds[j], f);
      }
    }
    if forall f :: Defined(ds, f) ==> SpreadBy(ops, ds, f) {
      forall j | 0 <= j < |ds| && ds[j].Fragment?
        ensures exists i :: 0 <= i < |ops| && Spreads(ops[i].selections, ds, ds[j].name)
      {
        assert Defines(ds[j], ds[j].name) && Defined(ds, ds[j].name);
      }
    }
  }

  ghost predicate SpreadBy(ops: seq<Definition>, ds: seq<Definition>, f: string) {
    exists i :: 0 <= i < |ops| && Spreads(ops[i].selections, ds, f)
  }

  lemma UsedIff(ds: seq<Definition>, doc: Document, f: string)
    requires Fits(ds, doc.fragments) && OperationsFit(ds, doc.operations)
    ensures UsedIn(doc, doc.operations, f) <==> SpreadBy(Operations(ds), ds, f)
  {
    hide Spreads, Selects, NodesOf, Fits, Required, Declared, VarsOfDefinition, Operations;
    var ops := Operations(ds);
    forall i | 0 <= i < |ops|
      ensures Spreads(ops[i].selections, ds, f) <==> Selects(doc.operations[i].nodes, doc.fragments, OnSpread(f))
    {
      SpreadsIff(ops[i].selections, ds, doc.fragments, f);
    }
  }

  lemma CountWrittenIff(ds: seq<Definition>, doc: Document, c: nat)
    requires Fits(ds, doc.fragments) && OperationsFit(ds, doc.operations) && c < |Operations(ds)|
    requires AllExpand(Operations(ds), doc.fragments)
    ensures CountOk(doc, c) <==> CountWritten(ds, c)
  {
    hide Fits, NodesOf, Visits, Count, TotalCount, TotalSize, Required, Declared, VarsOfDefinition, Operations;
    var ops := Operations(ds);
    var sels := ops[c].selections;
    var i := TotalCounted(ops, doc.operations, ds, doc);
    var j := CountReaches(sels, ds, [], {}, [], doc.fragments);
    forall m: nat ensures Count(m, sels, ds) <= Size(NodesOf(sels), doc.fragments) {
      CountAtMost(m, sels, ds, [], {}, [], doc.fragments);
    }
    var k := if i < j then j else i;
    assert TotalCount(k, ops, ds) == TotalSize(doc, doc.operations) &&
      Count(k, sels, ds) == Size(NodesOf(sels), doc.fragments);
  }

  /**
    A request is accepted exactly as its written document says, and its fields are the dotted
    paths of the chosen operation, spreads replaced by what their fragments select.
  */
  lemma SelectWritten(ds: seq<Definition>, c: nat, provided: set<string>)
    requires DocumentOk(ds, {}) && c < |Operations(ds)|
    ensures c < |DocumentOf(ds).operations|
    ensures Select(DocumentOf(ds), c, provided).Some? <==> Accepts(ds, c, provided)
    ensures var op := Operations(ds)[c];
            match Select(DocumentOf(ds), c, provided)
            case Some(r) => r.kind == op.kind && r.title == op.title &&
                            forall path :: path in r.fields <==> WrittenPath(op.selections, ds, path)
            case None => true
  {
    hide Fits, VarsFit, NodesOf, Select, OpFine, OperationFine, AllSpread, CountOk, CountWritten, Supplied, UsedIn,
      DefinitionOk, IsFieldPath, WrittenPath, Required, Declared, VarsOfDefinition, ResponsesAgree, VariablesDeclared,
      Recursive, DocumentOf, Operations;
    DocumentParts(ds, {});
    DocumentKeeps(ds);
    var doc, op := DocumentOf(ds), Operations(ds)[c];
    AcceptedIff(doc, c, provided);
    SuppliedIff(op, provided);
    AllFineIff(ds, doc);
    if AllFine(doc) {
      AllSpreadIff(ds, doc);
      CountWrittenIff(ds, doc, c);
    }
    if Select(doc, c, provided).Some? {
      AcceptedMeans(doc, c, provided);
      forall path ensures IsFieldPath(NodesOf(op.selections), doc.fragments, path) <==>
                          WrittenPath(op.selections, ds, path) {
        PathIff(op.selections, ds, doc.fragments, path);
      }
    }
  }

  // ----- from tokens --------------------------------------------------------------------------

  /** Operations have distinct names, and one without a name is alone. */
  ghost predicate TitlesWritten(ds: seq<Definition>) {
    var ops := Operations(ds);
    ops != [] && (forall i, j :: 0 <= i < j < |ops| ==> ops[i].title != ops[j].title) &&
    (|ops| > 1 ==> forall i :: 0 <= i < |ops| ==> ops[i].title.Some?)
  }

  predicate Wanted(title: Option<string>, wanted: Option<string>) { wanted.None? || title == wanted }

  /** The only operation with the wanted name, or the only one at all. */
  ghost predicate ChosenWritten(ds: seq<Definition>, wanted: Option<string>, c: nat) {
    var ops := Operations(ds);
    c < |ops| && forall i :: 0 <= i < |ops| ==> (Wanted(ops[i].title, wanted) <==> i == c)
  }

  /** The tokens are a document whose chosen operation is accepted. */
  ghost predicate Requests(tokens: seq<Token>, wanted: Option<string>, provided: set<string>, ds: seq<Definition>,
                           c: nat) {
    WrittenAll(ds, tokens) && DocumentOk(ds, {}) && TitlesWritten(ds) && ChosenWritten(ds, wanted, c) &&
    Accepts(ds, c, provided)
  }

  ghost predicate SameTitles(ds: seq<Definition>, ops: seq<Op>) {
    |ops| == |ds| && forall i :: 0 <= i < |ops| ==> ds[i].Operation? && ops[i].title == ds[i].title
  }

  lemma TitlesFit(ds: seq<Definition>, ops: seq<Op>)
    requires OperationsFit(ds, ops)
    ensures SameTitles(Operations(ds), ops)
  {
    hide NodesOf, Required, Declared, VarsOfDefinition, OpOf;
    var written := Operations(ds);
    forall i | 0 <= i < |ops| ensures ops[i].title == written[i].title {
      assert ops[i] == OpOf(written[i]);
      TitleKept(written[i]);
    }
  }

  lemma ChosenIff(ds: seq<Definition>, ops: seq<Op>, wanted: Option<string>, c: nat)
    requires OperationsFit(ds, ops)
    ensures IsChosen(ops, wanted, c) <==> ChosenWritten(ds, wanted, c)
    ensures TitlesOk(ops) <==> TitlesWritten(ds)
  {
    TitlesFit(ds, ops);
    hide OperationsFit;
    forall i | 0 <= i < |ops| ensures Matches(ops[i], wanted) <==> Wanted(Operations(ds)[i].title, wanted) {}
  }

  lemma TitleKept(d: Definition)
    requires d.Operation?
    ensures OpOf(d).title == d.title
  {
  }

  /**
    What the tokens of a request select, for the wanted operation and the supplied variables:
    they are accepted exactly if they are written so, and the fields are those written.
  */
  method SelectFromTokens(tokens: seq<Token>, wanted: Option<string>, provided: set<string>)
    returns (r: Option<Selected>)
    ensures r.Some? <==> exists ds, c: nat :: Requests(tokens, wanted, provided, ds, c)
    ensures r.Some? ==> forall ds, c: nat :: Requests(tokens, wanted, provided, ds, c) ==>
              r.value.kind == Operations(ds)[c].kind && r.value.title == Operations(ds)[c].title &&
              forall path :: path in r.value.fields <==> WrittenPath(Operations(ds)[c].selections, ds, path)
  {
    hide ReadDefinitions, DocumentOf, TitlesOk, Select, IsChosen, Accepts, WrittenPath, Operations, OperationsFit,
      TitlesWritten, ChosenWritten, WrittenAll, DocumentOk;
    forall ds ensures ReadDefinitions(tokens, {}) == Some(ds) <==> WrittenAll(ds, tokens) && DocumentOk(ds, {}) {
      DocumentIff(tokens, ds, {});
    }
    var parser := new Parser(tokens);
    var doc := parser.ParseDocument();
    if doc.None? { return None; }
    ghost var ds := ReadDefinitions(tokens, {}).value;
    Kept(ds, wanted);
    var ok := TitlesDistinct(doc.value.operations);
    if !ok { return None; }
    var c := FindOperation(doc.value.operations, wanted);
    if c.None? { return None; }
    var selector := new Selector(doc.value);
    InRange(doc.value.operations, wanted, c.value);
    InRangeWritten(ds, wanted, c.value);
    r := selector.Choose(c.value, provided);
    SelectWritten(ds, c.value, provided);
    forall d: nat | ChosenWritten(ds, wanted, d) ensures d == c.value {
      ChosenOnce(doc.value.operations, wanted, c.value, d);
    }
    if r.Some? { assert Requests(tokens, wanted, provided, ds, c.value); }
  }

  lemma Kept(ds: seq<Definition>, wanted: Option<string>)
    requires DocumentOk(ds, {})
    ensures TitlesOk(DocumentOf(ds).operations) <==> TitlesWritten(ds)
    ensures forall c: nat :: IsChosen(DocumentOf(ds).operations, wanted, c) <==> ChosenWritten(ds, wanted, c)
  {
    hide DocumentOf, DocumentOk, OperationsFit, TitlesOk, TitlesWritten, IsChosen, ChosenWritten;
    DocumentParts(ds, {});
    DocumentKeeps(ds);
    ChosenIff(ds, DocumentOf(ds).operations, wanted, 0);
    forall c: nat ensures IsChosen(DocumentOf(ds).operations, wanted, c) <==> ChosenWritten(ds, wanted, c) {
      ChosenIff(ds, DocumentOf(ds).operations, wanted, c);
    }
  }

  lemma InRange(ops: seq<Op>, wanted: Option<string>, c: nat)
    requires IsChosen(ops, wanted, c)
    ensures c < |ops|
  {
  }

  lemma InRangeWritten(ds: seq<Definition>, wanted: Option<string>, c: nat)
    requires ChosenWritten(ds, wanted, c)
    ensures c < |Operations(ds)|
  {
  }
}

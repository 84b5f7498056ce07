/**
  How types, variable definitions and whole documents are written as tokens, and that the
  readers accept exactly what is written so: sections 2.2 to 2.12 of the GraphQL
  specification of October 2021, without type system definitions.
*/
module GraphqlPrinting {
  import opened Wrappers
  import opened GraphqlSyntax
  import opened GraphqlGrammar
  import opened GraphqlSelections
  import opened GraphqlDefinitions

  // ----- types --------------------------------------------------------------------------------

  function PrintBang(nonNull: bool): seq<Token> { if nonNull then [Bang] else [] }

  function PrintType(t: TypeRef): (r: seq<Token>)
    ensures r != []
  {
    match t
    case NamedType(name, nonNull) => [Name(name)] + PrintBang(nonNull)
    case ListType(inner, nonNull) => [BracketL] + (PrintType(inner) + ([BracketR] + PrintBang(nonNull)))
  }

  predicate TypeOk(t: TypeRef, depth: nat) {
    depth <= MAX_TYPE_DEPTH &&
    match t
    case NamedType(name, _) => NameOk(name)
    case ListType(inner, _) => TypeOk(inner, depth + 1)
  }

  lemma BangSound(s: seq<Token>)
    ensures s == PrintBang(StartsWith(s, Bang)) + SkipBang(s)
  {
  }

  lemma BangComplete(nonNull: bool, rest: seq<Token>)
    requires !StartsWith(rest, Bang)
    ensures StartsWith(PrintBang(nonNull) + rest, Bang) == nonNull && SkipBang(PrintBang(nonNull) + rest) == rest
  {
    var s := PrintBang(nonNull) + rest;
    if nonNull { assert s[1..] == rest; } else { assert s == rest; }
  }

  lemma {:induction false} TypeSound(s: seq<Token>, depth: nat)
    requires ReadType(s, depth).Some?
    ensures var p := ReadType(s, depth).value; s == PrintType(p.tree) + p.rest && TypeOk(p.tree, depth)
    decreases |s|
  {
    hide SkipBang, PrintBang;
    if StartsWith(s, BracketL) {
      TypeSound(s[1..], depth + 1);
      var p := ReadType(s[1..], depth + 1).value;
      var after := p.rest[1..];
      BangSound(after);
      assert p.rest == [BracketR] + after && s == [BracketL] + s[1..];
      Regrouped([BracketL], PrintType(p.tree), [BracketR], PrintBang(StartsWith(after, Bang)), SkipBang(after));
    } else {
      NameSound(s);
      BangSound(ReadName(s).value.rest);
      Appended([s[0]], PrintBang(StartsWith(s[1..], Bang)), SkipBang(s[1..]));
    }
  }

  lemma Appended(a: seq<Token>, b: seq<Token>, c: seq<Token>)
    ensures a + (b + c) == (a + b) + c
  {
  }

  lemma Regrouped(a: seq<Token>, b: seq<Token>, c: seq<Token>, d: seq<Token>, e: seq<Token>)
    ensures a + (b + (c + (d + e))) == (a + (b + (c + d))) + e
  {
  }

  lemma {:induction false} TypeComplete(t: TypeRef, rest: seq<Token>, depth: nat)
    requires TypeOk(t, depth) && !StartsWith(rest, Bang)
    ensures ReadType(PrintType(t) + rest, depth) == Some(Parsed(t, rest))
    decreases t
  {
    hide SkipBang, PrintBang;
    match t
    case NamedType(name, nonNull) =>
      Appended([Name(name)], PrintBang(nonNull), rest);
      NameComplete(name, PrintBang(nonNull) + rest);
      BangComplete(nonNull, rest);
    case ListType(inner, nonNull) =>
      var after := PrintBang(nonNull) + rest;
      Regrouped([BracketL], PrintType(inner), [BracketR], PrintBang(nonNull), rest);
      TypeComplete(inner, [BracketR] + after, depth + 1);
      BangComplete(nonNull, rest);
      Tail(BracketL, PrintType(inner), [BracketR] + after);
      assert ([BracketR] + after)[1..] == after;
  }

  // ----- variables ----------------------------------------------------------------------------

  function PrintDefault(default: Option<Value>): seq<Token> {
    if default.Some? then [Equals] + PrintValue(default.value) else []
  }

  function PrintVarDef(v: VarDef): (r: seq<Token>)
    ensures StartsWith(r, Dollar)
  {
    [Dollar, Name(v.name), Colon] + (PrintType(v.varType) + (PrintDefault(v.default) + PrintDirectives(v.directives)))
  }

  function PrintVarDefs(vs: seq<VarDef>): seq<Token> {
    if vs == [] then [] else PrintVarDef(vs[0]) + PrintVarDefs(vs[1..])
  }

  function PrintVariables(vs: seq<VarDef>): seq<Token> {
    if vs == [] then [] else [ParenL] + (PrintVarDefs(vs) + [ParenR])
  }

  predicate VarDefOk(v: VarDef) {
    NameOk(v.name) && TypeOk(v.varType, 0) && (v.default.Some? ==> ValueOk(v.default.value, 0, true)) &&
      DirectivesOk(v.directives)
  }

  predicate VarDefsOk(vs: seq<VarDef>, seen: set<string>) {
    vs == [] || (VarDefOk(vs[0]) && vs[0].name !in seen && VarDefsOk(vs[1..], seen + {vs[0].name}))
  }

  lemma DefaultSound(s: seq<Token>)
    requires ReadDefault(s).Some?
    ensures var p := ReadDefault(s).value;
            s == PrintDefault(p.tree) + p.rest && (p.tree.Some? ==> ValueOk(p.tree.value, 0, true))
  {
    hide PrintValue, ReadValue, ValueOk;
    if StartsWith(s, Equals) {
      ValueSound(s[1..], 0, true);
      assert s == [Equals] + s[1..];
    }
  }

  lemma DefaultComplete(default: Option<Value>, rest: seq<Token>)
    requires default.Some? ==> ValueOk(default.value, 0, true)
    requires !StartsWith(rest, Equals)
    ensures ReadDefault(PrintDefault(default) + rest) == Some(Parsed(default, rest))
  {
    hide PrintValue, ReadValue, ValueOk;
    if default.Some? {
      ValueComplete(default.value, rest, 0, true);
      Tail(Equals, PrintValue(default.value), rest);
    } else {
      assert [] + rest == rest;
    }
  }

  lemma VarDefThen(v: VarDef, rest: seq<Token>)
    ensures PrintVarDef(v) + rest ==
            [Dollar] + ([Name(v.name)] + ([Colon] +
              (PrintType(v.varType) + (PrintDefault(v.default) + (PrintDirectives(v.directives) + rest)))))
  {
    hide PrintType, PrintDefault, PrintDirectives;
    var a, b, c := PrintType(v.varType), PrintDefault(v.default), PrintDirectives(v.directives);
    assert [Dollar, Name(v.name), Colon] + (a + (b + c)) + rest == [Dollar] +
      ([Name(v.name)] + ([Colon] + (a + (b + (c + rest)))));
  }

  lemma VarDefSound(s: seq<Token>)
    requires ReadVarDef(s).Some?
    ensures var p := ReadVarDef(s).value; s == PrintVarDef(p.tree) + p.rest && VarDefOk(p.tree)
  {
    hide ReadType, ReadDefault, ReadDirectives, PrintVarDef, PrintType, PrintDefault, PrintDirectives, TypeOk, ValueOk,
      DirectivesOk;
    assert s == [Dollar] + s[1..];
    NameSound(s[1..]);
    var named := ReadName(s[1..]).value.rest;
    assert named == [Colon] + named[1..];
    TypeSound(named[1..], 0);
    var typed := ReadType(named[1..], 0).value.rest;
    DefaultSound(typed);
    DirectivesSound(ReadDefault(typed).value.rest);
    var p := ReadVarDef(s).value;
    VarDefThen(p.tree, p.rest);
  }

  /** What may follow a variable definition. */
  predicate EndsVarDef(rest: seq<Token>) { StartsWith(rest, Dollar) || StartsWith(rest, ParenR) }

  lemma VarDefComplete(v: VarDef, rest: seq<Token>)
    requires VarDefOk(v) && EndsVarDef(rest)
    ensures ReadVarDef(PrintVarDef(v) + rest) == Some(Parsed(v, rest))
  {
    hide ReadType, ReadDefault, ReadDirectives, PrintVarDef, PrintType, PrintDefault, PrintDirectives, TypeOk, ValueOk,
      DirectivesOk, ReadName;
    VarDefThen(v, rest);
    DirectivesComplete(v.directives, rest);
    PrintedDirectivesStart(v.directives, rest);
    var directed := PrintDirectives(v.directives) + rest;
    DefaultComplete(v.default, directed);
    var defaulted := PrintDefault(v.default) + directed;
    DefaultStarts(v.default, directed);
    TypeComplete(v.varType, defaulted, 0);
    var typed := PrintType(v.varType) + defaulted;
    NameComplete(v.name, [Colon] + typed);
    VarDefParts(v, typed, defaulted, directed, rest);
  }

  /** The parts of a variable definition, read one after the other. */
  lemma VarDefParts(v: VarDef, typed: seq<Token>, defaulted: seq<Token>, directed: seq<Token>, rest: seq<Token>)
    requires ReadName([Name(v.name)] + ([Colon] + typed)) == Some(Parsed(v.name, [Colon] + typed))
    requires ReadType(typed, 0) == Some(Parsed(v.varType, defaulted))
    requires ReadDefault(defaulted) == Some(Parsed(v.default, directed))
    requires ReadDirectives(directed) == Some(Parsed(v.directives, rest))
    ensures ReadVarDef([Dollar] + ([Name(v.name)] + ([Colon] + typed))) == Some(Parsed(v, rest))
  {
    hide ReadName, ReadType, ReadDefault, ReadDirectives;
    assert ([Colon] + typed)[1..] == typed;
    assert ([Dollar] + ([Name(v.name)] + ([Colon] + typed)))[1..] == [Name(v.name)] + ([Colon] + typed);
  }

  lemma DefaultStarts(default: Option<Value>, rest: seq<Token>)
    requires !StartsWith(rest, Bang)
    ensures !StartsWith(PrintDefault(default) + rest, Bang)
  {
    hide PrintValue;
    if default.None? { assert [] + rest == rest; }
  }

  lemma {:induction false} VarDefsSound(s: seq<Token>, seen: set<string>)
    requires ReadVarDefs(s, seen).Some?
    ensures var p := ReadVarDefs(s, seen).value; s == PrintVarDefs(p.tree) + [ParenR] + p.rest &&
                                                 VarDefsOk(p.tree, seen)
    decreases |s|
  {
    hide ReadVarDef, PrintVarDef, VarDefOk;
    if StartsWith(s, ParenR) {
      assert s == [ParenR] + s[1..];
    } else {
      VarDefSound(s);
      var v := ReadVarDef(s).value;
      VarDefsSound(v.rest, seen + {v.tree.name});
      var more := ReadVarDefs(v.rest, seen + {v.tree.name}).value;
      assert ([v.tree] + more.tree)[1..] == more.tree;
      Joined(s, PrintVarDef(v.tree), v.rest, PrintVarDefs(more.tree), ParenR, more.rest);
    }
  }

  lemma {:induction false} VarDefsComplete(vs: seq<VarDef>, rest: seq<Token>, seen: set<string>)
    requires VarDefsOk(vs, seen)
    ensures ReadVarDefs(PrintVarDefs(vs) + [ParenR] + rest, seen) == Some(Parsed(vs, rest))
    decreases |vs|
  {
    hide ReadVarDef, PrintVarDef, VarDefOk;
    if vs == [] {
      assert PrintVarDefs(vs) + [ParenR] + rest == [ParenR] + rest && ([ParenR] + rest)[1..] == rest;
    } else {
      var after := PrintVarDefs(vs[1..]) + [ParenR] + rest;
      Joined(PrintVarDef(vs[0]) + after, PrintVarDef(vs[0]), after, PrintVarDefs(vs[1..]), ParenR, rest);
      assert vs == [vs[0]] + vs[1..];
      assert EndsVarDef(after);
      VarDefComplete(vs[0], after);
      VarDefsComplete(vs[1..], rest, seen + {vs[0].name});
    }
  }

  lemma VariablesSound(s: seq<Token>)
    requires ReadVariables(s).Some?
    ensures var p := ReadVariables(s).value; s == PrintVariables(p.tree) + p.rest && VarDefsOk(p.tree, {})
  {
    hide ReadVarDefs, PrintVarDefs;
    if StartsWith(s, ParenL) {
      VarDefsSound(s[1..], {});
      var p := ReadVariables(s).value;
      assert s == [ParenL] + s[1..] == [ParenL] + (PrintVarDefs(p.tree) + [ParenR]) + p.rest;
    }
  }

  lemma VariablesComplete(vs: seq<VarDef>, rest: seq<Token>)
    requires VarDefsOk(vs, {}) && !StartsWith(rest, ParenL)
    ensures ReadVariables(PrintVariables(vs) + rest) == Some(Parsed(vs, rest))
  {
    hide ReadVarDefs, PrintVarDefs;
    if vs == [] {
      assert PrintVariables(vs) + rest == rest;
    } else {
      VarDefsComplete(vs, rest, {});
      Tail(ParenL, PrintVarDefs(vs) + [ParenR], rest);
    }
  }

  // ----- definitions --------------------------------------------------------------------------

  function KindToken(kind: Kind): Token {
    match kind
    case Query => Name("query")
    case Mutation => Name("mutation")
    case Subscription => Name("subscription")
  }

  function PrintTitle(title: Option<string>): seq<Token> { if title.Some? then [Name(title.value)] else [] }

  function PrintDefinition(d: Definition): seq<Token> {
    match d
    case Fragment(name, condition, directives, selections) =>
      [FRAGMENT] + ([Name(name)] + ([ON] + ([Name(condition)] + (PrintDirectives(directives) + PrintSet(selections)))))
    case Operation(kind, title, variables, directives, selections) =>
      [KindToken(kind)] + (PrintTitle(title) +
        (PrintVariables(variables) + (PrintDirectives(directives) + PrintSet(selections))))
  }

  predicate DefinitionOk(d: Definition) {
    DirectivesOk(d.directives) && SetOk(d.selections, 0) &&
    match d
    case Fragment(name, condition, _, _) => NameOk(name) && Name(name) != ON && NameOk(condition)
    case Operation(_, title, variables, _, _) => (title.Some? ==> NameOk(title.value)) && VarDefsOk(variables, {})
  }

  /** An anonymous query without variables and directives may be written as its selections alone. */
  predicate Brief(d: Definition) { d.Operation? && d == Operation(Query, None, [], [], d.selections) }

  predicate Written(d: Definition, s: seq<Token>) {
    s == PrintDefinition(d) || (Brief(d) && s == PrintSet(d.selections))
  }

  lemma FragmentThen(d: Definition, rest: seq<Token>)
    requires d.Fragment?
    ensures PrintDefinition(d) + rest ==
            [FRAGMENT] + ([Name(d.name)] +
              ([ON] + ([Name(d.condition)] + (PrintDirectives(d.directives) + (PrintSet(d.selections) + rest)))))
  {
    hide PrintDirectives, PrintSet;
    var a, b := PrintDirectives(d.directives), PrintSet(d.selections);
    assert a + b + rest == a + (b + rest);
    var x, y, z := [Name(d.name)], [Name(d.condition)], [FRAGMENT];
    assert z + (x + ([ON] + (y + (a + b)))) + rest == z + (x + ([ON] + (y + (a + b + rest))));
  }

  lemma OperationThen(d: Definition, rest: seq<Token>)
    requires d.Operation?
    ensures PrintDefinition(d) + rest ==
            [KindToken(d.kind)] + (PrintTitle(d.title) + (PrintVariables(d.variables) +
              (PrintDirectives(d.directives) + (PrintSet(d.selections) + rest))))
  {
    hide PrintDirectives, PrintSet, PrintVariables, PrintTitle, KindToken;
    var a, b, c, e := PrintTitle(d.title), PrintVariables(d.variables), PrintDirectives(d.directives),
      PrintSet(d.selections);
    assert [KindToken(d.kind)] + (a + (b + (c + e))) + rest == [KindToken(d.kind)] + (a + (b + (c + (e + rest))));
  }

  lemma FragmentSound(s: seq<Token>)
    requires ReadFragment(s).Some?
    ensures var p := ReadFragment(s).value; [FRAGMENT] + s == PrintDefinition(p.tree) + p.rest && DefinitionOk(p.tree)
  {
    hide ReadDirectives, ReadSet, PrintDefinition, PrintDirectives, PrintSet, DirectivesOk, SetOk;
    NameSound(s);
    var named := ReadName(s).value.rest;
    assert named == [ON] + named[1..];
    NameSound(named[1..]);
    var conditioned := ReadName(named[1..]).value.rest;
    DirectivesSound(conditioned);
    SetSound(ReadDirectives(conditioned).value.rest, 0);
    var p := ReadFragment(s).value;
    FragmentThen(p.tree, p.rest);
  }

  lemma FragmentComplete(d: Definition, rest: seq<Token>)
    requires d.Fragment? && DefinitionOk(d)
    ensures ReadDefinition(PrintDefinition(d) + rest) == Some(Parsed(d, rest))
  {
    hide ReadDirectives, ReadSet, PrintDefinition, PrintDirectives, PrintSet, DirectivesOk, SetOk, ReadName,
      ReadOperation;
    FragmentThen(d, rest);
    SetComplete(d.selections, rest, 0);
    SetStarts(d.selections, rest);
    var selected := PrintSet(d.selections) + rest;
    DirectivesComplete(d.directives, selected);
    var directed := PrintDirectives(d.directives) + selected;
    NameComplete(d.condition, directed);
    var conditioned := [Name(d.condition)] + directed;
    NameComplete(d.name, [ON] + conditioned);
    assert ([ON] + conditioned)[1..] == conditioned;
    var s := [Name(d.name)] + ([ON] + conditioned);
    assert ([FRAGMENT] + s)[1..] == s;
  }

  lemma KindTokens(kind: Kind)
    ensures KindOf(KindToken(kind)) == Some(kind) && KindToken(kind) != FRAGMENT && KindToken(kind) != BraceL
  {
    var f, q, m, u := "fragment", "query", "mutation", "subscription";
    assert |f| == 8 && |q| == 5 && |m| == 8 && |u| == 12 && m[0] == 'm' && f[0] == 'f';
  }

  lemma KindRead(t: Token)
    requires KindOf(t).Some?
    ensures t == KindToken(KindOf(t).value)
  {
  }

  lemma TitleSound(s: seq<Token>)
    requires ReadTitle(s).Some?
    ensures var p := ReadTitle(s).value; s == PrintTitle(p.tree) + p.rest && (p.tree.Some? ==> NameOk(p.tree.value))
  {
  }

  predicate EndsTitle(s: seq<Token>) { StartsWith(s, ParenL) || StartsWith(s, At) || StartsWith(s, BraceL) }

  lemma TitleComplete(title: Option<string>, rest: seq<Token>)
    requires (title.Some? ==> NameOk(title.value)) && EndsTitle(rest)
    ensures ReadTitle(PrintTitle(title) + rest) == Some(Parsed(title, rest))
  {
    if title.Some? { NameComplete(title.value, rest); } else { assert [] + rest == rest; }
  }

  /** What an operation reads as is written in full, or as its selections alone. */
  lemma OperationSound(s: seq<Token>)
    requires ReadOperation(s).Some?
    ensures var p := ReadOperation(s).value;
            (s == PrintDefinition(p.tree) + p.rest || (Brief(p.tree) && s == PrintSet(p.tree.selections) + p.rest)) &&
              DefinitionOk(p.tree)
  {
    hide ReadDirectives, ReadSet, PrintDefinition, PrintDirectives, PrintSet, DirectivesOk, SetOk, ReadTitle,
      ReadVariables, PrintTitle, PrintVariables, VarDefsOk, KindToken, KindOf;
    if s[0] == BraceL {
      SetSound(s, 0);
      NothingToCheck();
    } else {
      KindRead(s[0]);
      assert s == [s[0]] + s[1..];
      TitleSound(s[1..]);
      var titled := ReadTitle(s[1..]).value.rest;
      VariablesSound(titled);
      var declared := ReadVariables(titled).value.rest;
      DirectivesSound(declared);
      SetSound(ReadDirectives(declared).value.rest, 0);
      var p := ReadOperation(s).value;
      OperationThen(p.tree, p.rest);
    }
  }

  lemma NothingToCheck()
    ensures DirectivesOk([]) && VarDefsOk([], {})
  {
  }

  lemma VariablesStart(vs: seq<VarDef>, rest: seq<Token>)
    requires EndsTitle(rest)
    ensures EndsTitle(PrintVariables(vs) + rest)
  {
    hide PrintVarDefs;
    if vs == [] { assert [] + rest == rest; }
  }

  lemma OperationComplete(d: Definition, rest: seq<Token>)
    requires d.Operation? && DefinitionOk(d)
    ensures ReadDefinition(PrintDefinition(d) + rest) == Some(Parsed(d, rest))
  {
    hide ReadDirectives, ReadSet, PrintDefinition, PrintDirectives, PrintSet, DirectivesOk, SetOk, ReadTitle,
      ReadVariables, PrintTitle, PrintVariables, VarDefsOk, KindToken, KindOf, ReadFragment;
    OperationThen(d, rest);
    SetComplete(d.selections, rest, 0);
    SetStarts(d.selections, rest);
    var selected := PrintSet(d.selections) + rest;
    DirectivesComplete(d.directives, selected);
    PrintedDirectivesStart(d.directives, selected);
    var directed := PrintDirectives(d.directives) + selected;
    VariablesComplete(d.variables, directed);
    VariablesStart(d.variables, directed);
    var declared := PrintVariables(d.variables) + directed;
    TitleComplete(d.title, declared);
    var titled := PrintTitle(d.title) + declared;
    KindTokens(d.kind);
    assert ([KindToken(d.kind)] + titled)[1..] == titled;
  }

  lemma BriefComplete(d: Definition, rest: seq<Token>)
    requires Brief(d) && DefinitionOk(d)
    ensures ReadDefinition(PrintSet(d.selections) + rest) == Some(Parsed(d, rest))
  {
    hide ReadSet, PrintSet, SetOk, ReadFragment;
    SetComplete(d.selections, rest, 0);
    SetStarts(d.selections, rest);
  }

  lemma DefinitionSound(s: seq<Token>)
    requires ReadDefinition(s).Some?
    ensures var p := ReadDefinition(s).value;
            s[|s| - |p.rest|..] == p.rest && Written(p.tree, s[..|s| - |p.rest|]) && DefinitionOk(p.tree)
  {
    hide ReadFragment, ReadOperation, PrintDefinition, PrintSet, DefinitionOk;
    var p := ReadDefinition(s).value;
    if StartsWith(s, FRAGMENT) {
      FragmentSound(s[1..]);
      assert s == [FRAGMENT] + s[1..];
      Split(PrintDefinition(p.tree), p.rest);
    } else {
      OperationSound(s);
      Split(PrintDefinition(p.tree), p.rest);
      Split(PrintSet(p.tree.selections), p.rest);
    }
  }

  lemma Split(x: seq<Token>, rest: seq<Token>)
    ensures var s := x + rest; s[..|s| - |rest|] == x && s[|s| - |rest|..] == rest
  {
  }

  lemma DefinitionComplete(d: Definition, front: seq<Token>, rest: seq<Token>)
    requires Written(d, front) && DefinitionOk(d)
    ensures ReadDefinition(front + rest) == Some(Parsed(d, rest)) && front != []
  {
    hide ReadDefinition, PrintDefinition, PrintSet, DefinitionOk;
    if front == PrintDefinition(d) {
      if d.Fragment? { FragmentComplete(d, rest); } else { OperationComplete(d, rest); }
    } else {
      BriefComplete(d, rest);
    }
    NeverEmpty(front + rest);
    if front == [] {
      if front == PrintDefinition(d) {
        if d.Fragment? { FragmentComplete(d, []); } else { OperationComplete(d, []); }
      } else {
        BriefComplete(d, []);
      }
      NeverEmpty([]);
    }
  }

  lemma NeverEmpty(s: seq<Token>)
    ensures ReadDefinition(s).Some? ==> s != []
  {
  }

  // ----- documents ----------------------------------------------------------------------------

  /** The tokens are the definitions written one after the other. */
  ghost predicate WrittenAll(ds: seq<Definition>, s: seq<Token>)
    decreases |ds|
  {
    if ds == [] then s == []
    else exists k :: 0 <= k <= |s| && Written(ds[0], s[..k]) && WrittenAll(ds[1..], s[k..])
  }

  /** Every definition is within the limits and no fragment is defined twice. */
  predicate DocumentOk(ds: seq<Definition>, named: set<string>) {
    ds == [] ||
    (DefinitionOk(ds[0]) && (ds[0].Fragment? ==> ds[0].name !in named) &&
     DocumentOk(ds[1..], if ds[0].Fragment? then named + {ds[0].name} else named))
  }

  /** The reader of documents accepts exactly what is written so, and reads nothing else from it. */
  lemma {:induction false} DocumentIff(s: seq<Token>, ds: seq<Definition>, named: set<string>)
    ensures ReadDefinitions(s, named) == Some(ds) <==> WrittenAll(ds, s) && DocumentOk(ds, named)
    decreases |s|
  {
    hide ReadDefinition, Written, DefinitionOk;
    if s == [] {
      if ds != [] && WrittenAll(ds, s) && DocumentOk(ds, named) { DefinitionComplete(ds[0], [], []); }
    } else {
      if ReadDefinitions(s, named) == Some(ds) {
        DefinitionSound(s);
        var d := ReadDefinition(s).value;
        var next := if d.tree.Fragment? then named + {d.tree.name} else named;
        DocumentIff(d.rest, ds[1..], next);
        assert s[|s| - |d.rest|..] == d.rest;
      }
      if WrittenAll(ds, s) && DocumentOk(ds, named) {
        var k :| 0 <= k <= |s| && Written(ds[0], s[..k]) && WrittenAll(ds[1..], s[k..]);
        DefinitionComplete(ds[0], s[..k], s[k..]);
        assert s[..k] + s[k..] == s;
        DocumentIff(s[k..], ds[1..], if ds[0].Fragment? then named + {ds[0].name} else named);
        assert ds == [ds[0]] + ds[1..];
      }
    }
  }
}

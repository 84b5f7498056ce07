/**
  Variables as they are written: a dollar sign and a name. The variables that the parser keeps
  of a definition are those in its tokens, apart from the declarations.
*/
module GraphqlVariables {
  import opened Wrappers
  import opened GraphqlSyntax
  import opened GraphqlDefinitions
  import opened GraphqlParser
  import opened GraphqlPrinting

  /** The tokens mention this variable. */
  ghost predicate Mentions(s: seq<Token>, x: string) {
    exists i :: 0 <= i < |s| - 1 && s[i] == Dollar && s[i + 1] == Name(x)
  }

  /** The last token does not begin a variable. */
  predicate Closed(s: seq<Token>) { s != [] ==> s[|s| - 1] != Dollar }

  lemma MentionsBoth(a: seq<Token>, b: seq<Token>, x: string)
    requires Closed(a)
    ensures Mentions(a + b, x) <==> Mentions(a, x) || Mentions(b, x)
    ensures Closed(b) ==> Closed(a + b)
  {
    var all := a + b;
    if Mentions(a, x) {
      var i :| 0 <= i < |a| - 1 && a[i] == Dollar && a[i + 1] == Name(x);
      assert all[i] == Dollar && all[i + 1] == Name(x);
    }
    if Mentions(b, x) {
      var i :| 0 <= i < |b| - 1 && b[i] == Dollar && b[i + 1] == Name(x);
      assert all[|a| + i] == Dollar && all[|a| + i + 1] == Name(x);
    }
    if Mentions(all, x) {
      var i :| 0 <= i < |all| - 1 && all[i] == Dollar && all[i + 1] == Name(x);
      if i >= |a| { assert b[i - |a|] == Dollar && b[i + 1 - |a|] == Name(x); }
    }
  }

  /** A single token mentions nothing. */
  lemma OneToken(t: Token, x: string)
    ensures !Mentions([t], x) && !Mentions([], x) && (t != Dollar ==> Closed([t])) && Closed([])
  {
  }

  lemma Before(t: Token, s: seq<Token>, x: string)
    requires t != Dollar
    ensures Mentions([t] + s, x) <==> Mentions(s, x)
    ensures Closed(s) ==> Closed([t] + s)
  {
    OneToken(t, x);
    MentionsBoth([t], s, x);
  }

  lemma Between(open: Token, s: seq<Token>, close: Token, x: string)
    requires open != Dollar && close != Dollar && Closed(s)
    ensures Mentions([open] + (s + [close]), x) <==> Mentions(s, x)
    ensures Closed([open] + (s + [close]))
  {
    OneToken(close, x);
    MentionsBoth(s, [close], x);
    Before(open, s + [close], x);
  }

  // ----- values, arguments and directives -----------------------------------------------------

  lemma {:induction false} ValueMentions(v: Value, depth: nat, constant: bool, x: string)
    requires ValueOk(v, depth, constant)
    ensures Closed(PrintValue(v)) && (Mentions(PrintValue(v), x) <==> x in Vars(v))
    decreases v, 0
  {
    hide Mentions, Closed, NameOk;
    match v
    case Variable(name) => VariableMentions(name, x);
    case Atom(t) => OneToken(t, x);
    case ListOf(items) =>
      ValuesMention(items, depth + 1, constant, x);
      Between(BracketL, PrintValues(items), BracketR, x);
    case ObjectOf(fields) =>
      ArgumentsMention(fields, depth + 1, constant, x);
      Between(BraceL, PrintArguments(fields), BraceR, x);
  }

  lemma VariableMentions(name: string, x: string)
    ensures Closed([Dollar, Name(name)]) && (Mentions([Dollar, Name(name)], x) <==> x == name)
  {
    assert [Dollar, Name(name)][0] == Dollar && [Dollar, Name(name)][1] == Name(name);
  }

  lemma {:induction false} ValuesMention(vs: seq<Value>, depth: nat, constant: bool, x: string)
    requires ValuesOk(vs, depth, constant)
    ensures Closed(PrintValues(vs)) && (Mentions(PrintValues(vs), x) <==> x in VarsOfValues(vs))
    decreases vs, 1
  {
    hide Mentions, Closed, ValueOk, PrintValue, Vars;
    if vs == [] {
      OneToken(Dollar, x);
    } else {
      ValueMentions(vs[0], depth, constant, x);
      ValuesMention(vs[1..], depth, constant, x);
      MentionsBoth(PrintValue(vs[0]), PrintValues(vs[1..]), x);
      FirstValueVars(vs);
    }
  }

  lemma {:induction false} FirstValueVars(vs: seq<Value>)
    requires vs != []
    ensures VarsOfValues(vs) == Vars(vs[0]) + VarsOfValues(vs[1..])
  {
    hide Vars;
    if |vs| > 1 {
      FirstValueVars(vs[..|vs| - 1]);
      assert vs[..|vs| - 1][1..] == vs[1..][..|vs| - 2];
    }
  }

  lemma {:induction false} ArgumentsMention(arguments: seq<Argument>, depth: nat, constant: bool, x: string)
    requires ArgumentsOk(arguments, depth, constant)
    ensures Closed(PrintArguments(arguments)) &&
            (Mentions(PrintArguments(arguments), x) <==> x in VarsOfArguments(arguments))
    decreases arguments, 1
  {
    hide Mentions, Closed, ValueOk, PrintValue, Vars, NameOk;
    if arguments == [] {
      OneToken(Dollar, x);
    } else {
      var a := arguments[0];
      assert ArgumentOk(a, depth, constant);
      ValueMentions(a.value, depth, constant, x);
      Before(Colon, PrintValue(a.value), x);
      Before(Name(a.name), [Colon] + PrintValue(a.value), x);
      assert PrintArgument(a) == [Name(a.name)] + ([Colon] + PrintValue(a.value));
      ArgumentsMention(arguments[1..], depth, constant, x);
      MentionsBoth(PrintArgument(a), PrintArguments(arguments[1..]), x);
      FirstArgumentVars(arguments);
    }
  }

  lemma {:induction false} FirstArgumentVars(arguments: seq<Argument>)
    requires arguments != []
    ensures VarsOfArguments(arguments) == VarsOfArgument(arguments[0]) + VarsOfArguments(arguments[1..])
  {
    hide VarsOfArgument;
    if |arguments| > 1 {
      FirstArgumentVars(arguments[..|arguments| - 1]);
      assert arguments[..|arguments| - 1][1..] == arguments[1..][..|arguments| - 2];
    }
  }

  lemma ArgumentListMentions(arguments: seq<Argument>, x: string)
    requires ArgumentsOk(arguments, 0, false)
    ensures Closed(PrintArgumentList(arguments)) &&
            (Mentions(PrintArgumentList(arguments), x) <==> x in VarsOfArguments(arguments))
  {
    hide Mentions, Closed, PrintArguments;
    ArgumentsMention(arguments, 0, false, x);
    if arguments == [] { OneToken(Dollar, x); } else { Between(ParenL, PrintArguments(arguments), ParenR, x); }
  }

  lemma {:induction false} DirectivesMention(ds: seq<Directive>, x: string)
    requires DirectivesOk(ds)
    ensures Closed(PrintDirectives(ds)) && (Mentions(PrintDirectives(ds), x) <==> x in VarsOfDirectives(ds))
  {
    hide Mentions, Closed, PrintArgumentList, VarsOfArguments, ArgumentsOk, NameOk;
    if ds == [] {
      OneToken(Dollar, x);
    } else {
      var listed, more := PrintArgumentList(ds[0].arguments), PrintDirectives(ds[1..]);
      ArgumentListMentions(ds[0].arguments, x);
      DirectivesMention(ds[1..], x);
      MentionsBoth(listed, more, x);
      Before(Name(ds[0].name), listed + more, x);
      Before(At, [Name(ds[0].name)] + (listed + more), x);
      assert PrintDirectives(ds) == [At] + ([Name(ds[0].name)] + (listed + more));
      FirstDirectiveVars(ds);
    }
  }

  lemma {:induction false} FirstDirectiveVars(ds: seq<Directive>)
    requires ds != []
    ensures VarsOfDirectives(ds) == VarsOfArguments(ds[0].arguments) + VarsOfDirectives(ds[1..])
  {
    hide VarsOfArguments;
    if |ds| > 1 {
      FirstDirectiveVars(ds[..|ds| - 1]);
      assert ds[..|ds| - 1][1..] == ds[1..][..|ds| - 2];
    }
  }

  // ----- selections ---------------------------------------------------------------------------

  lemma {:induction false} SetMentions(sels: seq<Selection>, depth: nat, x: string)
    requires forall i :: 0 <= i < |sels| ==> SelectionOk(sels[i], depth)
    ensures Closed(PrintSelections(sels)) && (Mentions(PrintSelections(sels), x) <==> x in VarsOfSelections(sels))
    decreases sels, 0
  {
    hide Mentions, Closed, PrintSelection, VarsOfSelection, SelectionOk;
    if sels == [] {
      OneToken(Dollar, x);
    } else {
      SelectionMentions(sels[0], depth, x);
      SetMentions(sels[1..], depth, x);
      MentionsBoth(PrintSelection(sels[0]), PrintSelections(sels[1..]), x);
      FirstSelectionVars(sels);
    }
  }

  lemma {:induction false} FirstSelectionVars(sels: seq<Selection>)
    requires sels != []
    ensures VarsOfSelections(sels) == VarsOfSelection(sels[0]) + VarsOfSelections(sels[1..])
  {
    hide VarsOfSelection;
    if |sels| > 1 {
      FirstSelectionVars(sels[..|sels| - 1]);
      assert sels[..|sels| - 1][1..] == sels[1..][..|sels| - 2];
    }
  }

  lemma BracedMentions(sels: seq<Selection>, x: string)
    requires Closed(PrintSelections(sels)) && (Mentions(PrintSelections(sels), x) <==> x in VarsOfSelections(sels))
    ensures Closed(PrintSet(sels)) && (Mentions(PrintSet(sels), x) <==> x in VarsOfSelections(sels))
  {
    hide Mentions, Closed, PrintSelections, VarsOfSelections;
    Between(BraceL, PrintSelections(sels), BraceR, x);
  }

  lemma {:induction false} SelectionMentions(sel: Selection, depth: nat, x: string)
    requires SelectionOk(sel, depth)
    ensures Closed(PrintSelection(sel)) && (Mentions(PrintSelection(sel), x) <==> x in VarsOfSelection(sel))
    decreases sel, 1
  {
    hide Mentions, Closed, PrintDirectives, PrintArgumentList, PrintSelections, PrintSet, NameOk, DirectivesOk,
      ArgumentsOk, VarsOfArguments, VarsOfDirectives, VarsOfSelections;
    DirectivesMention(sel.directives, x);
    var directed := PrintDirectives(sel.directives);
    match sel
    case Field(alias, name, arguments, directives, children) =>
      ChildrenMention(children, depth, x);
      var rest := directed + PrintChildren(children);
      MentionsBoth(directed, PrintChildren(children), x);
      ArgumentListMentions(arguments, x);
      MentionsBoth(PrintArgumentList(arguments), rest, x);
      Before(Name(name), PrintArgumentList(arguments) + rest, x);
      AliasMentions(alias, x);
      MentionsBoth(PrintAlias(alias), [Name(name)] + (PrintArgumentList(arguments) + rest), x);
    case Inline(condition, directives, children) =>
      SetMentions(children, depth + 1, x);
      BracedMentions(children, x);
      MentionsBoth(directed, PrintSet(children), x);
      ConditionMentions(condition, x);
      MentionsBoth(PrintCondition(condition), directed + PrintSet(children), x);
      Before(Dots, PrintCondition(condition) + (directed + PrintSet(children)), x);
    case Spread(name, directives) =>
      Before(Name(name), directed, x);
      Before(Dots, [Name(name)] + directed, x);
  }

  lemma ChildrenMention(children: seq<Selection>, depth: nat, x: string)
    requires children == [] || SetOk(children, depth + 1)
    ensures Closed(PrintChildren(children)) &&
            (Mentions(PrintChildren(children), x) <==> x in VarsOfSelections(children))
    decreases children, 1
  {
    hide Mentions, Closed, PrintSelections, PrintSet, SelectionOk;
    if children == [] {
      OneToken(Dollar, x);
    } else {
      SetMentions(children, depth + 1, x);
      BracedMentions(children, x);
    }
  }

  lemma AliasMentions(alias: Option<string>, x: string)
    ensures Closed(PrintAlias(alias)) && !Mentions(PrintAlias(alias), x)
  {
  }

  lemma ConditionMentions(condition: Option<string>, x: string)
    ensures Closed(PrintCondition(condition)) && !Mentions(PrintCondition(condition), x)
  {
  }

  // ----- definitions --------------------------------------------------------------------------

  lemma {:induction false} TypeMentions(t: TypeRef, depth: nat, x: string)
    requires TypeOk(t, depth)
    ensures Closed(PrintType(t)) && !Mentions(PrintType(t), x)
  {
    hide Mentions, Closed;
    BangMentions(t.nonNull, x);
    match t
    case NamedType(name, nonNull) => Before(Name(name), PrintBang(nonNull), x);
    case ListType(inner, nonNull) =>
      TypeMentions(inner, depth + 1, x);
      Before(BracketR, PrintBang(nonNull), x);
      MentionsBoth(PrintType(inner), [BracketR] + PrintBang(nonNull), x);
      Before(BracketL, PrintType(inner) + ([BracketR] + PrintBang(nonNull)), x);
  }

  lemma BangMentions(nonNull: bool, x: string)
    ensures Closed(PrintBang(nonNull)) && !Mentions(PrintBang(nonNull), x)
  {
  }

  lemma DefaultMentions(default: Option<Value>, x: string)
    requires default.Some? ==> ValueOk(default.value, 0, true)
    ensures Closed(PrintDefault(default))
    ensures Mentions(PrintDefault(default), x) <==> default.Some? && x in Vars(default.value)
  {
    hide Mentions, Closed, PrintValue, Vars;
    if default.Some? {
      ValueMentions(default.value, 0, true, x);
      Before(Equals, PrintValue(default.value), x);
    } else {
      OneToken(Dollar, x);
    }
  }

  lemma VarDefMentions(v: VarDef, x: string)
    requires VarDefOk(v)
    ensures Closed(PrintVarDef(v)) && (Mentions(PrintVarDef(v), x) <==> x == v.name || x in VarsOfVarDef(v))
  {
    hide Mentions, Closed, PrintType, PrintDefault, PrintDirectives, ValueOk, DirectivesOk, Vars, VarsOfDirectives;
    TypeMentions(v.varType, 0, x);
    DefaultMentions(v.default, x);
    DirectivesMention(v.directives, x);
    MentionsBoth(PrintDefault(v.default), PrintDirectives(v.directives), x);
    var rest := PrintType(v.varType) + (PrintDefault(v.default) + PrintDirectives(v.directives));
    MentionsBoth(PrintType(v.varType), PrintDefault(v.default) + PrintDirectives(v.directives), x);
    Before(Colon, rest, x);
    VariableMentions(v.name, x);
    MentionsBoth([Dollar, Name(v.name)], [Colon] + rest, x);
    assert PrintVarDef(v) == [Dollar, Name(v.name)] + ([Colon] + rest);
  }

  lemma {:induction false} VarDefsMention(vs: seq<VarDef>, seen: set<string>, x: string)
    requires VarDefsOk(vs, seen)
    ensures Closed(PrintVarDefs(vs)) &&
            (Mentions(PrintVarDefs(vs), x) <==> x in Declared(vs) || x in VarsOfVarDefs(vs))
  {
    hide Mentions, Closed, PrintVarDef, VarsOfVarDef, VarDefOk;
    if vs == [] {
      OneToken(Dollar, x);
    } else {
      VarDefMentions(vs[0], x);
      VarDefsMention(vs[1..], seen + {vs[0].name}, x);
      MentionsBoth(PrintVarDef(vs[0]), PrintVarDefs(vs[1..]), x);
      FirstVarDefVars(vs);
    }
  }

  lemma {:induction false} FirstVarDefVars(vs: seq<VarDef>)
    requires vs != []
    ensures VarsOfVarDefs(vs) == VarsOfVarDef(vs[0]) + VarsOfVarDefs(vs[1..])
    ensures Declared(vs) == {vs[0].name} + Declared(vs[1..])
  {
    hide VarsOfVarDef;
    if |vs| > 1 {
      FirstVarDefVars(vs[..|vs| - 1]);
      assert vs[..|vs| - 1][1..] == vs[1..][..|vs| - 2];
    }
  }

  lemma VariablesMention(vs: seq<VarDef>, x: string)
    requires VarDefsOk(vs, {})
    ensures Closed(PrintVariables(vs)) &&
            (Mentions(PrintVariables(vs), x) <==> x in Declared(vs) || x in VarsOfVarDefs(vs))
  {
    hide Mentions, Closed, PrintVarDefs;
    VarDefsMention(vs, {}, x);
    if vs == [] { OneToken(Dollar, x); } else { Between(ParenL, PrintVarDefs(vs), ParenR, x); }
  }

  lemma {:induction false} DeclaresIff(vs: seq<VarDef>, x: string)
    ensures x in Declared(vs) <==> exists i :: 0 <= i < |vs| && vs[i].name == x
    ensures x in Required(vs) <==>
            exists i :: 0 <= i < |vs| && vs[i].name == x && vs[i].varType.nonNull && vs[i].default.None?
  {
    if vs != [] {
      var n := |vs| - 1;
      DeclaresIff(vs[..n], x);
      assert vs == vs[..n] + [vs[n]];
    }
  }

  /** The definition declares this variable. */
  predicate Declares(d: Definition, x: string) {
    d.Operation? && exists i :: 0 <= i < |d.variables| && d.variables[i].name == x
  }

  /** The variables kept of a definition are those that its tokens mention, apart from declarations. */
  lemma DefinitionMentions(d: Definition, x: string)
    requires DefinitionOk(d)
    ensures Mentions(PrintDefinition(d), x) <==> x in VarsOfDefinition(d) || Declares(d, x)
  {
    hide Mentions, Closed, PrintDirectives, PrintSet, PrintVariables, DirectivesOk, SelectionOk, VarDefsOk,
      VarsOfDirectives, VarsOfSelections, VarsOfVarDefs, NameOk, Declared, Required;
    DirectivesMention(d.directives, x);
    SetMentions(d.selections, 0, x);
    BracedMentions(d.selections, x);
    var body := PrintDirectives(d.directives) + PrintSet(d.selections);
    MentionsBoth(PrintDirectives(d.directives), PrintSet(d.selections), x);
    match d
    case Fragment(name, condition, _, _) =>
      Before(Name(condition), body, x);
      Before(ON, [Name(condition)] + body, x);
      Before(Name(name), [ON] + ([Name(condition)] + body), x);
      Before(FRAGMENT, [Name(name)] + ([ON] + ([Name(condition)] + body)), x);
    case Operation(kind, title, variables, _, _) =>
      VariablesMention(variables, x);
      DeclaresIff(variables, x);
      MentionsBoth(PrintVariables(variables), body, x);
      TitleMentions(title, x);
      MentionsBoth(PrintTitle(title), PrintVariables(variables) + body, x);
      Before(KindToken(kind), PrintTitle(title) + (PrintVariables(variables) + body), x);
  }

  lemma TitleMentions(title: Option<string>, x: string)
    ensures Closed(PrintTitle(title)) && !Mentions(PrintTitle(title), x)
  {
  }
}

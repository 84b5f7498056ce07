/** Reading directives and selection sets: what is read is what was written, nothing else is accepted. */
module GraphqlSelections {
  import opened Wrappers
  import opened GraphqlSyntax
  import opened GraphqlGrammar

  // ----- readers ------------------------------------------------------------------------------

  function ReadArgumentList(s: seq<Token>): (r: Option<Parsed<seq<Argument>>>)
    ensures r.Some? ==> |r.value.rest| <= |s|
  {
    if !StartsWith(s, ParenL) then Some(Parsed([], s))
    else
      match ReadArguments(s[1..], ParenR, 0, false, {})
      case Some(p) => if p.tree == [] then None else Some(p)
      case None => None
  }

  function ReadDirective(s: seq<Token>): (r: Option<Parsed<Directive>>)
    ensures r.Some? ==> |r.value.rest| < |s|
  {
    match ReadName(s)
    case None => None
    case Some(name) =>
      match ReadArgumentList(name.rest)
      case Some(p) => Some(Parsed(Directive(name.tree, p.tree), p.rest))
      case None => None
  }

  function ReadDirectives(s: seq<Token>): (r: Option<Parsed<seq<Directive>>>)
    ensures r.Some? ==> |r.value.rest| <= |s|
    decreases |s|
  {
    if !StartsWith(s, At) then Some(Parsed([], s))
    else
      match ReadDirective(s[1..])
      case None => None
      case Some(d) =>
        match ReadDirectives(d.rest)
        case Some(more) => Some(Parsed([d.tree] + more.tree, more.rest))
        case None => None
  }

  /** An optional alias, which is told from the name by a colon. */
  function ReadAlias(s: seq<Token>): (r: Option<Parsed<Option<string>>>)
    ensures r.Some? ==> |r.value.rest| <= |s|
  {
    match ReadName(s)
    case None => None
    case Some(p) => if StartsWith(p.rest, Colon) then Some(Parsed(Some(p.tree), p.rest[1..])) else Some(Parsed(None, s))
  }

  function ReadCondition(s: seq<Token>): (r: Option<Parsed<Option<string>>>)
    ensures r.Some? ==> |r.value.rest| <= |s|
  {
    if !StartsWith(s, ON) then Some(Parsed(None, s))
    else match ReadName(s[1..]) case Some(p) => Some(Parsed(Some(p.tree), p.rest)) case None => None
  }

  function ReadField(s: seq<Token>, depth: nat): (r: Option<Parsed<Selection>>)
    ensures r.Some? ==> |r.value.rest| < |s|
    decreases |s|, 2
  {
    match ReadAlias(s)
    case None => None
    case Some(alias) =>
      match ReadName(alias.rest)
      case None => None
      case Some(name) =>
        match ReadArgumentList(name.rest)
        case None => None
        case Some(arguments) =>
          match ReadDirectives(arguments.rest)
          case None => None
          case Some(directives) =>
            if !StartsWith(directives.rest, BraceL) then
              Some(Parsed(Field(alias.tree, name.tree, arguments.tree, directives.tree, []), directives.rest))
            else
              match ReadSet(directives.rest, depth + 1)
              case Some(p) => Some(Parsed(Field(alias.tree, name.tree, arguments.tree, directives.tree, p.tree),
                p.rest))
              case None => None
  }

  function ReadInline(s: seq<Token>, depth: nat): (r: Option<Parsed<Selection>>)
    ensures r.Some? ==> |r.value.rest| < |s|
    decreases |s|, 2
  {
    match ReadCondition(s)
    case None => None
    case Some(condition) =>
      match ReadDirectives(condition.rest)
      case None => None
      case Some(directives) =>
        match ReadSet(directives.rest, depth + 1)
        case Some(p) => Some(Parsed(Inline(condition.tree, directives.tree, p.tree), p.rest))
        case None => None
  }

  function ReadSpread(s: seq<Token>): (r: Option<Parsed<Selection>>)
    ensures r.Some? ==> |r.value.rest| < |s|
  {
    match ReadName(s)
    case None => None
    case Some(name) =>
      match ReadDirectives(name.rest)
      case Some(p) => Some(Parsed(Spread(name.tree, p.tree), p.rest))
      case None => None
  }

  predicate OpensInline(s: seq<Token>) { StartsWith(s, ON) || StartsWith(s, At) || StartsWith(s, BraceL) }

  function ReadSelection(s: seq<Token>, depth: nat): (r: Option<Parsed<Selection>>)
    ensures r.Some? ==> |r.value.rest| < |s|
    decreases |s|, 3
  {
    if !StartsWith(s, Dots) then ReadField(s, depth)
    else if OpensInline(s[1..]) then ReadInline(s[1..], depth)
    else ReadSpread(s[1..])
  }

  function ReadSelections(s: seq<Token>, depth: nat): (r: Option<Parsed<seq<Selection>>>)
    ensures r.Some? ==> |r.value.rest| < |s|
    decreases |s|, 4
  {
    if StartsWith(s, BraceR) then Some(Parsed([], s[1..]))
    else
      match ReadSelection(s, depth)
      case None => None
      case Some(first) =>
        match ReadSelections(first.rest, depth)
        case Some(more) => Some(Parsed([first.tree] + more.tree, more.rest))
        case None => None
  }

  function ReadSet(s: seq<Token>, depth: nat): (r: Option<Parsed<seq<Selection>>>)
    ensures r.Some? ==> |r.value.rest| < |s|
    decreases |s|, 1
  {
    if depth > MAX_DEPTH || !StartsWith(s, BraceL) then None
    else
      match ReadSelections(s[1..], depth)
      case Some(p) => if p.tree == [] then None else Some(p)
      case None => None
  }

  // ----- what was read was written so ---------------------------------------------------------

  lemma ArgumentListSound(s: seq<Token>)
    requires ReadArgumentList(s).Some?
    ensures var p := ReadArgumentList(s).value; s == PrintArgumentList(p.tree) + p.rest && ArgumentsOk(p.tree, 0, false)
  {
    hide ReadArguments, PrintArguments, ArgumentsOk;
    if StartsWith(s, ParenL) {
      ArgumentsSound(s[1..], ParenR, 0, false, {});
      var p := ReadArguments(s[1..], ParenR, 0, false, {}).value;
      assert s == [ParenL] + s[1..] == [ParenL] + (PrintArguments(p.tree) + [ParenR]) + p.rest;
    } else {
      NoArguments();
    }
  }

  lemma NoArguments()
    ensures ArgumentsOk([], 0, false)
  {
  }

  lemma DirectiveSound(s: seq<Token>)
    requires ReadDirective(s).Some?
    ensures var p := ReadDirective(s).value; var d := p.tree;
            s == [Name(d.name)] + (PrintArgumentList(d.arguments) + p.rest) && NameOk(d.name) &&
              ArgumentsOk(d.arguments, 0, false)
  {
    hide ReadArgumentList, PrintArgumentList, ArgumentsOk;
    ArgumentListSound(s[1..]);
  }

  lemma DirectivesCons(d: Directive, more: seq<Directive>, rest: seq<Token>)
    ensures PrintDirectives([d] + more) + rest ==
            [At] + ([Name(d.name)] + (PrintArgumentList(d.arguments) + (PrintDirectives(more) + rest)))
    ensures DirectivesOk([d] + more) <==> NameOk(d.name) && ArgumentsOk(d.arguments, 0, false) && DirectivesOk(more)
  {
    hide ArgumentsOk, PrintArgumentList;
    var all := [d] + more;
    assert all[1..] == more;
    assert forall i :: 0 <= i < |more| ==> more[i] == all[i + 1];
    var x, y := PrintArgumentList(d.arguments), PrintDirectives(more);
    assert [At, Name(d.name)] + (x + y) + rest == [At] + ([Name(d.name)] + (x + (y + rest)));
  }

  lemma {:induction false} DirectivesSound(s: seq<Token>)
    requires ReadDirectives(s).Some?
    ensures var p := ReadDirectives(s).value; s == PrintDirectives(p.tree) + p.rest && DirectivesOk(p.tree)
    decreases |s|
  {
    if StartsWith(s, At) {
      hide ReadDirective, PrintArgumentList, PrintDirectives, ArgumentsOk, DirectivesOk;
      DirectiveSound(s[1..]);
      var d := ReadDirective(s[1..]).value;
      DirectivesSound(d.rest);
      var more := ReadDirectives(d.rest).value;
      DirectivesCons(d.tree, more.tree, more.rest);
      assert s == [At] + s[1..];
    }
  }

  lemma AliasSound(s: seq<Token>)
    requires ReadAlias(s).Some?
    ensures var p := ReadAlias(s).value; s == PrintAlias(p.tree) + p.rest && (p.tree.Some? ==> NameOk(p.tree.value))
  {
    if StartsWith(s[1..], Colon) { assert s == [s[0], Colon] + s[1..][1..]; }
  }

  lemma ConditionSound(s: seq<Token>)
    requires ReadCondition(s).Some?
    ensures var p := ReadCondition(s).value; s == PrintCondition(p.tree) + p.rest &&
                                             (p.tree.Some? ==> NameOk(p.tree.value))
  {
    if StartsWith(s, ON) { assert s == [ON, s[1]] + s[1..][1..]; }
  }

  lemma NameSound(s: seq<Token>)
    requires ReadName(s).Some?
    ensures var p := ReadName(s).value; s == [Name(p.tree)] + p.rest && NameOk(p.tree)
  {
  }

  lemma FieldThen(sel: Selection, rest: seq<Token>)
    requires sel.Field?
    ensures PrintSelection(sel) + rest ==
            PrintAlias(sel.alias) + ([Name(sel.name)] + (PrintArgumentList(sel.arguments) +
              (PrintDirectives(sel.directives) + (PrintChildren(sel.children) + rest))))
  {
    hide PrintAlias, PrintArgumentList, PrintDirectives, PrintChildren;
    var a, b, c, d, e := PrintAlias(sel.alias), [Name(sel.name)], PrintArgumentList(sel.arguments),
      PrintDirectives(sel.directives), PrintChildren(sel.children);
    assert a + (b + (c + (d + e))) + rest == a + (b + (c + (d + (e + rest))));
  }

  lemma InlineThen(sel: Selection, rest: seq<Token>)
    requires sel.Inline?
    ensures PrintSelection(sel) + rest ==
            [Dots] + (PrintCondition(sel.condition) +
              (PrintDirectives(sel.directives) + (PrintSet(sel.children) + rest)))
  {
    hide PrintCondition, PrintDirectives, PrintSet;
    var a, b, c := PrintCondition(sel.condition), PrintDirectives(sel.directives), PrintSet(sel.children);
    assert [Dots] + (a + (b + c)) + rest == [Dots] + (a + (b + (c + rest)));
  }

  lemma SpreadThen(sel: Selection, rest: seq<Token>)
    requires sel.Spread?
    ensures PrintSelection(sel) + rest == [Dots] + ([Name(sel.name)] + (PrintDirectives(sel.directives) + rest))
  {
    hide PrintDirectives;
    var a := PrintDirectives(sel.directives);
    assert [Dots] + ([Name(sel.name)] + a) + rest == [Dots] + ([Name(sel.name)] + (a + rest));
  }

  lemma {:induction false} FieldSound(s: seq<Token>, depth: nat)
    requires ReadField(s, depth).Some?
    ensures var p := ReadField(s, depth).value; p.tree.Field? && s == PrintSelection(p.tree) + p.rest &&
                                                SelectionOk(p.tree, depth)
    decreases |s|, 2
  {
    hide ReadAlias, ReadName, ReadArgumentList, ReadDirectives, ReadSet, PrintSelection, PrintAlias, PrintArgumentList,
      PrintDirectives, PrintSet, ArgumentsOk, DirectivesOk, SetOk;
    var alias := ReadAlias(s).value;
    AliasSound(s);
    var name := ReadName(alias.rest).value;
    NameSound(alias.rest);
    var arguments := ReadArgumentList(name.rest).value;
    ArgumentListSound(name.rest);
    var directives := ReadDirectives(arguments.rest).value;
    DirectivesSound(arguments.rest);
    if StartsWith(directives.rest, BraceL) { SetSound(directives.rest, depth + 1); }
    var p := ReadField(s, depth).value;
    FieldThen(p.tree, p.rest);
    if !StartsWith(directives.rest, BraceL) { assert [] + p.rest == p.rest; }
  }

  lemma {:induction false} InlineSound(s: seq<Token>, depth: nat)
    requires ReadInline(s, depth).Some?
    ensures var p := ReadInline(s, depth).value;
            p.tree.Inline? && [Dots] + s == PrintSelection(p.tree) + p.rest && SelectionOk(p.tree, depth)
    decreases |s|, 2
  {
    hide ReadCondition, ReadDirectives, ReadSet, PrintSelection, PrintCondition, PrintDirectives, PrintSet,
      DirectivesOk, SetOk;
    var condition := ReadCondition(s).value;
    ConditionSound(s);
    var directives := ReadDirectives(condition.rest).value;
    DirectivesSound(condition.rest);
    SetSound(directives.rest, depth + 1);
    var p := ReadInline(s, depth).value;
    InlineThen(p.tree, p.rest);
  }

  lemma SpreadSound(s: seq<Token>)
    requires ReadSpread(s).Some? && !StartsWith(s, ON)
    ensures var p := ReadSpread(s).value;
            p.tree.Spread? && [Dots] + s == PrintSelection(p.tree) + p.rest &&
              forall depth :: SelectionOk(p.tree, depth)
  {
    hide ReadDirectives, PrintSelection, PrintDirectives, DirectivesOk;
    var name := ReadName(s).value;
    NameSound(s);
    DirectivesSound(name.rest);
    var p := ReadSpread(s).value;
    SpreadThen(p.tree, p.rest);
  }

  lemma {:induction false} SelectionSound(s: seq<Token>, depth: nat)
    requires ReadSelection(s, depth).Some?
    ensures var p := ReadSelection(s, depth).value; s == PrintSelection(p.tree) + p.rest && SelectionOk(p.tree, depth)
    decreases |s|, 3
  {
    hide ReadField, ReadInline, ReadSpread, PrintSelection, SelectionOk;
    if !StartsWith(s, Dots) {
      FieldSound(s, depth);
    } else {
      assert s == [Dots] + s[1..];
      if OpensInline(s[1..]) { InlineSound(s[1..], depth); } else { SpreadSound(s[1..]); }
    }
  }

  predicate SelectionsOk(sels: seq<Selection>, depth: nat) {
    forall i :: 0 <= i < |sels| ==> SelectionOk(sels[i], depth)
  }

  lemma SelectionsCons(first: Selection, more: seq<Selection>, depth: nat)
    ensures PrintSelections([first] + more) == PrintSelection(first) + PrintSelections(more)
    ensures SelectionsOk([first] + more, depth) <==> SelectionOk(first, depth) && SelectionsOk(more, depth)
  {
    hide SelectionOk, PrintSelection;
    var all := [first] + more;
    assert all[1..] == more;
    assert forall i :: 0 <= i < |more| ==> more[i] == all[i + 1];
  }

  lemma {:induction false} SelectionsSound(s: seq<Token>, depth: nat)
    requires ReadSelections(s, depth).Some?
    ensures var p := ReadSelections(s, depth).value;
            s == PrintSelections(p.tree) + [BraceR] + p.rest && SelectionsOk(p.tree, depth)
    decreases |s|, 4
  {
    if StartsWith(s, BraceR) {
      assert s == [BraceR] + s[1..];
    } else {
      hide ReadSelection, PrintSelection, PrintSelections, SelectionOk, SelectionsOk;
      SelectionSound(s, depth);
      var first := ReadSelection(s, depth).value;
      SelectionsSound(first.rest, depth);
      var more := ReadSelections(first.rest, depth).value;
      SelectionsCons(first.tree, more.tree, depth);
      Joined(s, PrintSelection(first.tree), first.rest, PrintSelections(more.tree), BraceR, more.rest);
    }
  }

  /** What the selection parser accepts is the printed form of a tree within the limits. */
  lemma {:induction false} SetSound(s: seq<Token>, depth: nat)
    requires ReadSet(s, depth).Some?
    ensures var p := ReadSet(s, depth).value; s == PrintSet(p.tree) + p.rest && SetOk(p.tree, depth) && p.tree != []
    decreases |s|, 1
  {
    hide ReadSelections, PrintSelections, SelectionOk;
    SelectionsSound(s[1..], depth);
    var p := ReadSet(s, depth).value;
    assert s == [BraceL] + s[1..] == [BraceL] + (PrintSelections(p.tree) + [BraceR]) + p.rest;
  }

  // ----- what is written is read back ---------------------------------------------------------

  /** What follows a selection inside a selection set: another selection or the closing brace. */
  predicate Follows(rest: seq<Token>) { rest != [] && (rest[0] == Dots || rest[0].Name? || rest[0] == BraceR) }

  lemma Tail(t: Token, x: seq<Token>, rest: seq<Token>)
    ensures StartsWith([t] + x + rest, t) && ([t] + x + rest)[1..] == x + rest && [t] + x + rest == [t] + (x + rest)
  {
  }

  lemma ArgumentListComplete(arguments: seq<Argument>, rest: seq<Token>)
    requires ArgumentsOk(arguments, 0, false) && !StartsWith(rest, ParenL)
    ensures ReadArgumentList(PrintArgumentList(arguments) + rest) == Some(Parsed(arguments, rest))
  {
    if arguments == [] {
      assert PrintArgumentList(arguments) + rest == rest;
    } else {
      hide ReadArguments, PrintArguments, ArgumentsOk;
      assert Unseen(arguments, {});
      hide Unseen;
      ArgumentsComplete(arguments, ParenR, rest, 0, false, {});
      Tail(ParenL, PrintArguments(arguments) + [ParenR], rest);
    }
  }

  lemma PrintedDirectivesStart(ds: seq<Directive>, rest: seq<Token>)
    ensures StartsWith(PrintDirectives(ds) + rest, At) || PrintDirectives(ds) + rest == rest
    ensures ds != [] ==> StartsWith(PrintDirectives(ds) + rest, At)
  {
    hide PrintArgumentList;
    if ds == [] { assert [] + rest == rest; }
  }

  lemma DirectiveComplete(d: Directive, rest: seq<Token>)
    requires NameOk(d.name) && ArgumentsOk(d.arguments, 0, false) && !StartsWith(rest, ParenL)
    ensures ReadDirective([Name(d.name)] + (PrintArgumentList(d.arguments) + rest)) == Some(Parsed(d, rest))
  {
    hide ReadName, PrintArgumentList, ReadArgumentList, ArgumentsOk;
    NameComplete(d.name, PrintArgumentList(d.arguments) + rest);
    ArgumentListComplete(d.arguments, rest);
  }

  lemma {:induction false} DirectivesComplete(ds: seq<Directive>, rest: seq<Token>)
    requires DirectivesOk(ds) && !StartsWith(rest, ParenL) && !StartsWith(rest, At)
    ensures ReadDirectives(PrintDirectives(ds) + rest) == Some(Parsed(ds, rest))
  {
    if ds == [] {
      assert PrintDirectives(ds) + rest == rest;
    } else {
      hide PrintDirectives, PrintArgumentList, ReadArgumentList, ArgumentsOk, DirectivesOk;
      var d, more := ds[0], ds[1..];
      assert ds == [d] + more;
      DirectivesCons(d, more, rest);
      var after := PrintDirectives(more) + rest;
      PrintedDirectivesStart(more, rest);
      DirectiveComplete(d, after);
      DirectivesComplete(more, rest);
      hide ReadDirective;
      Tail(At, [Name(d.name)] + (PrintArgumentList(d.arguments) + after), []);
    }
  }

  lemma AliasComplete(alias: Option<string>, name: string, rest: seq<Token>)
    requires (alias.Some? ==> NameOk(alias.value)) && NameOk(name) && !StartsWith(rest, Colon)
    ensures ReadAlias(PrintAlias(alias) + ([Name(name)] + rest)) == Some(Parsed(alias, [Name(name)] + rest))
    ensures StartsWith(PrintAlias(alias) + ([Name(name)] + rest), Name(if alias.Some? then alias.value else name))
  {
    var s := PrintAlias(alias) + ([Name(name)] + rest);
    if alias.Some? {
      assert s[1..] == [Colon] + ([Name(name)] + rest) && s[1..][1..] == [Name(name)] + rest;
    } else {
      assert s == [Name(name)] + rest && s[1..] == rest;
    }
  }

  lemma ConditionComplete(condition: Option<string>, rest: seq<Token>)
    requires (condition.Some? ==> NameOk(condition.value)) && !StartsWith(rest, ON)
    ensures ReadCondition(PrintCondition(condition) + rest) == Some(Parsed(condition, rest))
    ensures condition.Some? ==> StartsWith(PrintCondition(condition) + rest, ON)
    ensures condition.None? ==> PrintCondition(condition) + rest == rest
  {
    var s := PrintCondition(condition) + rest;
    if condition.Some? {
      assert s[1..] == [Name(condition.value)] + rest && s[1..][1..] == rest;
    } else {
      assert s == rest;
    }
  }

  lemma NameComplete(name: string, rest: seq<Token>)
    requires NameOk(name)
    ensures ReadName([Name(name)] + rest) == Some(Parsed(name, rest))
  {
    assert ([Name(name)] + rest)[1..] == rest;
  }

  lemma SetStarts(children: seq<Selection>, rest: seq<Token>)
    ensures StartsWith(PrintSet(children) + rest, BraceL)
  {
    hide PrintSelections;
  }

  lemma ArgumentListStarts(arguments: seq<Argument>, rest: seq<Token>)
    ensures StartsWith(PrintArgumentList(arguments) + rest, ParenL) || PrintArgumentList(arguments) + rest == rest
  {
    hide PrintArguments;
    if arguments == [] { assert [] + rest == rest; }
  }

  /** The parts of a field, read one after the other. */
  lemma FieldParts(sel: Selection, s: seq<Token>, named: seq<Token>, listed: seq<Token>, directed: seq<Token>,
                   closed: seq<Token>, rest: seq<Token>, depth: nat)
    requires sel.Field? && ReadAlias(s) == Some(Parsed(sel.alias, named)) &&
             ReadName(named) == Some(Parsed(sel.name, listed))
    requires ReadArgumentList(listed) == Some(Parsed(sel.arguments, directed))
    requires ReadDirectives(directed) == Some(Parsed(sel.directives, closed))
    requires if StartsWith(closed, BraceL) then ReadSet(closed, depth + 1) == Some(Parsed(sel.children, rest))
             else sel.children == [] && closed == rest
    ensures ReadField(s, depth) == Some(Parsed(sel, rest))
  {
    hide ReadAlias, ReadName, ReadArgumentList, ReadDirectives, ReadSet;
  }

  lemma {:induction false} FieldComplete(sel: Selection, rest: seq<Token>, depth: nat)
    requires sel.Field? && SelectionOk(sel, depth) && Follows(rest)
    ensures ReadField(PrintSelection(sel) + rest, depth) == Some(Parsed(sel, rest))
    ensures PrintSelection(sel)[0].Name?
    decreases sel, 0
  {
    assert PrintSelection(sel)[0].Name? by { hide PrintArgumentList, PrintDirectives, PrintChildren; }
    hide PrintSelection, PrintAlias, PrintArgumentList, PrintDirectives, PrintSet, ArgumentsOk, DirectivesOk, SetOk,
      ReadAlias, ReadName, ReadArgumentList, ReadDirectives, ReadSet, ReadField;
    FieldThen(sel, rest);
    var kids := PrintChildren(sel.children) + rest;
    if sel.children != [] {
      SetStarts(sel.children, rest);
      SetComplete(sel.children, rest, depth + 1);
    } else {
      assert kids == rest;
    }
    DirectivesComplete(sel.directives, kids);
    PrintedDirectivesStart(sel.directives, kids);
    var directives := PrintDirectives(sel.directives) + kids;
    ArgumentListComplete(sel.arguments, directives);
    ArgumentListStarts(sel.arguments, directives);
    var arguments := PrintArgumentList(sel.arguments) + directives;
    NameComplete(sel.name, arguments);
    AliasComplete(sel.alias, sel.name, arguments);
    FieldParts(sel, PrintSelection(sel) + rest, [Name(sel.name)] + arguments, arguments, directives, kids, rest, depth);
  }

  lemma {:induction false} InlineComplete(sel: Selection, rest: seq<Token>, depth: nat)
    requires sel.Inline? && SelectionOk(sel, depth)
    ensures ReadSelection(PrintSelection(sel) + rest, depth) == Some(Parsed(sel, rest))
    decreases sel, 0
  {
    hide PrintSelection, PrintCondition, PrintDirectives, PrintSet, ArgumentsOk, DirectivesOk, SetOk, ReadCondition,
      ReadName, ReadDirectives, ReadSet;
    InlineThen(sel, rest);
    var kids := PrintSet(sel.children) + rest;
    SetStarts(sel.children, rest);
    SetComplete(sel.children, rest, depth + 1);
    DirectivesComplete(sel.directives, kids);
    PrintedDirectivesStart(sel.directives, kids);
    var directives := PrintDirectives(sel.directives) + kids;
    ConditionComplete(sel.condition, directives);
    InlineParts(sel, PrintCondition(sel.condition) + directives, directives, kids, rest, depth);
  }

  /** The parts of an inline fragment, read one after the other. */
  lemma InlineParts(sel: Selection, s: seq<Token>, directed: seq<Token>, closed: seq<Token>, rest: seq<Token>,
                    depth: nat)
    requires sel.Inline? && OpensInline(s) && ReadCondition(s) == Some(Parsed(sel.condition, directed))
    requires ReadDirectives(directed) == Some(Parsed(sel.directives, closed))
    requires ReadSet(closed, depth + 1) == Some(Parsed(sel.children, rest))
    ensures ReadSelection([Dots] + s, depth) == Some(Parsed(sel, rest))
  {
    hide ReadCondition, ReadDirectives, ReadSet;
    assert ([Dots] + s)[1..] == s;
  }

  lemma SpreadComplete(sel: Selection, rest: seq<Token>, depth: nat)
    requires sel.Spread? && SelectionOk(sel, depth) && Follows(rest)
    ensures ReadSelection(PrintSelection(sel) + rest, depth) == Some(Parsed(sel, rest))
  {
    hide PrintSelection, PrintDirectives, ArgumentsOk, DirectivesOk, ReadName, ReadDirectives;
    SpreadThen(sel, rest);
    DirectivesComplete(sel.directives, rest);
    var directives := PrintDirectives(sel.directives) + rest;
    NameComplete(sel.name, directives);
    var s := [Name(sel.name)] + directives;
    assert ([Dots] + s)[1..] == s;
  }

  lemma {:induction false} SelectionComplete(sel: Selection, rest: seq<Token>, depth: nat)
    requires SelectionOk(sel, depth) && Follows(rest)
    ensures ReadSelection(PrintSelection(sel) + rest, depth) == Some(Parsed(sel, rest))
    decreases sel, 1
  {
    hide PrintSelection, SelectionOk, ReadField, ReadInline, ReadSpread;
    match sel
    case Field(_, _, _, _, _) => FieldComplete(sel, rest, depth);
    case Inline(_, _, _) => InlineComplete(sel, rest, depth);
    case Spread(_, _) => SpreadComplete(sel, rest, depth);
  }

  lemma {:induction false} SelectionsComplete(sels: seq<Selection>, rest: seq<Token>, depth: nat)
    requires SelectionsOk(sels, depth)
    ensures ReadSelections(PrintSelections(sels) + [BraceR] + rest, depth) == Some(Parsed(sels, rest))
    decreases sels, 2
  {
    var s := PrintSelections(sels) + [BraceR] + rest;
    if sels == [] {
      assert s == [BraceR] + rest && s[1..] == rest;
    } else {
      hide PrintSelection, SelectionOk, ReadSelection, PrintSelections, SelectionsOk, ReadSelections;
      var first, more := sels[0], sels[1..];
      assert sels == [first] + more;
      SelectionsCons(first, more, depth);
      var after := PrintSelections(more) + [BraceR] + rest;
      Joined(PrintSelection(first) + after, PrintSelection(first), after, PrintSelections(more), BraceR, rest);
      assert s[0] == PrintSelection(first)[0];
      assert Follows(after);
      SelectionComplete(first, after, depth);
      SelectionsComplete(more, rest, depth);
      OneMoreSelection(PrintSelection(first) + after, first, after, more, rest, depth);
    }
  }

  lemma OneMoreSelection(s: seq<Token>, first: Selection, after: seq<Token>, more: seq<Selection>, rest: seq<Token>,
                         depth: nat)
    requires !StartsWith(s, BraceR) && ReadSelection(s, depth) == Some(Parsed(first, after))
    requires ReadSelections(after, depth) == Some(Parsed(more, rest))
    ensures ReadSelections(s, depth) == Some(Parsed([first] + more, rest))
  {
    hide ReadSelection;
  }

  /** Printing a tree within the limits and parsing it gives the tree back and consumes just its tokens. */
  lemma {:induction false} SetComplete(sels: seq<Selection>, rest: seq<Token>, depth: nat)
    requires SetOk(sels, depth)
    ensures ReadSet(PrintSet(sels) + rest, depth) == Some(Parsed(sels, rest))
    decreases sels, 3
  {
    hide PrintSelections, SelectionOk, ReadSelections;
    SelectionsComplete(sels, rest, depth);
    assert (PrintSet(sels) + rest)[1..] == PrintSelections(sels) + [BraceR] + rest;
  }

  /** The parser and the grammar agree, and so no token sequence has two readings. */
  lemma SetIff(s: seq<Token>, depth: nat, sels: seq<Selection>, rest: seq<Token>)
    ensures ReadSet(s, depth) == Some(Parsed(sels, rest)) <==> s == PrintSet(sels) + rest && SetOk(sels, depth)
  {
    hide ReadSet, PrintSet, SetOk;
    if ReadSet(s, depth) == Some(Parsed(sels, rest)) { SetSound(s, depth); }
    if s == PrintSet(sels) + rest && SetOk(sels, depth) { SetComplete(sels, rest, depth); }
  }
}

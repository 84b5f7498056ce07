/**
  The parser object: a position that advances over the tokens and the variables referenced
  so far. Each method reads what its reader function reads and builds the nodes kept for
  selection, in which directives and type conditions are dropped.
*/
module GraphqlParser {
  import opened Wrappers
  import opened GraphqlSyntax
  import opened GraphqlGrammar
  import opened GraphqlSelections
  import opened GraphqlDefinitions

  // ----- what is kept of a tree ---------------------------------------------------------------

  /** Sorted arguments with distinct names are compared only for equality: they are a map. */
  type Arguments = map<string, seq<Token>>

  datatype Node =
    | FieldNode(name: string, children: seq<Node>, response: string, arguments: Arguments)
    | InlineNode(children: seq<Node>)
    | SpreadNode(name: string)

  function ArgumentMap(arguments: seq<Argument>): Arguments {
    if arguments == [] then map[]
    else
      var last := arguments[|arguments| - 1];
      ArgumentMap(arguments[..|arguments| - 1])[last.name := PrintValue(last.value)]
  }

  function NodeOf(sel: Selection): Node
    decreases sel, 0
  {
    match sel
    case Field(alias, name, arguments, _, children) =>
      FieldNode(name, NodesOf(children), if alias.Some? then alias.value else name, ArgumentMap(arguments))
    case Inline(_, _, children) => InlineNode(NodesOf(children))
    case Spread(name, _) => SpreadNode(name)
  }

  function NodesOf(sels: seq<Selection>): (nodes: seq<Node>)
    ensures |nodes| == |sels| && forall i :: 0 <= i < |sels| ==> nodes[i] == NodeOf(sels[i])
    decreases sels, 1
  {
    if sels == [] then [] else NodesOf(sels[..|sels| - 1]) + [NodeOf(sels[|sels| - 1])]
  }

  function Vars(v: Value): set<string>
    decreases v, 0
  {
    match v
    case Variable(name) => {name}
    case Atom(_) => {}
    case ListOf(items) => VarsOfValues(items)
    case ObjectOf(fields) => VarsOfArguments(fields)
  }

  function VarsOfValues(vs: seq<Value>): set<string>
    decreases vs, 1
  {
    if vs == [] then {} else VarsOfValues(vs[..|vs| - 1]) + Vars(vs[|vs| - 1])
  }

  function VarsOfArguments(arguments: seq<Argument>): set<string>
    decreases arguments, 1
  {
    if arguments == [] then {} else VarsOfArguments(arguments[..|arguments| - 1]) +
                                    VarsOfArgument(arguments[|arguments| - 1])
  }

  function VarsOfArgument(a: Argument): set<string>
    decreases a, 0
  {
    Vars(a.value)
  }

  function VarsOfDirectives(ds: seq<Directive>): set<string> {
    if ds == [] then {} else VarsOfDirectives(ds[..|ds| - 1]) + VarsOfArguments(ds[|ds| - 1].arguments)
  }

  function VarsOfSelection(sel: Selection): set<string>
    decreases sel, 0
  {
    match sel
    case Field(_, _, arguments, directives, children) =>
      VarsOfArguments(arguments) + VarsOfDirectives(directives) + VarsOfSelections(children)
    case Inline(_, directives, children) => VarsOfDirectives(directives) + VarsOfSelections(children)
    case Spread(_, directives) => VarsOfDirectives(directives)
  }

  function VarsOfSelections(sels: seq<Selection>): set<string>
    decreases sels, 1
  {
    if sels == [] then {} else VarsOfSelections(sels[..|sels| - 1]) + VarsOfSelection(sels[|sels| - 1])
  }

  function Declared(vs: seq<VarDef>): set<string> {
    if vs == [] then {} else Declared(vs[..|vs| - 1]) + {vs[|vs| - 1].name}
  }

  /** Variables that must be supplied: not null and without a default. */
  function Required(vs: seq<VarDef>): set<string> {
    if vs == [] then {}
    else
      var last := vs[|vs| - 1];
      Required(vs[..|vs| - 1]) + if last.varType.nonNull && last.default.None? then {last.name} else {}
  }

  function VarsOfVarDefs(vs: seq<VarDef>): set<string> {
    if vs == [] then {} else VarsOfVarDefs(vs[..|vs| - 1]) + VarsOfVarDef(vs[|vs| - 1])
  }

  function VarsOfVarDef(v: VarDef): set<string> {
    (if v.default.Some? then Vars(v.default.value) else {}) + VarsOfDirectives(v.directives)
  }

  function VarsOfDefinition(d: Definition): set<string> {
    match d
    case Fragment(_, _, directives, selections) => VarsOfDirectives(directives) + VarsOfSelections(selections)
    case Operation(_, _, variables, directives, selections) =>
      VarsOfVarDefs(variables) + VarsOfDirectives(directives) + VarsOfSelections(selections)
  }

  datatype Op = Op(kind: Kind, title: Option<string>, nodes: seq<Node>, required: set<string>, declared: set<string>,
                   references: set<string>)

  datatype Document = Document(fragments: map<string, seq<Node>>, vars: map<string, set<string>>, operations: seq<Op>)

  function OpOf(d: Definition): Op
    requires d.Operation?
  {
    Op(d.kind, d.title, NodesOf(d.selections), Required(d.variables), Declared(d.variables), VarsOfDefinition(d))
  }

  function WithDefinition(doc: Document, d: Definition): Document {
    if d.Fragment? then
      doc.(fragments := doc.fragments[d.name := NodesOf(d.selections)], vars := doc.vars[d.name := VarsOfDefinition(d)])
    else doc.(operations := doc.operations + [OpOf(d)])
  }

  function DocumentOf(ds: seq<Definition>): Document {
    if ds == [] then Document(map[], map[], []) else WithDefinition(DocumentOf(ds[..|ds| - 1]), ds[|ds| - 1])
  }

  // ----- progress of the loops ----------------------------------------------------------------

  /** What a list reader returns when `done` was read before. */
  function With<T>(done: seq<T>, p: Option<Parsed<seq<T>>>): Option<Parsed<seq<T>>> {
    match p
    case Some(q) => Some(Parsed(done + q.tree, q.rest))
    case None => None
  }

  lemma WithNothing<T>(p: Option<Parsed<seq<T>>>)
    ensures With([], p) == p
  {
    if p.Some? { assert [] + p.value.tree == p.value.tree; }
  }

  /** One more item read, or none. */
  lemma WithNext<T>(done: seq<T>, x: T, p: Option<Parsed<seq<T>>>)
    ensures With(done + [x], p) ==
            With(done, match p case Some(more) => Some(Parsed([x] + more.tree, more.rest)) case None => None)
  {
    if p.Some? { WithMore(done, x, p.value); }
  }

  lemma WithNone<T>(done: seq<T>)
    ensures With(done, None) == None
  {
  }

  lemma WithEnd<T>(done: seq<T>, rest: seq<Token>)
    ensures With(done, Some(Parsed([], rest))) == Some(Parsed(done, rest))
  {
    assert done + [] == done;
  }

  lemma NoVars()
    ensures VarsOfValues([]) == {}
  {
  }

  lemma MoreVars(done: seq<Value>, v: Value)
    ensures VarsOfValues(done + [v]) == VarsOfValues(done) + Vars(v)
  {
    hide Vars;
    assert (done + [v])[..|done|] == done;
  }

  lemma WithMore<T>(done: seq<T>, x: T, more: Parsed<seq<T>>)
    ensures With(done, Some(Parsed([x] + more.tree, more.rest))) == With(done + [x], Some(more))
  {
    assert done + ([x] + more.tree) == done + [x] + more.tree;
  }

  function Names(arguments: seq<Argument>): set<string> { set i | 0 <= i < |arguments| :: arguments[i].name }

  lemma NamesMore(arguments: seq<Argument>, a: Argument)
    ensures Names(arguments + [a]) == Names(arguments) + {a.name}
    ensures ArgumentMap(arguments + [a]) == ArgumentMap(arguments)[a.name := PrintValue(a.value)]
    ensures VarsOfArguments(arguments + [a]) == VarsOfArguments(arguments) + Vars(a.value)
    ensures Names([]) == {}
  {
    hide PrintValue, Vars;
    var all := arguments + [a];
    assert all[..|all| - 1] == arguments;
    forall x | x in Names(arguments) + {a.name} ensures x in Names(all) {
      if x == a.name { assert all[|arguments|].name == x; }
      else {
        var i :| 0 <= i < |arguments| && arguments[i].name == x;
        assert all[i].name == x;
      }
    }
  }

  // ----- the parser ---------------------------------------------------------------------------

  class Parser {
    const tokens: seq<Token>
    var position: nat
    var references: set<string>

    constructor (tokens: seq<Token>)
      ensures this.tokens == tokens && Valid() && Ahead() == tokens && references == {}
    {
      this.tokens := tokens;
      position, references := 0, {};
    }

    predicate Valid()
      reads this
    {
      position <= |tokens|
    }

    function Ahead(): seq<Token>
      reads this
      requires Valid()
    {
      tokens[position..]
    }

    predicate Peek(t: Token)
      reads this
      requires Valid()
      ensures Peek(t) <==> StartsWith(Ahead(), t)
    {
      position < |tokens| && tokens[position] == t
    }

    method Take(t: Token) returns (ok: bool)
      requires Valid()
      modifies this`position
      ensures Valid() && ok == old(Peek(t)) && (ok ==> Ahead() == old(Ahead())[1..])
      ensures !ok ==> position == old(position)
    {
      ok := position < |tokens| && tokens[position] == t;
      if ok { position := position + 1; }
    }

    method TakeName() returns (name: Option<string>)
      requires Valid()
      modifies this`position
      ensures Valid()
      ensures match ReadName(old(Ahead()))
              case Some(p) => name == Some(p.tree) && Ahead() == p.rest
              case None => name == None
    {
      if position == |tokens| { return None; }
      var t := tokens[position];
      position := position + 1;
      if !t.Name? || !NameOk(t.text) { return None; }
      return Some(t.text);
    }

    /** Reads a value and keeps its variables. */
    method ParseValue(depth: nat, constant: bool) returns (ok: bool)
      requires Valid()
      modifies this
      ensures Valid()
      ensures match ReadValue(old(Ahead()), depth, constant)
              case Some(p) => ok && Ahead() == p.rest && references == old(references) + Vars(p.tree)
              case None => !ok
      decreases |tokens| - position, 0
    {
      hide ReadName, ReadValues, ReadArguments, VarsOfArguments, NameOk;
      if depth > MAX_DEPTH || position == |tokens| { return false; }
      var t := tokens[position];
      position := position + 1;
      if t == Dollar && !constant {
        var name := TakeName();
        if name.None? { return false; }
        references := references + {name.value};
        return true;
      }
      if t == BracketL {
        ok := ParseValues(depth + 1, constant);
      } else if t == BraceL {
        var arguments := ParseArguments(BraceR, depth + 1, constant);
        ok := arguments.Some?;
      } else {
        ok := IsAtom(t);
      }
    }

    method ParseValues(depth: nat, constant: bool) returns (ok: bool)
      requires Valid()
      modifies this
      ensures Valid()
      ensures match ReadValues(old(Ahead()), depth, constant)
              case Some(p) => ok && Ahead() == p.rest && references == old(references) + VarsOfValues(p.tree)
              case None => !ok
      decreases |tokens| - position, 1
    {
      hide ReadValue, Vars, VarsOfValues, With;
      ghost var start, before, done := Ahead(), references, [];
      WithNothing(ReadValues(start, depth, constant));
      NoVars();
      while !Peek(BracketR)
        invariant Valid() && position >= old(position)
        invariant ReadValues(start, depth, constant) == With(done, ReadValues(Ahead(), depth, constant))
        invariant references == before + VarsOfValues(done)
        decreases |tokens| - position
      {
        ghost var s := Ahead();
        ok := ParseValue(depth, constant);
        WithNone(done);
        if !ok { return; }
        ghost var v := ReadValue(s, depth, constant).value;
        WithNext(done, v.tree, ReadValues(v.rest, depth, constant));
        MoreVars(done, v.tree);
        done := done + [v.tree];
      }
      WithEnd(done, Ahead()[1..]);
      ok := Take(BracketR);
    }

    /** Named values up to `stop`: the fields of an object or the arguments of a field. */
    method ParseArguments(stop: Token, depth: nat, constant: bool) returns (arguments: Option<Arguments>)
      requires Valid()
      modifies this
      ensures Valid()
      ensures match ReadArguments(old(Ahead()), stop, depth, constant, {})
              case Some(p) =>
                arguments == Some(ArgumentMap(p.tree)) && Ahead() == p.rest &&
                  references == old(references) + VarsOfArguments(p.tree)
              case None => arguments == None
      decreases |tokens| - position, 1
    {
      hide ReadArgument, ReadName, ReadValue, Vars, PrintValue, VarsOfArguments, ArgumentMap, Names, With;
      ghost var start, before := Ahead(), references;
      ghost var done: seq<Argument> := [];
      var seen: set<string> := {};
      var values: Arguments := map[];
      WithNothing(ReadArguments(start, stop, depth, constant, {}));
      EmptyArguments();
      while !Peek(stop)
        invariant Valid() && position >= old(position)
        invariant ReadArguments(start, stop, depth, constant, {}) == With(done,
                  ReadArguments(Ahead(), stop, depth, constant, seen))
        invariant references == before + VarsOfArguments(done) && seen == Names(done) && values == ArgumentMap(done)
        decreases |tokens| - position
      {
        ghost var s := Ahead();
        var name, value := ParseArgument(depth, constant);
        WithNone(done);
        if name.None? || name.value in seen { return None; }
        ghost var a := ReadArgument(s, depth, constant).value;
        seen := seen + {name.value};
        values := values[name.value := value];
        WithNext(done, a.tree, ReadArguments(a.rest, stop, depth, constant, seen));
        NamesMore(done, a.tree);
        done := done + [a.tree];
      }
      WithEnd(done, Ahead()[1..]);
      var end := Take(stop);
      return Some(values);
    }

    lemma EmptyArguments()
      ensures Names([]) == {} && ArgumentMap([]) == map[] && VarsOfArguments([]) == {}
    {
    }

    /** One name, a colon and a value; the value is kept as the tokens it was read from. */
    method ParseArgument(depth: nat, constant: bool) returns (name: Option<string>, value: seq<Token>)
      requires Valid()
      modifies this
      ensures Valid()
      ensures match ReadArgument(old(Ahead()), depth, constant)
              case Some(p) =>
                name == Some(p.tree.name) && value == PrintValue(p.tree.value) && Ahead() == p.rest &&
                references == old(references) + Vars(p.tree.value)
              case None => name == None
      decreases |tokens| - position, 0
    {
      hide ReadValue, PrintValue, Vars, NameOk;
      value := [];
      name := TakeName();
      if name.None? { return; }
      var colon := Take(Colon);
      if !colon { return None, []; }
      ghost var s := Ahead();
      var start := position;
      var ok := ParseValue(depth, constant);
      if !ok { return None, []; }
      ValueSound(s, depth, constant);
      ghost var p := ReadValue(s, depth, constant).value;
      value := tokens[start..position];
      var n := |s| - |p.rest|;
      assert s[..n] == PrintValue(p.tree);
      assert s[..n] == value;
    }

    method ParseArgumentList() returns (arguments: Option<Arguments>)
      requires Valid()
      modifies this
      ensures Valid()
      ensures match ReadArgumentList(old(Ahead()))
              case Some(p) =>
                arguments == Some(ArgumentMap(p.tree)) && Ahead() == p.rest &&
                  references == old(references) + VarsOfArguments(p.tree)
              case None => arguments == None
    {
      hide ReadArguments;
      EmptyArguments();
      if !Peek(ParenL) { return Some(map[]); }
      var open := Take(ParenL);
      ghost var s := Ahead();
      arguments := ParseArguments(ParenR, 0, false);
      if arguments.Some? {
        ArgumentMapEmpty(ReadArguments(s, ParenR, 0, false, {}).value.tree);
        if arguments.value == map[] { return None; }
      }
    }

    lemma ArgumentMapEmpty(arguments: seq<Argument>)
      ensures ArgumentMap(arguments) == map[] <==> arguments == []
    {
      if arguments != [] { assert arguments[|arguments| - 1].name in ArgumentMap(arguments); }
    }

    method ParseDirectives() returns (ok: bool)
      requires Valid()
      modifies this
      ensures Valid()
      ensures match ReadDirectives(old(Ahead()))
              case Some(p) => ok && Ahead() == p.rest && references == old(references) + VarsOfDirectives(p.tree)
              case None => !ok
    {
      hide ReadName, ReadArgumentList, VarsOfArguments, ArgumentMap;
      ghost var start, before := Ahead(), references;
      ghost var done: seq<Directive> := [];
      WithNothing(ReadDirectives(start));
      while Peek(At)
        invariant Valid()
        invariant ReadDirectives(start) == With(done, ReadDirectives(Ahead()))
        invariant references == before + VarsOfDirectives(done)
        decreases |tokens| - position
      {
        ghost var s := Ahead();
        var at := Take(At);
        var name := TakeName();
        if name.None? { return false; }
        var arguments := ParseArgumentList();
        if arguments.None? { return false; }
        ghost var d := ReadDirective(s[1..]).value;
        ghost var more := ReadDirectives(d.rest);
        if more.Some? { WithMore(done, d.tree, more.value); }
        assert (done + [d.tree])[..|done|] == done;
        done := done + [d.tree];
      }
      assert done + [] == done;
      return true;
    }

    /** The response name and the field name; they differ when there is an alias. */
    method ParseFieldName() returns (response: Option<string>, name: string)
      requires Valid()
      modifies this`position
      ensures Valid()
      ensures match ReadAlias(old(Ahead()))
              case None => response == None
              case Some(alias) =>
                match ReadName(alias.rest)
                case None => response == None
                case Some(p) =>
                  name == p.tree && Ahead() == p.rest &&
                    response == Some(if alias.tree.Some? then alias.tree.value else name)
    {
      hide NameOk;
      response, name := None, "";
      var first := TakeName();
      if first.None? { return; }
      name := first.value;
      if Peek(Colon) {
        var colon := Take(Colon);
        var second := TakeName();
        if second.None? { return; }
        name := second.value;
      }
      response := first;
    }

    method ParseField(depth: nat) returns (node: Option<Node>)
      requires Valid()
      modifies this
      ensures Valid()
      ensures match ReadField(old(Ahead()), depth)
              case Some(p) => node == Some(NodeOf(p.tree)) && Ahead() == p.rest &&
                references == old(references) + VarsOfSelection(p.tree)
              case None => node == None
      decreases |tokens| - position, 2
    {
      hide ReadAlias, ReadName, ReadSet, ReadArgumentList, ReadDirectives, VarsOfArguments, VarsOfDirectives,
        VarsOfSelections, ArgumentMap, NodesOf, NameOk;
      ghost var before := references;
      var response, name := ParseFieldName();
      if response.None? { return None; }
      var arguments := ParseArgumentList();
      if arguments.None? { return None; }
      ghost var listed := references;
      var ok := ParseDirectives();
      if !ok { return None; }
      ghost var directed := references;
      NothingKept();
      if !Peek(BraceL) {
        ghost var sel := ReadField(old(Ahead()), depth).value.tree;
        Gathered(before, VarsOfArguments(sel.arguments), VarsOfDirectives(sel.directives), {});
        return Some(FieldNode(name, [], response.value, arguments.value));
      }
      var children := ParseSet(depth + 1);
      if children.None? { return None; }
      ghost var sel := ReadField(old(Ahead()), depth).value.tree;
      Gathered(before, VarsOfArguments(sel.arguments), VarsOfDirectives(sel.directives),
        VarsOfSelections(sel.children));
      return Some(FieldNode(name, children.value, response.value, arguments.value));
    }

    lemma Gathered(a: set<string>, b: set<string>, c: set<string>, d: set<string>)
      ensures a + b + c + d == a + (b + c + d) && a + b + c == a + (b + c)
      ensures a + b + c == a + (b + c + {})
    {
    }

    lemma NothingKept()
      ensures NodesOf([]) == [] && VarsOfSelections([]) == {}
    {
    }

    method ParseCondition() returns (ok: bool)
      requires Valid()
      modifies this`position
      ensures Valid()
      ensures match ReadCondition(old(Ahead()))
              case Some(p) => ok && Ahead() == p.rest
              case None => !ok
    {
      hide ReadName;
      if !Peek(ON) { return true; }
      var on := Take(ON);
      var condition := TakeName();
      return condition.Some?;
    }

    method ParseInline(depth: nat) returns (node: Option<Node>)
      requires Valid()
      modifies this
      ensures Valid()
      ensures match ReadInline(old(Ahead()), depth)
              case Some(p) => node == Some(NodeOf(p.tree)) && Ahead() == p.rest &&
                references == old(references) + VarsOfSelection(p.tree)
              case None => node == None
      decreases |tokens| - position, 2
    {
      hide ReadCondition, ReadSet, ReadDirectives, VarsOfArguments, VarsOfDirectives, VarsOfSelections, NodesOf,
        ArgumentMap;
      ghost var before := references;
      var ok := ParseCondition();
      if !ok { return None; }
      ok := ParseDirectives();
      if !ok { return None; }
      var children := ParseSet(depth + 1);
      if children.None? { return None; }
      ghost var sel := ReadInline(old(Ahead()), depth).value.tree;
      Gathered(before, VarsOfDirectives(sel.directives), VarsOfSelections(sel.children), {});
      return Some(InlineNode(children.value));
    }

    method ParseSpread() returns (node: Option<Node>)
      requires Valid()
      modifies this
      ensures Valid()
      ensures match ReadSpread(old(Ahead()))
              case Some(p) => node == Some(NodeOf(p.tree)) && Ahead() == p.rest &&
                references == old(references) + VarsOfSelection(p.tree)
              case None => node == None
    {
      hide ReadName, ReadDirectives, VarsOfArguments, VarsOfDirectives;
      var name := TakeName();
      if name.None? { return None; }
      var ok := ParseDirectives();
      return if ok then Some(SpreadNode(name.value)) else None;
    }

    method ParseSelection(depth: nat) returns (node: Option<Node>)
      requires Valid()
      modifies this
      ensures Valid()
      ensures match ReadSelection(old(Ahead()), depth)
              case Some(p) => node == Some(NodeOf(p.tree)) && Ahead() == p.rest &&
                references == old(references) + VarsOfSelection(p.tree)
              case None => node == None
      decreases |tokens| - position, 3
    {
      hide ReadField, ReadInline, ReadSpread, VarsOfSelection, NodeOf;
      if !Peek(Dots) {
        node := ParseField(depth);
        return;
      }
      var dots := Take(Dots);
      if Peek(ON) || Peek(At) || Peek(BraceL) {
        node := ParseInline(depth);
      } else {
        node := ParseSpread();
      }
    }

    /** The selections up to the closing brace. */
    method ParseSelections(depth: nat) returns (nodes: Option<seq<Node>>)
      requires Valid()
      modifies this
      ensures Valid()
      ensures match ReadSelections(old(Ahead()), depth)
              case Some(p) => nodes == Some(NodesOf(p.tree)) && Ahead() == p.rest &&
                references == old(references) + VarsOfSelections(p.tree)
              case None => nodes == None
      decreases |tokens| - position, 4
    {
      hide ReadSelections, ReadSelection, VarsOfSelections, VarsOfSelection, NodesOf, NodeOf, With;
      ghost var start, before := Ahead(), references;
      ghost var done: seq<Selection> := [];
      var result: seq<Node> := [];
      NothingKept();
      WithNothing(ReadSelections(start, depth));
      while !Peek(BraceR)
        invariant Valid() && position >= old(position)
        invariant ReadSelections(start, depth) == With(done, ReadSelections(Ahead(), depth))
        invariant references == before + VarsOfSelections(done) && result == NodesOf(done)
        decreases |tokens| - position
      {
        ghost var s := Ahead();
        NextSelection(s, depth, done);
        var node := ParseSelection(depth);
        if node.None? { return None; }
        result := result + [node.value];
        done := done + [ReadSelection(s, depth).value.tree];
      }
      LastSelection(Ahead(), depth, done);
      var brace := Take(BraceR);
      return Some(result);
    }

    lemma NextSelection(s: seq<Token>, depth: nat, done: seq<Selection>)
      requires !StartsWith(s, BraceR)
      ensures match ReadSelection(s, depth)
              case None => With(done, ReadSelections(s, depth)) == None
              case Some(p) =>
                var more := done + [p.tree];
                With(done, ReadSelections(s, depth)) == With(more, ReadSelections(p.rest, depth)) &&
                NodesOf(more) == NodesOf(done) + [NodeOf(p.tree)] &&
                  VarsOfSelections(more) == VarsOfSelections(done) + VarsOfSelection(p.tree)
    {
      hide ReadSelection, VarsOfSelection, NodeOf;
      var r := ReadSelection(s, depth);
      if r.Some? {
        var more := ReadSelections(r.value.rest, depth);
        if more.Some? { WithMore(done, r.value.tree, more.value); }
        assert (done + [r.value.tree])[..|done|] == done;
      }
    }

    lemma LastSelection(s: seq<Token>, depth: nat, done: seq<Selection>)
      requires StartsWith(s, BraceR)
      ensures With(done, ReadSelections(s, depth)) == Some(Parsed(done, s[1..]))
    {
      assert done + [] == done;
    }

    /** A selection set, and with it the variables referenced anywhere inside. */
    method ParseSet(depth: nat) returns (nodes: Option<seq<Node>>)
      requires Valid()
      modifies this
      ensures Valid()
      ensures match ReadSet(old(Ahead()), depth)
              case Some(p) => nodes == Some(NodesOf(p.tree)) && Ahead() == p.rest &&
                references == old(references) + VarsOfSelections(p.tree)
              case None => nodes == None
      decreases |tokens| - position, 1
    {
      hide ReadSelections, VarsOfSelections;
      if depth > MAX_DEPTH || !Peek(BraceL) { return None; }
      var brace := Take(BraceL);
      nodes := ParseSelections(depth);
      if nodes == Some([]) { return None; }
    }

    // ----- definitions ------------------------------------------------------------------------

    method ParseType(depth: nat) returns (ok: bool, nonNull: bool)
      requires Valid()
      modifies this`position
      ensures Valid()
      ensures match ReadType(old(Ahead()), depth)
              case Some(p) => ok && Ahead() == p.rest && nonNull == p.tree.nonNull
              case None => !ok
      decreases |tokens| - position
    {
      hide NameOk;
      if depth > MAX_TYPE_DEPTH { return false, false; }
      if Peek(BracketL) {
        var open := Take(BracketL);
        var inner;
        ok, inner := ParseType(depth + 1);
        if !ok { return false, false; }
        ok := Take(BracketR);
      } else {
        var name := TakeName();
        ok := name.Some?;
      }
      if !ok { return false, false; }
      nonNull := Take(Bang);
    }

    method ParseDefault() returns (ok: bool, present: bool)
      requires Valid()
      modifies this
      ensures Valid()
      ensures match ReadDefault(old(Ahead()))
              case Some(p) =>
                ok && Ahead() == p.rest && present == p.tree.Some? &&
                references == old(references) + (if p.tree.Some? then Vars(p.tree.value) else {})
              case None => !ok
    {
      hide ReadValue, Vars;
      present := Peek(Equals);
      ok := true;
      if present {
        var equals := Take(Equals);
        ok := ParseValue(0, true);
      }
    }

    method ParseVarDef() returns (name: Option<string>, required: bool)
      requires Valid()
      modifies this
      ensures Valid()
      ensures match ReadVarDef(old(Ahead()))
              case Some(p) =>
                name == Some(p.tree.name) && required == (p.tree.varType.nonNull && p.tree.default.None?) &&
                  Ahead() == p.rest &&
                references == old(references) + VarsOfVarDef(p.tree)
              case None => name == None
    {
      hide ReadName, ReadType, ReadDefault, ReadDirectives, Vars, VarsOfDirectives;
      required := false;
      var ok := Take(Dollar);
      if !ok { return None, false; }
      var called := TakeName();
      if called.None? { return None, false; }
      ok := Take(Colon);
      if !ok { return None, false; }
      var nonNull;
      ok, nonNull := ParseType(0);
      if !ok { return None, false; }
      var present;
      ok, present := ParseDefault();
      if !ok { return None, false; }
      ok := ParseDirectives();
      if !ok { return None, false; }
      return called, nonNull && !present;
    }

    lemma MoreVarDefs(done: seq<VarDef>, v: VarDef)
      ensures Declared(done + [v]) == Declared(done) + {v.name} &&
              VarsOfVarDefs(done + [v]) == VarsOfVarDefs(done) + VarsOfVarDef(v)
      ensures Required(done + [v]) == Required(done) + if v.varType.nonNull && v.default.None? then {v.name} else {}
      ensures Declared([]) == Required([]) == VarsOfVarDefs([]) == {}
    {
      hide VarsOfVarDef;
      assert (done + [v])[..|done|] == done;
    }

    lemma NamesDeclared(vs: seq<VarDef>)
      ensures Declared(vs) == {} <==> vs == []
    {
      if vs != [] { assert vs[|vs| - 1].name in Declared(vs); }
    }

    /** The variables that must be supplied and all that are declared. */
    method ParseVariables() returns (ok: bool, required: set<string>, declared: set<string>)
      requires Valid()
      modifies this
      ensures Valid()
      ensures match ReadVariables(old(Ahead()))
              case Some(p) =>
                ok && Ahead() == p.rest && required == Required(p.tree) && declared == Declared(p.tree) &&
                references == old(references) + VarsOfVarDefs(p.tree)
              case None => !ok
    {
      hide ReadVarDef, Required, Declared, VarsOfVarDefs, VarsOfVarDef;
      ghost var filler: VarDef := VarDef("", NamedType("", false), None, []);
      MoreVarDefs([], filler);
      required, declared := {}, {};
      if !Peek(ParenL) { return true, {}, {}; }
      ok := Take(ParenL);
      ghost var start, before := Ahead(), references;
      ghost var done: seq<VarDef> := [];
      WithNothing(ReadVarDefs(start, {}));
      while !Peek(ParenR)
        invariant Valid()
        invariant ReadVarDefs(start, {}) == With(done, ReadVarDefs(Ahead(), declared))
        invariant required == Required(done) && declared == Declared(done) && references == before + VarsOfVarDefs(done)
        decreases |tokens| - position
      {
        ghost var s := Ahead();
        var name, needed := ParseVarDef();
        if name.None? || name.value in declared { return false, {}, {}; }
        ghost var v := ReadVarDef(s).value;
        declared := declared + {name.value};
        if needed { required := required + {name.value}; }
        ghost var more := ReadVarDefs(v.rest, declared);
        if more.Some? { WithMore(done, v.tree, more.value); }
        MoreVarDefs(done, v.tree);
        done := done + [v.tree];
      }
      assert done + [] == done;
      ok := Take(ParenR);
      NamesDeclared(done);
      ok := declared != {};
    }

    method ParseFragment() returns (name: Option<string>, nodes: seq<Node>)
      requires Valid()
      modifies this
      ensures Valid()
      ensures match ReadFragment(old(Ahead()))
              case Some(p) =>
                name == Some(p.tree.name) && nodes == NodesOf(p.tree.selections) && Ahead() == p.rest &&
                references == old(references) + VarsOfDefinition(p.tree)
              case None => name == None
    {
      hide ReadName, ReadDirectives, ReadSet, VarsOfDirectives, VarsOfSelections, NodesOf;
      nodes := [];
      var called := TakeName();
      if called.None? || Name(called.value) == ON { return None, []; }
      var ok := Take(ON);
      if !ok { return None, []; }
      var condition := TakeName();
      if condition.None? { return None, []; }
      ok := ParseDirectives();
      if !ok { return None, []; }
      var selection := ParseSet(0);
      if selection.None? { return None, []; }
      return called, selection.value;
    }

    method ParseTitle() returns (ok: bool, title: Option<string>)
      requires Valid()
      modifies this`position
      ensures Valid()
      ensures match ReadTitle(old(Ahead()))
              case Some(p) => ok && title == p.tree && Ahead() == p.rest
              case None => !ok
    {
      hide ReadName;
      if Peek(ParenL) || Peek(At) || Peek(BraceL) { return true, None; }
      title := TakeName();
      ok := title.Some?;
    }

    /** An operation; what it declares and references is kept with its selection. */
    method ParseOperation() returns (op: Option<Op>)
      requires Valid() && references == {}
      modifies this
      ensures Valid()
      ensures match ReadOperation(old(Ahead()))
              case Some(p) => op == Some(OpOf(p.tree)) && Ahead() == p.rest
              case None => op == None
    {
      hide ReadTitle, ReadVariables, ReadDirectives, ReadSet, Required, Declared, VarsOfVarDefs, VarsOfDirectives,
        VarsOfSelections, NodesOf, KindOf;
      NothingDeclared();
      if position == |tokens| { return None; }
      if Peek(BraceL) {
        var selection := ParseSet(0);
        if selection.None? { return None; }
        ghost var sels := ReadSet(old(Ahead()), 0).value.tree;
        assert VarsOfVarDefs([]) + VarsOfDirectives([]) + VarsOfSelections(sels) == references;
        return Some(Op(Query, None, selection.value, {}, {}, references));
      }
      var kind := KindOf(tokens[position]);
      position := position + 1;
      if kind.None? { return None; }
      var ok, title := ParseTitle();
      if !ok { return None; }
      var required, declared;
      ok, required, declared := ParseVariables();
      if !ok { return None; }
      ok := ParseDirectives();
      if !ok { return None; }
      var selection := ParseSet(0);
      if selection.None? { return None; }
      ghost var d := ReadOperation(old(Ahead())).value.tree;
      assert references == VarsOfDefinition(d);
      return Some(Op(kind.value, title, selection.value, required, declared, references));
    }

    lemma NothingDeclared()
      ensures Declared([]) == Required([]) == VarsOfVarDefs([]) == VarsOfDirectives([]) == {}
    {
    }

    /** All definitions: fragments by name, operations in order. */
    method ParseDocument() returns (doc: Option<Document>)
      requires Valid() && position == 0
      modifies this
      ensures match ReadDefinitions(tokens, {})
              case Some(ds) => doc == Some(DocumentOf(ds))
              case None => doc == None
    {
      hide ReadFragment, ReadOperation, OpOf, NodesOf, VarsOfDefinition;
      var fragments: map<string, seq<Node>> := map[];
      var vars: map<string, set<string>> := map[];
      var operations: seq<Op> := [];
      ghost var done: seq<Definition> := [];
      assert Ahead() == tokens && fragments.Keys == {};
      Prefixed(done, ReadDefinitions(tokens, {}));
      while position < |tokens|
        invariant Valid()
        invariant ReadDefinitions(tokens, {}) == Prefix(done, ReadDefinitions(Ahead(), fragments.Keys))
        invariant Document(fragments, vars, operations) == DocumentOf(done)
        decreases |tokens| - position
      {
        ghost var s := Ahead();
        ghost var named := fragments.Keys;
        references := {};
        if Peek(FRAGMENT) {
          var fragment := Take(FRAGMENT);
          var name, nodes := ParseFragment();
          if name.None? || name.value in fragments { return None; }
          fragments := fragments[name.value := nodes];
          vars := vars[name.value := references];
          assert references == VarsOfDefinition(ReadFragment(s[1..]).value.tree);
          assert fragments.Keys == named + {name.value};
        } else {
          var op := ParseOperation();
          if op.None? { return None; }
          operations := operations + [op.value];
        }
        ghost var d := ReadDefinition(s).value;
        PrefixMore(done, d.tree, ReadDefinitions(d.rest, fragments.Keys));
        assert (done + [d.tree])[..|done|] == done;
        done := done + [d.tree];
      }
      assert done + [] == done;
      return Some(Document(fragments, vars, operations));
    }

    lemma Prefixed(done: seq<Definition>, p: Option<seq<Definition>>)
      requires done == []
      ensures Prefix(done, p) == p
    {
      if p.Some? { assert done + p.value == p.value; }
    }

    lemma PrefixMore(done: seq<Definition>, d: Definition, p: Option<seq<Definition>>)
      ensures Prefix(done, Prefix([d], p)) == Prefix(done + [d], p)
    {
      if p.Some? { assert done + ([d] + p.value) == done + [d] + p.value; }
    }
  }

  function Prefix(done: seq<Definition>, p: Option<seq<Definition>>): Option<seq<Definition>> {
    match p case Some(more) => Some(done + more) case None => None
  }
}

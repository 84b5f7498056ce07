/**
  The part of the GraphQL grammar that operation selection reads, after lexing: syntax
  trees, how they are written as tokens, and which trees are within the limits. The
  grammar is section 2 of the GraphQL specification of October 2021.
*/
module GraphqlSyntax {
  import opened Wrappers

  datatype Token =
    | Bang | Dollar | ParenL | ParenR | Dots | Colon | Equals | At | BracketL | BracketR | BraceL | Bar | BraceR
    | Name(text: string) | Quoted(text: string) | Number(text: string)

  const MAX_NAME: nat := 128
  const MAX_DEPTH: nat := 32
  const MAX_TYPE_DEPTH: nat := 16

  const ON: Token := Name("on")

  predicate NameOk(name: string) { |name| <= MAX_NAME }

  // ----- values, arguments and directives -----------------------------------------------------

  datatype Value =
    | Variable(name: string)
    | Atom(token: Token)
    | ListOf(items: seq<Value>)
    | ObjectOf(fields: seq<Argument>)

  datatype Argument = Argument(name: string, value: Value)

  datatype Directive = Directive(name: string, arguments: seq<Argument>)

  predicate IsAtom(t: Token) { t.Name? || t.Quoted? || t.Number? }

  function PrintValue(v: Value): (r: seq<Token>)
    ensures r != []
  {
    match v
    case Variable(name) => [Dollar, Name(name)]
    case Atom(t) => [t]
    case ListOf(items) => [BracketL] + (PrintValues(items) + [BracketR])
    case ObjectOf(fields) => [BraceL] + (PrintArguments(fields) + [BraceR])
  }

  function PrintValues(vs: seq<Value>): seq<Token> {
    if vs == [] then [] else PrintValue(vs[0]) + PrintValues(vs[1..])
  }

  function PrintArguments(arguments: seq<Argument>): seq<Token> {
    if arguments == [] then [] else PrintArgument(arguments[0]) + PrintArguments(arguments[1..])
  }

  function PrintArgument(a: Argument): seq<Token> { [Name(a.name), Colon] + PrintValue(a.value) }

  /** Nesting within bounds, names not repeated within an object, no variables in a constant. */
  predicate ValueOk(v: Value, depth: nat, constant: bool)
    decreases v
  {
    depth <= MAX_DEPTH &&
    match v
    case Variable(name) => !constant && NameOk(name)
    case Atom(t) => IsAtom(t)
    case ListOf(items) => ValuesOk(items, depth + 1, constant)
    case ObjectOf(fields) => ArgumentsOk(fields, depth + 1, constant)
  }

  predicate ValuesOk(vs: seq<Value>, depth: nat, constant: bool)
    decreases vs
  {
    forall i :: 0 <= i < |vs| ==> ValueOk(vs[i], depth, constant)
  }

  predicate ArgumentsOk(arguments: seq<Argument>, depth: nat, constant: bool)
    decreases arguments
  {
    (forall i :: 0 <= i < |arguments| ==> ArgumentOk(arguments[i], depth, constant)) && Distinct(arguments)
  }

  predicate ArgumentOk(a: Argument, depth: nat, constant: bool)
    decreases a
  {
    NameOk(a.name) && ValueOk(a.value, depth, constant)
  }

  predicate Distinct(arguments: seq<Argument>) {
    forall i, j :: 0 <= i < j < |arguments| ==> arguments[i].name != arguments[j].name
  }

  function PrintArgumentList(arguments: seq<Argument>): seq<Token> {
    if arguments == [] then [] else [ParenL] + (PrintArguments(arguments) + [ParenR])
  }

  function PrintDirectives(ds: seq<Directive>): seq<Token> {
    if ds == [] then []
    else [At, Name(ds[0].name)] + (PrintArgumentList(ds[0].arguments) + PrintDirectives(ds[1..]))
  }

  predicate DirectivesOk(ds: seq<Directive>) {
    forall i :: 0 <= i < |ds| ==> NameOk(ds[i].name) && ArgumentsOk(ds[i].arguments, 0, false)
  }

  // ----- selections ---------------------------------------------------------------------------

  /** A field without a selection set has no children. */
  datatype Selection =
    | Field(alias: Option<string>, name: string, arguments: seq<Argument>, directives: seq<Directive>,
      children: seq<Selection>)
    | Inline(condition: Option<string>, directives: seq<Directive>, children: seq<Selection>)
    | Spread(name: string, directives: seq<Directive>)

  function PrintAlias(alias: Option<string>): seq<Token> { if alias.Some? then [Name(alias.value), Colon] else [] }

  function PrintCondition(condition: Option<string>): seq<Token> {
    if condition.Some? then [ON, Name(condition.value)] else []
  }

  function PrintSelection(sel: Selection): (r: seq<Token>)
    ensures r != [] && (r[0] == Dots || r[0].Name?)
    decreases sel, 0
  {
    match sel
    case Field(alias, name, arguments, directives, children) =>
      PrintAlias(alias) +
      ([Name(name)] + (PrintArgumentList(arguments) + (PrintDirectives(directives) + PrintChildren(children))))
    case Inline(condition, directives, children) =>
      [Dots] + (PrintCondition(condition) + (PrintDirectives(directives) + PrintSet(children)))
    case Spread(name, directives) => [Dots] + ([Name(name)] + PrintDirectives(directives))
  }

  function PrintChildren(sels: seq<Selection>): seq<Token>
    decreases sels, 2
  {
    if sels == [] then [] else PrintSet(sels)
  }

  function PrintSet(sels: seq<Selection>): seq<Token>
    decreases sels, 1
  {
    [BraceL] + (PrintSelections(sels) + [BraceR])
  }

  function PrintSelections(sels: seq<Selection>): seq<Token>
    decreases sels, 0
  {
    if sels == [] then [] else PrintSelection(sels[0]) + PrintSelections(sels[1..])
  }

  predicate SetOk(sels: seq<Selection>, depth: nat)
    decreases sels
  {
    depth <= MAX_DEPTH && sels != [] && forall i :: 0 <= i < |sels| ==> SelectionOk(sels[i], depth)
  }

  predicate SelectionOk(sel: Selection, depth: nat)
    decreases sel
  {
    DirectivesOk(sel.directives) &&
    match sel
    case Field(alias, name, arguments, _, children) =>
      (alias.Some? ==> NameOk(alias.value)) && NameOk(name) && ArgumentsOk(arguments, 0, false) &&
      (children == [] || SetOk(children, depth + 1))
    case Inline(condition, _, children) => (condition.Some? ==> NameOk(condition.value)) && SetOk(children, depth + 1)
    case Spread(name, _) => NameOk(name) && Name(name) != ON
  }
}

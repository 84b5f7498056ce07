/** Reading types, variable definitions and the definitions of a document, as functions. */
module GraphqlDefinitions {
  import opened Wrappers
  import opened GraphqlSyntax
  import opened GraphqlGrammar
  import opened GraphqlSelections

  datatype TypeRef = NamedType(name: string, nonNull: bool) | ListType(inner: TypeRef, nonNull: bool)

  datatype VarDef = VarDef(name: string, varType: TypeRef, default: Option<Value>, directives: seq<Directive>)

  datatype Kind = Query | Mutation | Subscription

  datatype Definition =
    | Fragment(name: string, condition: string, directives: seq<Directive>, selections: seq<Selection>)
    | Operation(kind: Kind, title: Option<string>, variables: seq<VarDef>, directives: seq<Directive>,
      selections: seq<Selection>)

  /** An optional exclamation mark. */
  function SkipBang(s: seq<Token>): seq<Token> { if StartsWith(s, Bang) then s[1..] else s }

  function ReadType(s: seq<Token>, depth: nat): (r: Option<Parsed<TypeRef>>)
    ensures r.Some? ==> |r.value.rest| < |s|
    decreases |s|
  {
    if depth > MAX_TYPE_DEPTH then None
    else if StartsWith(s, BracketL) then
      match ReadType(s[1..], depth + 1)
      case None => None
      case Some(p) =>
        if !StartsWith(p.rest, BracketR) then None
        else Some(Parsed(ListType(p.tree, StartsWith(p.rest[1..], Bang)), SkipBang(p.rest[1..])))
    else
      match ReadName(s)
      case Some(p) => Some(Parsed(NamedType(p.tree, StartsWith(p.rest, Bang)), SkipBang(p.rest)))
      case None => None
  }

  function ReadDefault(s: seq<Token>): (r: Option<Parsed<Option<Value>>>)
    ensures r.Some? ==> |r.value.rest| <= |s|
  {
    if !StartsWith(s, Equals) then Some(Parsed(None, s))
    else match ReadValue(s[1..], 0, true) case Some(p) => Some(Parsed(Some(p.tree), p.rest)) case None => None
  }

  /** `$name: type = default @directives` */
  function ReadVarDef(s: seq<Token>): (r: Option<Parsed<VarDef>>)
    ensures r.Some? ==> |r.value.rest| < |s|
  {
    if !StartsWith(s, Dollar) then None
    else
      match ReadName(s[1..])
      case None => None
      case Some(name) =>
        if !StartsWith(name.rest, Colon) then None
        else
          match ReadType(name.rest[1..], 0)
          case None => None
          case Some(type_) =>
            match ReadDefault(type_.rest)
            case None => None
            case Some(default) =>
              match ReadDirectives(default.rest)
              case Some(p) => Some(Parsed(VarDef(name.tree, type_.tree, default.tree, p.tree), p.rest))
              case None => None
  }

  function ReadVarDefs(s: seq<Token>, seen: set<string>): (r: Option<Parsed<seq<VarDef>>>)
    ensures r.Some? ==> |r.value.rest| < |s|
    decreases |s|
  {
    if StartsWith(s, ParenR) then Some(Parsed([], s[1..]))
    else
      match ReadVarDef(s)
      case None => None
      case Some(v) =>
        if v.tree.name in seen then None
        else
          match ReadVarDefs(v.rest, seen + {v.tree.name})
          case Some(more) => Some(Parsed([v.tree] + more.tree, more.rest))
          case None => None
  }

  function ReadVariables(s: seq<Token>): (r: Option<Parsed<seq<VarDef>>>)
    ensures r.Some? ==> |r.value.rest| <= |s|
  {
    if !StartsWith(s, ParenL) then Some(Parsed([], s))
    else
      match ReadVarDefs(s[1..], {})
      case Some(p) => if p.tree == [] then None else Some(p)
      case None => None
  }

  const FRAGMENT: Token := Name("fragment")

  function ReadFragment(s: seq<Token>): (r: Option<Parsed<Definition>>)
    ensures r.Some? ==> |r.value.rest| < |s| && r.value.tree.Fragment?
  {
    match ReadName(s)
    case None => None
    case Some(name) =>
      if Name(name.tree) == ON || !StartsWith(name.rest, ON) then None
      else
        match ReadName(name.rest[1..])
        case None => None
        case Some(condition) =>
          match ReadDirectives(condition.rest)
          case None => None
          case Some(directives) =>
            match ReadSet(directives.rest, 0)
            case Some(p) => Some(Parsed(Fragment(name.tree, condition.tree, directives.tree, p.tree), p.rest))
            case None => None
  }

  function KindOf(t: Token): Option<Kind> {
    if t == Name("query") then Some(Query)
    else if t == Name("mutation") then Some(Mutation)
    else if t == Name("subscription") then Some(Subscription)
    else None
  }

  function ReadTitle(s: seq<Token>): (r: Option<Parsed<Option<string>>>)
    ensures r.Some? ==> |r.value.rest| <= |s|
  {
    if StartsWith(s, ParenL) || StartsWith(s, At) || StartsWith(s, BraceL) then Some(Parsed(None, s))
    else match ReadName(s) case Some(p) => Some(Parsed(Some(p.tree), p.rest)) case None => None
  }

  function ReadOperation(s: seq<Token>): (r: Option<Parsed<Definition>>)
    ensures r.Some? ==> |r.value.rest| < |s| && r.value.tree.Operation?
  {
    if s == [] then None
    else if s[0] == BraceL then
      match ReadSet(s, 0) case Some(p) => Some(Parsed(Operation(Query, None, [], [], p.tree), p.rest)) case None => None
    else
      var kind := KindOf(s[0]);
      if kind.None? then None
      else
        match ReadTitle(s[1..])
        case None => None
        case Some(title) =>
          match ReadVariables(title.rest)
          case None => None
          case Some(variables) =>
            match ReadDirectives(variables.rest)
            case None => None
            case Some(directives) =>
              match ReadSet(directives.rest, 0)
              case Some(p) => Some(Parsed(Operation(kind.value, title.tree, variables.tree, directives.tree, p.tree),
                p.rest))
              case None => None
  }

  function ReadDefinition(s: seq<Token>): (r: Option<Parsed<Definition>>)
    ensures r.Some? ==> |r.value.rest| < |s|
  {
    if StartsWith(s, FRAGMENT) then ReadFragment(s[1..]) else ReadOperation(s)
  }

  /** All the definitions of a document; a fragment is defined once. */
  function ReadDefinitions(s: seq<Token>, named: set<string>): Option<seq<Definition>>
    decreases |s|
  {
    if s == [] then Some([])
    else
      match ReadDefinition(s)
      case None => None
      case Some(d) =>
        if d.tree.Fragment? && d.tree.name in named then None
        else
          match ReadDefinitions(d.rest, if d.tree.Fragment? then named + {d.tree.name} else named)
          case Some(more) => Some([d.tree] + more)
          case None => None
  }
}

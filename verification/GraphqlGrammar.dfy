/**
  Recursive descent over tokens, as functions: what each parser method reads from the
  tokens ahead and what it leaves. Every reader accepts exactly the printed trees.
*/
module GraphqlGrammar {
  import opened Wrappers
  import opened GraphqlSyntax

  /** A tree read from the front of the tokens and the tokens left. */
  datatype Parsed<+T> = Parsed(tree: T, rest: seq<Token>)

  predicate StartsWith(s: seq<Token>, t: Token) { s != [] && s[0] == t }

  function ReadName(s: seq<Token>): (r: Option<Parsed<string>>)
    ensures r.Some? ==> |r.value.rest| < |s|
  {
    if s != [] && s[0].Name? && NameOk(s[0].text) then Some(Parsed(s[0].text, s[1..])) else None
  }

  // ----- values -------------------------------------------------------------------------------

  function ReadValue(s: seq<Token>, depth: nat, constant: bool): (r: Option<Parsed<Value>>)
    ensures r.Some? ==> |r.value.rest| < |s|
    decreases |s|, 0
  {
    if depth > MAX_DEPTH || s == [] then None
    else if s[0] == Dollar && !constant then
      match ReadName(s[1..]) case Some(p) => Some(Parsed(Variable(p.tree), p.rest)) case None => None
    else if s[0] == BracketL then
      match ReadValues(s[1..], depth + 1, constant)
      case Some(p) => Some(Parsed(ListOf(p.tree), p.rest))
      case None => None
    else if s[0] == BraceL then
      match ReadArguments(s[1..], BraceR, depth + 1, constant, {})
      case Some(p) => Some(Parsed(ObjectOf(p.tree), p.rest))
      case None => None
    else if IsAtom(s[0]) then Some(Parsed(Atom(s[0]), s[1..]))
    else None
  }

  function ReadValues(s: seq<Token>, depth: nat, constant: bool): (r: Option<Parsed<seq<Value>>>)
    ensures r.Some? ==> |r.value.rest| < |s|
    decreases |s|, 1
  {
    if StartsWith(s, BracketR) then Some(Parsed([], s[1..]))
    else
      match ReadValue(s, depth, constant)
      case None => None
      case Some(v) =>
        match ReadValues(v.rest, depth, constant)
        case Some(more) => Some(Parsed([v.tree] + more.tree, more.rest))
        case None => None
  }

  /** Named values up to `stop`, where no name is repeated. */
  function ReadArguments(s: seq<Token>, stop: Token, depth: nat, constant: bool,
                         seen: set<string>): (r: Option<Parsed<seq<Argument>>>)
    ensures r.Some? ==> |r.value.rest| < |s|
    decreases |s|, 1
  {
    if StartsWith(s, stop) then Some(Parsed([], s[1..]))
    else
      match ReadArgument(s, depth, constant)
      case None => None
      case Some(a) =>
        if a.tree.name in seen then None
        else
          match ReadArguments(a.rest, stop, depth, constant, seen + {a.tree.name})
          case Some(more) => Some(Parsed([a.tree] + more.tree, more.rest))
          case None => None
  }

  function ReadArgument(s: seq<Token>, depth: nat, constant: bool): (r: Option<Parsed<Argument>>)
    ensures r.Some? ==> |r.value.rest| < |s|
    decreases |s|, 0
  {
    match ReadName(s)
    case None => None
    case Some(name) =>
      if !StartsWith(name.rest, Colon) then None
      else
        match ReadValue(name.rest[1..], depth, constant)
        case Some(v) => Some(Parsed(Argument(name.tree, v.tree), v.rest))
        case None => None
  }

  lemma {:induction false} ValueSound(s: seq<Token>, depth: nat, constant: bool)
    requires ReadValue(s, depth, constant).Some?
    ensures var p := ReadValue(s, depth, constant).value; s == PrintValue(p.tree) + p.rest &&
                                                          ValueOk(p.tree, depth, constant)
    decreases |s|, 0
  {
    hide PrintValues, PrintArguments, ReadValues, ReadArguments, ArgumentsOk, ValuesOk;
    assert s == [s[0]] + s[1..];
    if s[0] == Dollar && !constant {
      assert s == [Dollar, s[1]] + s[1..][1..];
    } else if s[0] == BracketL {
      ValuesSound(s[1..], depth + 1, constant);
      var p := ReadValues(s[1..], depth + 1, constant).value;
      assert s == [BracketL] + (PrintValues(p.tree) + [BracketR]) + p.rest;
    } else if s[0] == BraceL {
      ArgumentsSound(s[1..], BraceR, depth + 1, constant, {});
      var p := ReadArguments(s[1..], BraceR, depth + 1, constant, {}).value;
      assert s == [BraceL] + (PrintArguments(p.tree) + [BraceR]) + p.rest;
    }
  }

  lemma Joined(s: seq<Token>, x: seq<Token>, r: seq<Token>, y: seq<Token>, stop: Token, rest: seq<Token>)
    requires s == x + r && r == y + [stop] + rest
    ensures s == (x + y) + [stop] + rest
  {
  }

  lemma ValuesCons(v: Value, more: seq<Value>, depth: nat, constant: bool)
    ensures PrintValues([v] + more) == PrintValue(v) + PrintValues(more)
    ensures ValuesOk([v] + more, depth, constant) <==> ValueOk(v, depth, constant) && ValuesOk(more, depth, constant)
  {
    hide ValueOk, PrintValue;
    var all := [v] + more;
    assert all[1..] == more;
    assert forall i :: 0 <= i < |more| ==> more[i] == all[i + 1];
  }

  lemma ArgumentsCons(a: Argument, more: seq<Argument>, depth: nat, constant: bool, seen: set<string>)
    ensures PrintArguments([a] + more) == PrintArgument(a) + PrintArguments(more)
    ensures ArgumentsOk([a] + more, depth, constant) && Unseen([a] + more, seen) <==>
            ArgumentOk(a, depth, constant) && a.name !in seen && ArgumentsOk(more, depth, constant) &&
              Unseen(more, seen + {a.name})
  {
    hide ArgumentOk, PrintArgument, Distinct, Unseen;
    DistinctCons(a, more, seen);
    var all := [a] + more;
    assert all[1..] == more;
    assert forall i :: 0 <= i < |more| ==> more[i] == all[i + 1];
  }

  lemma {:induction false} ValuesSound(s: seq<Token>, depth: nat, constant: bool)
    requires ReadValues(s, depth, constant).Some?
    ensures var p := ReadValues(s, depth, constant).value;
            s == PrintValues(p.tree) + [BracketR] + p.rest && ValuesOk(p.tree, depth, constant)
    decreases |s|, 1
  {
    if StartsWith(s, BracketR) {
      assert s == [BracketR] + s[1..];
    } else {
      ValueSound(s, depth, constant);
      var v := ReadValue(s, depth, constant).value;
      ValuesSound(v.rest, depth, constant);
      var more := ReadValues(v.rest, depth, constant).value;
      hide ReadValue, PrintValues, PrintValue, ValueOk, ValuesOk;
      ValuesCons(v.tree, more.tree, depth, constant);
      Joined(s, PrintValue(v.tree), v.rest, PrintValues(more.tree), BracketR, more.rest);
    }
  }

  ghost predicate Unseen(arguments: seq<Argument>, seen: set<string>) {
    forall i :: 0 <= i < |arguments| ==> arguments[i].name !in seen
  }

  lemma DistinctCons(a: Argument, more: seq<Argument>, seen: set<string>)
    ensures Distinct([a] + more) && Unseen([a] + more, seen) <==>
            a.name !in seen && Distinct(more) && Unseen(more, seen + {a.name})
  {
    var all := [a] + more;
    if Distinct(all) && Unseen(all, seen) {
      assert all[0] == a;
      forall i | 0 <= i < |more| ensures more[i].name !in seen + {a.name} { assert more[i] == all[i + 1]; }
      forall i, j | 0 <= i < j < |more| ensures more[i].name != more[j].name {
        assert more[i] == all[i + 1] && more[j] == all[j + 1];
      }
    }
    if a.name !in seen && Distinct(more) && Unseen(more, seen + {a.name}) {
      forall j | 0 < j < |all| ensures all[j].name !in seen + {a.name} { assert all[j] == more[j - 1]; }
      forall i, j | 0 <= i < j < |all| ensures all[i].name != all[j].name {
        assert all[j] == more[j - 1] && (i > 0 ==> all[i] == more[i - 1]);
      }
    }
  }

  lemma {:induction false} ArgumentsSound(s: seq<Token>, stop: Token, depth: nat, constant: bool, seen: set<string>)
    requires ReadArguments(s, stop, depth, constant, seen).Some?
    ensures var p := ReadArguments(s, stop, depth, constant, seen).value;
            s == PrintArguments(p.tree) + [stop] + p.rest && ArgumentsOk(p.tree, depth, constant) &&
              Unseen(p.tree, seen)
    decreases |s|, 1
  {
    if StartsWith(s, stop) {
      assert s == [stop] + s[1..];
    } else {
      hide Distinct, ValueOk, PrintValue, Unseen, ReadArgument, PrintArguments, ArgumentOk, ArgumentsOk;
      ArgumentSound(s, depth, constant);
      var a := ReadArgument(s, depth, constant).value;
      ArgumentsSound(a.rest, stop, depth, constant, seen + {a.tree.name});
      var more := ReadArguments(a.rest, stop, depth, constant, seen + {a.tree.name}).value;
      ArgumentsCons(a.tree, more.tree, depth, constant, seen);
      Joined(s, PrintArgument(a.tree), a.rest, PrintArguments(more.tree), stop, more.rest);
    }
  }

  lemma {:induction false} ArgumentSound(s: seq<Token>, depth: nat, constant: bool)
    requires ReadArgument(s, depth, constant).Some?
    ensures var p := ReadArgument(s, depth, constant).value;
            s == PrintArgument(p.tree) + p.rest && ArgumentOk(p.tree, depth, constant)
    decreases |s|, 0
  {
    hide ReadValue, PrintValue, ValueOk;
    var after := ReadName(s).value.rest;
    ValueSound(after[1..], depth, constant);
    assert s == [s[0], Colon] + after[1..];
  }

  lemma PrintedValueStarts(v: Value, depth: nat, constant: bool)
    requires ValueOk(v, depth, constant)
    ensures var t := PrintValue(v)[0]; t == Dollar || t == BracketL || t == BraceL || IsAtom(t)
  {
  }

  lemma {:induction false} ValueComplete(v: Value, rest: seq<Token>, depth: nat, constant: bool)
    requires ValueOk(v, depth, constant)
    ensures ReadValue(PrintValue(v) + rest, depth, constant) == Some(Parsed(v, rest))
    decreases v, 0
  {
    var s := PrintValue(v) + rest;
    match v
    case Variable(name) => assert s[1..] == [Name(name)] + rest && ([Name(name)] + rest)[1..] == rest;
    case Atom(t) => assert s[1..] == rest;
    case ListOf(items) =>
      assert s[1..] == PrintValues(items) + [BracketR] + rest;
      ValuesComplete(items, rest, depth + 1, constant);
    case ObjectOf(fields) =>
      assert s[1..] == PrintArguments(fields) + [BraceR] + rest;
      assert Unseen(fields, {});
      ArgumentsComplete(fields, BraceR, rest, depth + 1, constant, {});
  }

  lemma {:induction false} ValuesComplete(vs: seq<Value>, rest: seq<Token>, depth: nat, constant: bool)
    requires ValuesOk(vs, depth, constant)
    ensures ReadValues(PrintValues(vs) + [BracketR] + rest, depth, constant) == Some(Parsed(vs, rest))
    decreases vs, 1
  {
    var s := PrintValues(vs) + [BracketR] + rest;
    if vs == [] {
      assert s == [BracketR] + rest && s[1..] == rest;
    } else {
      hide ReadValue, PrintValues, PrintValue, ValueOk, ValuesOk;
      assert vs == [vs[0]] + vs[1..];
      ValuesCons(vs[0], vs[1..], depth, constant);
      var after := PrintValues(vs[1..]) + [BracketR] + rest;
      Joined(PrintValue(vs[0]) + after, PrintValue(vs[0]), after, PrintValues(vs[1..]), BracketR, rest);
      PrintedValueStarts(vs[0], depth, constant);
      assert s[0] == PrintValue(vs[0])[0];
      ValueComplete(vs[0], after, depth, constant);
      ValuesComplete(vs[1..], rest, depth, constant);
    }
  }

  lemma {:induction false} ArgumentsComplete(arguments: seq<Argument>, stop: Token, rest: seq<Token>, depth: nat,
                                             constant: bool, seen: set<string>)
    requires ArgumentsOk(arguments, depth, constant) && Unseen(arguments, seen) && !stop.Name?
    ensures ReadArguments(PrintArguments(arguments) + [stop] + rest, stop, depth, constant, seen) ==
            Some(Parsed(arguments, rest))
    decreases arguments, 1
  {
    var s := PrintArguments(arguments) + [stop] + rest;
    if arguments == [] {
      assert s == [stop] + rest && s[1..] == rest;
    } else {
      hide Distinct, ValueOk, PrintValue, Unseen, ReadArgument, PrintArguments, ArgumentOk, ArgumentsOk;
      var a, more := arguments[0], arguments[1..];
      assert arguments == [a] + more;
      ArgumentsCons(a, more, depth, constant, seen);
      var after := PrintArguments(more) + [stop] + rest;
      Joined(PrintArgument(a) + after, PrintArgument(a), after, PrintArguments(more), stop, rest);
      assert s[0] == Name(a.name);
      ArgumentComplete(a, after, depth, constant);
      ArgumentsComplete(more, stop, rest, depth, constant, seen + {a.name});
    }
  }

  lemma {:induction false} ArgumentComplete(a: Argument, rest: seq<Token>, depth: nat, constant: bool)
    requires ArgumentOk(a, depth, constant)
    ensures ReadArgument(PrintArgument(a) + rest, depth, constant) == Some(Parsed(a, rest))
    decreases a, 0
  {
    var s := PrintArgument(a) + rest;
    assert s[1..] == [Colon] + (PrintValue(a.value) + rest) && s[1..][1..] == PrintValue(a.value) + rest;
    ValueComplete(a.value, rest, depth, constant);
  }
}

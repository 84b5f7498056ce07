/**
  Expansion of fragment spreads, with the set of active fragments that stops cycles, and
  what is gathered on the way: dotted field paths, response signatures, used fragments and
  referenced variables.

  `Meets` is the meaning without an active set: what a selection contains when every spread
  is replaced by its fragment (GraphQL specification of October 2021, section 5.5.2).
*/
module GraphqlExpansion {
  import opened Wrappers
  import opened GraphqlParser

  const MAX_NODES: nat := 4096
  const MAX_NESTING: nat := 32

  type Fragments = map<string, seq<Node>>

  datatype Signature = Signature(name: string, arguments: Arguments)

  /** What the visit of one node means: a field at a path, under a response key; or a spread. */
  datatype Effect =
    | OnField(path: seq<string>, key: seq<string>, signature: Signature)
    | OnInline
    | OnSpread(fragment: string)

  datatype Visit = Visit(depth: nat, effect: Effect)

  function Joined(a: Option<seq<Visit>>, b: Option<seq<Visit>>): Option<seq<Visit>> {
    if a.Some? && b.Some? then Some(a.value + b.value) else None
  }

  /** The visits of an expansion in order, if every spread has a fragment and none is entered again. */
  function Visits(nodes: seq<Node>, prefix: seq<string>, active: set<string>, key: seq<string>,
                  fragments: Fragments): Option<seq<Visit>>
    decreases fragments.Keys - active, nodes
  {
    if nodes == [] then Some([])
    else Joined(VisitsAt(nodes[0], prefix, active, key, fragments), Visits(nodes[1..], prefix, active, key, fragments))
  }

  function VisitsAt(node: Node, prefix: seq<string>, active: set<string>, key: seq<string>,
                    fragments: Fragments): Option<seq<Visit>>
    decreases fragments.Keys - active, node
  {
    var depth := |prefix| + |active|;
    match node
    case FieldNode(name, children, response, arguments) =>
      Joined(Some([Visit(depth, OnField(prefix + [name], key + [response], Signature(name, arguments)))]),
             Visits(children, prefix + [name], active, key + [response], fragments))
    case InlineNode(children) =>
      Joined(Some([Visit(depth, OnInline)]), Visits(children, prefix, active, key, fragments))
    case SpreadNode(name) =>
      if name !in fragments || name in active then None
      else
        assert fragments.Keys - (active + {name}) < fragments.Keys - active by {
          assert name in fragments.Keys - active;
        }
        Joined(Some([Visit(depth, OnSpread(name))]), Visits(fragments[name], prefix, active + {name}, key, fragments))
  }

  // ----- what is gathered ---------------------------------------------------------------------

  datatype Gathering = Gathering(
    fields: set<string>, responses: map<seq<string>, Signature>, used: set<string>, references: set<string>,
      visits: nat)

  function Dotted(path: seq<string>): string {
    if path == [] then "" else if |path| == 1 then path[0] else Dotted(path[..|path| - 1]) + "." + path[|path| - 1]
  }

  function VarsOfFragment(vars: map<string, set<string>>, name: string): set<string> {
    if name in vars then vars[name] else {}
  }

  function Gather(g: Gathering, v: Visit, vars: map<string, set<string>>): Option<Gathering> {
    var counted := g.(visits := g.visits + 1);
    if counted.visits > MAX_NODES || v.depth > MAX_NESTING then None
    else
      match v.effect
      case OnField(path, key, signature) =>
        if key in g.responses && g.responses[key] != signature then None
        else Some(counted.(responses := g.responses[key := signature], fields := g.fields + {Dotted(path)}))
      case OnInline => Some(counted)
      case OnSpread(name) => Some(counted.(used := g.used + {name},
        references := g.references + VarsOfFragment(vars, name)))
  }

  function GatherAll(g: Gathering, vs: seq<Visit>, vars: map<string, set<string>>): Option<Gathering>
    decreases |vs|
  {
    if vs == [] then Some(g)
    else match Gather(g, vs[0], vars) case Some(h) => GatherAll(h, vs[1..], vars) case None => None
  }

  function Outcome(g: Gathering, vs: Option<seq<Visit>>, vars: map<string, set<string>>): Option<Gathering> {
    match vs case Some(visits) => GatherAll(g, visits, vars) case None => None
  }

  lemma {:induction false} GatherJoined(g: Gathering, a: seq<Visit>, b: seq<Visit>, vars: map<string, set<string>>)
    ensures GatherAll(g, a + b, vars) ==
            match GatherAll(g, a, vars) case Some(h) => GatherAll(h, b, vars) case None => None
    decreases |a|
  {
    if a == [] {
      assert a + b == b;
    } else {
      hide Gather;
      assert (a + b)[1..] == a[1..] + b;
      var h := Gather(g, a[0], vars);
      if h.Some? { GatherJoined(h.value, a[1..], b, vars); }
    }
  }

  lemma OutcomeJoined(g: Gathering, a: Option<seq<Visit>>, b: Option<seq<Visit>>, vars: map<string, set<string>>)
    ensures Outcome(g, Joined(a, b), vars) == match Outcome(g, a, vars) case Some(h) =>
            Outcome(h, b, vars) case None => None
  {
    hide GatherAll;
    if a.Some? && b.Some? { GatherJoined(g, a.value, b.value, vars); }
  }

  lemma OutcomeFirst(g: Gathering, v: Visit, rest: Option<seq<Visit>>, vars: map<string, set<string>>)
    ensures Outcome(g, Joined(Some([v]), rest), vars) == match Gather(g, v, vars) case Some(h) =>
            Outcome(h, rest, vars) case None => None
  {
    OutcomeJoined(g, Some([v]), rest, vars);
    assert [v][1..] == [];
  }

  class Expander {
    const fragments: Fragments
    const vars: map<string, set<string>>
    var fields: set<string>
    var responses: map<seq<string>, Signature>
    var used: set<string>
    var references: set<string>
    var visits: nat

    constructor (fragments: Fragments, vars: map<string, set<string>>)
      ensures this.fragments == fragments && this.vars == vars && State() == Gathering({}, map[], {}, {}, 0)
    {
      this.fragments, this.vars := fragments, vars;
      fields, responses, used, references, visits := {}, map[], {}, {}, 0;
    }

    function State(): Gathering
      reads this
    {
      Gathering(fields, responses, used, references, visits)
    }

    /** Counts one visit. */
    method Enter(depth: nat) returns (ok: bool)
      modifies this`visits
      ensures visits == old(visits) + 1 && ok == (visits <= MAX_NODES && depth <= MAX_NESTING)
    {
      visits := visits + 1;
      ok := visits <= MAX_NODES && depth <= MAX_NESTING;
    }

    method Expand(nodes: seq<Node>, prefix: seq<string>, active: set<string>, key: seq<string>) returns (ok: bool)
      modifies this
      ensures match Outcome(old(State()), Visits(nodes, prefix, active, key, fragments), vars)
              case Some(g) => ok && State() == g
              case None => !ok
      decreases fragments.Keys - active, nodes
    {
      hide VisitsAt, Gather, GatherAll, Outcome, Joined;
      ghost var all := Visits(nodes, prefix, active, key, fragments);
      ghost var start := State();
      var i := 0;
      assert nodes[0..] == nodes;
      while i < |nodes|
        invariant i <= |nodes|
        invariant Outcome(start, all, vars) ==
                  Outcome(State(), Visits(nodes[i..], prefix, active, key, fragments), vars)
      {
        assert nodes[i..][0] == nodes[i] && nodes[i..][1..] == nodes[i + 1..];
        OutcomeJoined(State(), VisitsAt(nodes[i], prefix, active, key, fragments),
                      Visits(nodes[i + 1..], prefix, active, key, fragments), vars);
        ok := ExpandNode(nodes[i], prefix, active, key);
        if !ok { return false; }
        i := i + 1;
      }
      NoVisits(State(), vars);
      return true;
    }

    lemma NoVisits(g: Gathering, vars: map<string, set<string>>)
      ensures Outcome(g, Some([]), vars) == Some(g)
    {
    }

    method ExpandNode(node: Node, prefix: seq<string>, active: set<string>, key: seq<string>) returns (ok: bool)
      modifies this
      ensures match Outcome(old(State()), VisitsAt(node, prefix, active, key, fragments), vars)
              case Some(g) => ok && State() == g
              case None => !ok
      decreases fragments.Keys - active, node
    {
      hide Visits, GatherAll, Outcome, Dotted;
      ghost var start := State();
      var depth := |prefix| + |active|;
      ok := Enter(depth);
      match node {
        case FieldNode(name, children, response, arguments) =>
          var at, under := prefix + [name], key + [response];
          var signature := Signature(name, arguments);
          OutcomeFirst(start, Visit(depth, OnField(at, under, signature)),
            Visits(children, at, active, under, fragments), vars);
          if !ok || (under in responses && responses[under] != signature) { return false; }
          responses := responses[under := signature];
          fields := fields + {Dotted(at)};
          ok := Expand(children, at, active, under);
        case InlineNode(children) =>
          OutcomeFirst(start, Visit(depth, OnInline), Visits(children, prefix, active, key, fragments), vars);
          if !ok { return false; }
          ok := Expand(children, prefix, active, key);
        case SpreadNode(name) =>
          if name !in fragments || name in active {
            NoOutcome(start, vars);
            return false;
          }
          OutcomeFirst(start, Visit(depth, OnSpread(name)),
            Visits(fragments[name], prefix, active + {name}, key, fragments), vars);
          if !ok { return false; }
          used := used + {name};
          references := references + VarsOfFragment(vars, name);
          assert name in fragments.Keys - active;
          ok := Expand(fragments[name], prefix, active + {name}, key);
      }
    }

    lemma NoOutcome(g: Gathering, vars: map<string, set<string>>)
      ensures Outcome(g, None, vars) == None
    {
    }
  }

  // ----- meaning ------------------------------------------------------------------------------

  /** The inlined selection, to `k` levels: `e` is a node of it, reached under this path and key. */
  ghost predicate Meets(k: nat, nodes: seq<Node>, prefix: seq<string>, key: seq<string>, fragments: Fragments,
                        e: Effect)
    decreases k, 1
  {
    exists i :: 0 <= i < |nodes| && MeetsAt(k, nodes[i], prefix, key, fragments, e)
  }

  ghost predicate MeetsAt(k: nat, node: Node, prefix: seq<string>, key: seq<string>, fragments: Fragments, e: Effect)
    decreases k, 0
  {
    match node
    case FieldNode(name, children, response, arguments) =>
      e == OnField(prefix + [name], key + [response], Signature(name, arguments)) ||
      (k > 0 && Meets(k - 1, children, prefix + [name], key + [response], fragments, e))
    case InlineNode(children) => e == OnInline || (k > 0 && Meets(k - 1, children, prefix, key, fragments, e))
    case SpreadNode(name) =>
      e == OnSpread(name) || (k > 0 && name in fragments && Meets(k - 1, fragments[name], prefix, key, fragments, e))
  }

  ghost predicate Visited(vs: seq<Visit>, e: Effect) { exists j :: 0 <= j < |vs| && vs[j].effect == e }

  lemma VisitedJoined(a: seq<Visit>, b: seq<Visit>, e: Effect)
    ensures Visited(a + b, e) <==> Visited(a, e) || Visited(b, e)
  {
    var all := a + b;
    if Visited(all, e) {
      var j :| 0 <= j < |all| && all[j].effect == e;
      if j < |a| { assert a[j].effect == e; } else { assert b[j - |a|].effect == e; }
    }
    if Visited(a, e) {
      var j :| 0 <= j < |a| && a[j].effect == e;
      assert all[j].effect == e;
    }
    if Visited(b, e) {
      var j :| 0 <= j < |b| && b[j].effect == e;
      assert all[|a| + j].effect == e;
    }
  }

  /** Whatever the expansion visits is in the inlined selection. */
  lemma {:induction false} VisitedIsMet(nodes: seq<Node>, prefix: seq<string>, active: set<string>, key: seq<string>,
                                        fragments: Fragments, e: Effect) returns (k: nat)
    requires Visits(nodes, prefix, active, key, fragments).Some?
    requires Visited(Visits(nodes, prefix, active, key, fragments).value, e)
    ensures Meets(k, nodes, prefix, key, fragments, e)
    decreases fragments.Keys - active, nodes
  {
    var first, more := VisitsAt(nodes[0], prefix, active, key, fragments).value,
      Visits(nodes[1..], prefix, active, key, fragments).value;
    VisitedJoined(first, more, e);
    if Visited(first, e) {
      k := VisitedAtIsMet(nodes[0], prefix, active, key, fragments, e);
    } else {
      k := VisitedIsMet(nodes[1..], prefix, active, key, fragments, e);
      hide MeetsAt;
      var i :| 0 <= i < |nodes[1..]| && MeetsAt(k, nodes[1..][i], prefix, key, fragments, e);
      assert nodes[1..][i] == nodes[i + 1];
    }
  }

  lemma {:induction false} VisitedAtIsMet(node: Node, prefix: seq<string>, active: set<string>, key: seq<string>,
                                          fragments: Fragments, e: Effect) returns (k: nat)
    requires VisitsAt(node, prefix, active, key, fragments).Some?
    requires Visited(VisitsAt(node, prefix, active, key, fragments).value, e)
    ensures MeetsAt(k, node, prefix, key, fragments, e)
    decreases fragments.Keys - active, node
  {
    hide Visits;
    var depth := |prefix| + |active|;
    match node
    case FieldNode(name, children, response, arguments) =>
      var own := Visit(depth, OnField(prefix + [name], key + [response], Signature(name, arguments)));
      VisitedJoined([own], Visits(children, prefix + [name], active, key + [response], fragments).value, e);
      k := 0;
      if e != own.effect {
        var n := VisitedIsMet(children, prefix + [name], active, key + [response], fragments, e);
        k := n + 1;
      }
    case InlineNode(children) =>
      VisitedJoined([Visit(depth, OnInline)], Visits(children, prefix, active, key, fragments).value, e);
      k := 0;
      if e != OnInline {
        var n := VisitedIsMet(children, prefix, active, key, fragments, e);
        k := n + 1;
      }
    case SpreadNode(name) =>
      VisitedJoined([Visit(depth, OnSpread(name))],
        Visits(fragments[name], prefix, active + {name}, key, fragments).value, e);
      k := 0;
      if e != OnSpread(name) {
        assert name in fragments.Keys - active;
        var n := VisitedIsMet(fragments[name], prefix, active + {name}, key, fragments, e);
        k := n + 1;
      }
  }

  lemma {:induction false} VisitsIndex(nodes: seq<Node>, i: nat, prefix: seq<string>, active: set<string>,
                                       key: seq<string>, fragments: Fragments)
    requires Visits(nodes, prefix, active, key, fragments).Some? && i < |nodes|
    ensures VisitsAt(nodes[i], prefix, active, key, fragments).Some?
    ensures forall e :: Visited(VisitsAt(nodes[i], prefix, active, key, fragments).value, e) ==>
                        Visited(Visits(nodes, prefix, active, key, fragments).value, e)
    decreases nodes
  {
    hide VisitsAt;
    var first, more := VisitsAt(nodes[0], prefix, active, key, fragments).value,
      Visits(nodes[1..], prefix, active, key, fragments).value;
    forall e ensures Visited(first + more, e) <==> Visited(first, e) || Visited(more, e) {
      VisitedJoined(first, more, e);
    }
    if i > 0 { VisitsIndex(nodes[1..], i - 1, prefix, active, key, fragments); }
  }

  /** Whatever is in the inlined selection is visited, if the expansion succeeds. */
  lemma {:induction false} MetIsVisited(k: nat, nodes: seq<Node>, prefix: seq<string>, active: set<string>,
                                        key: seq<string>, fragments: Fragments, e: Effect)
    requires Visits(nodes, prefix, active, key, fragments).Some? && Meets(k, nodes, prefix, key, fragments, e)
    ensures Visited(Visits(nodes, prefix, active, key, fragments).value, e)
    decreases k, 1
  {
    hide MeetsAt, VisitsAt, Visits, Visited;
    var i :| 0 <= i < |nodes| && MeetsAt(k, nodes[i], prefix, key, fragments, e);
    VisitsIndex(nodes, i, prefix, active, key, fragments);
    MetAtIsVisited(k, nodes[i], prefix, active, key, fragments, e);
  }

  lemma {:induction false} MetAtIsVisited(k: nat, node: Node, prefix: seq<string>, active: set<string>,
                                          key: seq<string>, fragments: Fragments, e: Effect)
    requires VisitsAt(node, prefix, active, key, fragments).Some? && MeetsAt(k, node, prefix, key, fragments, e)
    ensures Visited(VisitsAt(node, prefix, active, key, fragments).value, e)
    decreases k, 0
  {
    hide Visits, Meets;
    var depth := |prefix| + |active|;
    match node
    case FieldNode(name, children, response, arguments) =>
      var own := Visit(depth, OnField(prefix + [name], key + [response], Signature(name, arguments)));
      VisitedJoined([own], Visits(children, prefix + [name], active, key + [response], fragments).value, e);
      if e == own.effect { assert [own][0].effect == e; }
      else { MetIsVisited(k - 1, children, prefix + [name], active, key + [response], fragments, e); }
    case InlineNode(children) =>
      var own := Visit(depth, OnInline);
      VisitedJoined([own], Visits(children, prefix, active, key, fragments).value, e);
      if e == OnInline { assert [own][0].effect == e; }
      else { MetIsVisited(k - 1, children, prefix, active, key, fragments, e); }
    case SpreadNode(name) =>
      var own := Visit(depth, OnSpread(name));
      VisitedJoined([own], Visits(fragments[name], prefix, active + {name}, key, fragments).value, e);
      if e == OnSpread(name) { assert [own][0].effect == e; }
      else { MetIsVisited(k - 1, fragments[name], prefix, active + {name}, key, fragments, e); }
  }

  // ----- no cycles ----------------------------------------------------------------------------

  /** A fragment that is active is not spread again below. */
  lemma {:induction false} NotMetAgain(k: nat, nodes: seq<Node>, prefix: seq<string>, active: set<string>,
                                       key: seq<string>,
                                       fragments: Fragments, f: string, p: seq<string>, q: seq<string>)
    requires Visits(nodes, prefix, active, key, fragments).Some? && f in active
    ensures !Meets(k, nodes, p, q, fragments, OnSpread(f))
    decreases k, 1
  {
    hide MeetsAt, VisitsAt, Visits;
    forall i | 0 <= i < |nodes| ensures !MeetsAt(k, nodes[i], p, q, fragments, OnSpread(f)) {
      VisitsIndex(nodes, i, prefix, active, key, fragments);
      NotMetAgainAt(k, nodes[i], prefix, active, key, fragments, f, p, q);
    }
  }

  lemma {:induction false} NotMetAgainAt(k: nat, node: Node, prefix: seq<string>, active: set<string>, key: seq<string>,
                                         fragments: Fragments, f: string, p: seq<string>, q: seq<string>)
    requires VisitsAt(node, prefix, active, key, fragments).Some? && f in active
    ensures !MeetsAt(k, node, p, q, fragments, OnSpread(f))
    decreases k, 0
  {
    hide Visits, Meets;
    if k > 0 {
      match node
      case FieldNode(name, children, response, _) =>
        NotMetAgain(k - 1, children, prefix + [name], active, key + [response], fragments, f, p + [name],
          q + [response]);
      case InlineNode(children) => NotMetAgain(k - 1, children, prefix, active, key, fragments, f, p, q);
      case SpreadNode(name) => NotMetAgain(k - 1, fragments[name], prefix, active + {name}, key, fragments, f, p, q);
    }
  }

  /** A fragment that is reached exists and does not lead back to itself. */
  lemma {:induction false} ReachedIsAcyclic(k: nat, nodes: seq<Node>, prefix: seq<string>, active: set<string>,
                                            key: seq<string>, fragments: Fragments, f: string)
    requires Visits(nodes, prefix, active, key, fragments).Some? && Meets(k, nodes, prefix, key, fragments, OnSpread(f))
    ensures f in fragments && forall n: nat :: !Meets(n, fragments[f], [], [], fragments, OnSpread(f))
    decreases k, 1
  {
    hide MeetsAt, VisitsAt, Visits;
    var i :| 0 <= i < |nodes| && MeetsAt(k, nodes[i], prefix, key, fragments, OnSpread(f));
    VisitsIndex(nodes, i, prefix, active, key, fragments);
    ReachedAtIsAcyclic(k, nodes[i], prefix, active, key, fragments, f);
  }

  lemma {:induction false} ReachedAtIsAcyclic(k: nat, node: Node, prefix: seq<string>, active: set<string>,
                                              key: seq<string>, fragments: Fragments, f: string)
    requires VisitsAt(node, prefix, active, key, fragments).Some? &&
             MeetsAt(k, node, prefix, key, fragments, OnSpread(f))
    ensures f in fragments && forall n: nat :: !Meets(n, fragments[f], [], [], fragments, OnSpread(f))
    decreases k, 0
  {
    hide Visits, Meets;
    match node
    case FieldNode(name, children, response, _) =>
      ReachedIsAcyclic(k - 1, children, prefix + [name], active, key + [response], fragments, f);
    case InlineNode(children) => ReachedIsAcyclic(k - 1, children, prefix, active, key, fragments, f);
    case SpreadNode(name) =>
      if name == f {
        forall n: nat ensures !Meets(n, fragments[f], [], [], fragments, OnSpread(f)) {
          NotMetAgain(n, fragments[f], prefix, active + {f}, key, fragments, f, [], []);
        }
      } else {
        ReachedIsAcyclic(k - 1, fragments[name], prefix, active + {name}, key, fragments, f);
      }
  }

  /** Which spreads are met does not depend on where they are met. */
  lemma {:induction false} SpreadsAnywhere(k: nat, nodes: seq<Node>, fragments: Fragments, f: string, p: seq<string>,
                                           q: seq<string>, r: seq<string>, s: seq<string>)
    requires Meets(k, nodes, p, q, fragments, OnSpread(f))
    ensures Meets(k, nodes, r, s, fragments, OnSpread(f))
    decreases k
  {
    var i :| 0 <= i < |nodes| && MeetsAt(k, nodes[i], p, q, fragments, OnSpread(f));
    assert MeetsAt(k, nodes[i], r, s, fragments, OnSpread(f)) by {
      hide Meets;
      match nodes[i]
      case FieldNode(name, children, response, _) =>
        SpreadsAnywhere(k - 1, children, fragments, f, p + [name], q + [response], r + [name], s + [response]);
      case InlineNode(children) => SpreadsAnywhere(k - 1, children, fragments, f, p, q, r, s);
      case SpreadNode(name) => if name != f { SpreadsAnywhere(k - 1, fragments[name], fragments, f, p, q, r, s); }
    }
  }

  ghost predicate Recursive(fragments: Fragments, f: string) {
    f in fragments && exists n: nat :: Meets(n, fragments[f], [], [], fragments, OnSpread(f))
  }

  /** Why an expansion fails: a spread without a fragment, of an active fragment, or of one that leads to itself. */
  ghost predicate Cause(fragments: Fragments, active: set<string>, f: string) {
    f !in fragments || f in active || Recursive(fragments, f)
  }

  lemma {:induction false} FailureHasCause(nodes: seq<Node>, prefix: seq<string>, active: set<string>, key: seq<string>,
                                           fragments: Fragments) returns (k: nat, f: string)
    requires Visits(nodes, prefix, active, key, fragments).None?
    ensures Meets(k, nodes, prefix, key, fragments, OnSpread(f)) && Cause(fragments, active, f)
    decreases fragments.Keys - active, nodes
  {
    hide Cause;
    if VisitsAt(nodes[0], prefix, active, key, fragments).None? {
      k, f := FailureAtHasCause(nodes[0], prefix, active, key, fragments);
      assert MeetsAt(k, nodes[0], prefix, key, fragments, OnSpread(f));
    } else {
      k, f := FailureHasCause(nodes[1..], prefix, active, key, fragments);
      hide MeetsAt;
      var i :| 0 <= i < |nodes[1..]| && MeetsAt(k, nodes[1..][i], prefix, key, fragments, OnSpread(f));
      assert nodes[1..][i] == nodes[i + 1];
    }
  }

  lemma {:induction false} FailureAtHasCause(node: Node, prefix: seq<string>, active: set<string>, key: seq<string>,
                                             fragments: Fragments) returns (k: nat, f: string)
    requires VisitsAt(node, prefix, active, key, fragments).None?
    ensures MeetsAt(k, node, prefix, key, fragments, OnSpread(f)) && Cause(fragments, active, f)
    decreases fragments.Keys - active, node
  {
    hide Visits, Meets, Recursive;
    var n: nat;
    match node
    case FieldNode(name, children, response, _) =>
      n, f := FailureHasCause(children, prefix + [name], active, key + [response], fragments);
      k := n + 1;
    case InlineNode(children) =>
      n, f := FailureHasCause(children, prefix, active, key, fragments);
      k := n + 1;
    case SpreadNode(name) =>
      if name !in fragments || name in active {
        k, f := 0, name;
      } else {
        assert name in fragments.Keys - active;
        n, f := FailureHasCause(fragments[name], prefix, active + {name}, key, fragments);
        k := n + 1;
        if f == name { LeadsToItself(n, prefix, key, fragments, f); }
      }
  }

  lemma LeadsToItself(n: nat, prefix: seq<string>, key: seq<string>, fragments: Fragments, f: string)
    requires f in fragments && Meets(n, fragments[f], prefix, key, fragments, OnSpread(f))
    ensures Recursive(fragments, f)
  {
    SpreadsAnywhere(n, fragments[f], fragments, f, prefix, key, [], []);
  }

  /** A selection expands exactly when every fragment it leads to is defined and does not lead to itself. */
  lemma ExpandsIff(nodes: seq<Node>, fragments: Fragments)
    ensures Visits(nodes, [], {}, [], fragments).Some? <==>
            forall k: nat, f :: Meets(k, nodes, [], [], fragments, OnSpread(f)) ==>
              f in fragments && !Recursive(fragments, f)
  {
    hide Visits, Meets;
    if Visits(nodes, [], {}, [], fragments).Some? {
      forall k: nat, f | Meets(k, nodes, [], [], fragments, OnSpread(f)) ensures f in fragments &&
        !Recursive(fragments, f) {
        ReachedIsAcyclic(k, nodes, [], {}, [], fragments, f);
      }
    } else {
      var k, f := FailureHasCause(nodes, [], {}, [], fragments);
    }
  }

  // ----- what gathering leaves behind ---------------------------------------------------------

  ghost predicate FieldVisited(vs: seq<Visit>, path: string) {
    exists j :: 0 <= j < |vs| && vs[j].effect.OnField? && Dotted(vs[j].effect.path) == path
  }

  /** Every visit leaves its mark, and nothing else does. */
  lemma {:induction false} Gathered(g: Gathering, vs: seq<Visit>, vars: map<string, set<string>>)
    requires GatherAll(g, vs, vars).Some?
    ensures var h := GatherAll(g, vs, vars).value;
            (forall path :: path in h.fields <==> path in g.fields || FieldVisited(vs, path)) &&
            (forall f :: f in h.used <==> f in g.used || Visited(vs, OnSpread(f))) &&
            g.references <= h.references && g.responses.Keys <= h.responses.Keys &&
            (forall key :: key in g.responses ==> h.responses[key] == g.responses[key])
    ensures var h := GatherAll(g, vs, vars).value;
            (forall j :: 0 <= j < |vs| && vs[j].effect.OnSpread? ==>
              VarsOfFragment(vars, vs[j].effect.fragment) <= h.references) &&
            (forall j :: 0 <= j < |vs| && vs[j].effect.OnField? ==>
               vs[j].effect.key in h.responses && h.responses[vs[j].effect.key] == vs[j].effect.signature)
    decreases |vs|
  {
    if vs != [] {
      var m := Gather(g, vs[0], vars).value;
      Gathered(m, vs[1..], vars);
      assert vs == [vs[0]] + vs[1..];
      var h := GatherAll(g, vs, vars).value;
      forall f ensures f in h.used <==> f in g.used || Visited(vs, OnSpread(f)) {
        VisitedJoined([vs[0]], vs[1..], OnSpread(f));
        assert Visited([vs[0]], OnSpread(f)) <==> [vs[0]][0].effect == OnSpread(f);
      }
      forall path ensures path in h.fields <==> path in g.fields || FieldVisited(vs, path) {
        FieldVisitedFirst(vs, path);
      }
    }
  }

  lemma FieldVisitedFirst(vs: seq<Visit>, path: string)
    requires vs != []
    ensures FieldVisited(vs, path) <==> (vs[0].effect.OnField? && Dotted(vs[0].effect.path) == path) ||
                                        FieldVisited(vs[1..], path)
  {
    hide Dotted;
    if FieldVisited(vs[1..], path) {
      var j :| 0 <= j < |vs[1..]| && vs[1..][j].effect.OnField? && Dotted(vs[1..][j].effect.path) == path;
      assert vs[j + 1] == vs[1..][j];
    }
    if FieldVisited(vs, path) {
      var j :| 0 <= j < |vs| && vs[j].effect.OnField? && Dotted(vs[j].effect.path) == path;
      if j > 0 { assert vs[j] == vs[1..][j - 1]; }
    }
  }
}

/** The check of a whole contract: domain by domain findings, then one verdict. */
module BoundaryVerifier {
  import opened Wrappers
  import opened RuntimeCapability
  import opened RuntimeBoundary
  import opened RuntimePlaces

  const FS_SCOPE := "runtime_boundary_filesystem_scope_unsupported"
  const FS_PREFIX := "runtime_boundary_filesystem_prefix_unproven"
  const NET_UNKNOWN := "runtime_boundary_network_unknown"
  const NET_PROTOCOL := "runtime_boundary_protocol_unsupported"
  const TCP_REQUEST := "runtime_boundary_tcp_request_restriction"
  const REQUEST_SCOPE := "runtime_boundary_request_scope_unsupported"
  const RESOURCE_LIMIT := "runtime_boundary_resource_limit"
  const NET_SCOPE := "runtime_boundary_network_scope_unsupported"
  const PROCESS_UNKNOWN := "runtime_boundary_process_unknown"
  const BINARY_MISSING := "runtime_boundary_binary_identity_missing"
  const CHILD_UNKNOWN := "runtime_boundary_child_process_unknown"
  const PRIVILEGE_UNKNOWN := "runtime_boundary_privilege_unknown"
  const UID_UNPROVEN := "runtime_boundary_uid_unproven"

  /** The codes the check itself gives to what it cannot decide. */
  const OWN_CODES: set<string> := {FS_SCOPE, FS_PREFIX, NET_UNKNOWN, NET_PROTOCOL, TCP_REQUEST, REQUEST_SCOPE,
    RESOURCE_LIMIT, NET_SCOPE, PROCESS_UNKNOWN, BINARY_MISSING, CHILD_UNKNOWN, PRIVILEGE_UNKNOWN, UID_UNPROVEN}

  const ALL_DOMAINS: set<Domain> := {Filesystem, Network, Tools, Process, Privilege, Credentials}

  function UnknownCodes(c: Contract): set<string> { CodesOf(c.unknowns) }

  function CodesOf(us: seq<CapabilityUnknown>): set<string> { set i | 0 <= i < |us| :: us[i].reasonCode }

  // ----- what the check can decide ------------------------------------------------------------

  ghost predicate FilesModelled(c: Contract, b: Boundary) {
    (forall i :: 0 <= i < |c.filesystem| ==> FileModelled(c.filesystem[i])) &&
    (forall i :: 0 <= i < |b.filesystem| ==> FileModelled(b.filesystem[i])) && b.lexicalPrefix && b.filesystemGuarantees
  }

  predicate NetSupported(c: NetworkCapability) {
    (RestModelled(c) && RequestPaths(c.paths, false)) ||
    (TcpModelled(c) && c.methods == [] && c.paths == [] && c.toolIdentity.None?)
  }

  ghost predicate NetModelled(c: Contract, b: Boundary) {
    forall i :: 0 <= i < |c.network| ==>
      NetSupported(c.network[i]) && NoDoubt(c.network[i], b) &&
      |Set(c.network[i].methods)| * |Set(c.network[i].paths)| * Patterns(b.network) <= MAX_COMPARISONS
  }

  ghost predicate NoDoubt(n: NetworkCapability, b: Boundary) {
    forall k :: 0 <= k < |b.network| && AtEndpoint(b.network[k], n) ==> OfferOf(n, b.network[k]) != Doubt
  }

  predicate SafePaths(paths: seq<string>) { forall i :: 0 <= i < |paths| ==> SafePath(paths[i]) }

  predicate ProcessModelled(c: Contract, b: Boundary) {
    c.process.execution.Some? &&
    (c.process.execution.value ==>
       b.process.execution.Some? && c.process.executables != [] && SafePaths(c.process.executables) &&
       (c.process.spawnChildren.Some? || b.process.spawnChildren == Some(true)))
  }

  predicate PrivilegeModelled(c: Contract, b: Boundary) {
    c.privilege.escalation.Some? && (b.privilege.requiredEuid.Some? ==> c.privilege.requiredEuid.Some?)
  }

  /** Everything is stated, in the supported forms, and small enough to compare. */
  ghost predicate Modelled(c: Contract, b: Boundary) {
    c.unknowns == [] && FilesModelled(c, b) && NetModelled(c, b) && ProcessModelled(c, b) && PrivilegeModelled(c, b)
  }

  predicate Lexical(b: Boundary) { b.lexicalPrefix && b.filesystemGuarantees }

  /** The boundary grants all of this capability, but by two maxima that the check does not combine. */
  ghost predicate Overlooked(f: FilesystemCapability, b: Boundary) {
    FileModelled(f) && Unmatching(f, b.filesystem, Lexical(b)) && SplitGrant(f, b.filesystem)
  }

  ghost predicate HasOverlooked(c: Contract, b: Boundary) {
    exists i :: 0 <= i < |c.filesystem| && Overlooked(c.filesystem[i], b)
  }

  /** An excess is real unless a split grant was overlooked, and what is called undecidable is not fully modelled. */
  ghost predicate Justified(c: Contract, b: Boundary, f: Finding) {
    if f.state.Exceeds? then c.decision.Block? || !Contained(c, b) || HasOverlooked(c, b) else !Modelled(c, b)
  }

  // ----- the codes of what cannot be decided --------------------------------------------------

  ghost function FileCodes(f: FilesystemCapability, b: Boundary): set<string> {
    if !FileModelled(f) then {FS_SCOPE}
    else if Answered(f, b, Unresolved) && !Answered(f, b, Matched) then {FS_PREFIX}
    else {}
  }

  ghost predicate Answered(f: FilesystemCapability, b: Boundary, answer: Match)
    requires FileModelled(f)
  {
    exists k :: 0 <= k < |b.filesystem| && FileMatch(f, b.filesystem[k], Lexical(b)) == answer
  }

  ghost predicate HasOffer(n: NetworkCapability, b: Boundary, offer: Offer) {
    exists k :: 0 <= k < |b.network| && AtEndpoint(b.network[k], n) && OfferOf(n, b.network[k]) == offer
  }

  ghost predicate PairOffered(n: NetworkCapability, b: Boundary, verb: string, target: string) {
    exists k :: 0 <= k < |b.network| && AtEndpoint(b.network[k], n) && OfferOf(n, b.network[k]) == Requests &&
                verb in b.network[k].methods && AllowedBy(target, b.network[k].paths)
  }

  ghost predicate AllOffered(n: NetworkCapability, b: Boundary) {
    forall verb, target :: verb in n.methods && target in n.paths ==> PairOffered(n, b, verb, target)
  }

  /** The code of a network capability, where its comparisons can be finished. */
  ghost function NetCodes(n: NetworkCapability, b: Boundary): set<string> {
    if n.host.None? || n.port.None? || n.protocol.UnknownProtocol? || n.netAccess.NetUnknown? then {NET_UNKNOWN}
    else if n.protocol.OtherProtocol? then {NET_PROTOCOL}
    else if n.protocol.Tcp? && (n.methods != [] || n.paths != [] || n.toolIdentity.Some?) then {TCP_REQUEST}
    else if n.protocol.Rest? && (n.methods == [] || n.paths == [] || !RequestPaths(n.paths, false)) then {REQUEST_SCOPE}
    else if HasOffer(n, b, Everything) || (n.protocol.Rest? && AllOffered(n, b)) || !HasOffer(n, b, Doubt) then {}
    else {NET_SCOPE}
  }

  /** So many comparisons that whether they run out may depend on their order. */
  ghost predicate Heavy(n: NetworkCapability, b: Boundary) {
    RestModelled(n) && RequestPaths(n.paths, false) && !HasOffer(n, b, Everything) &&
    |Set(n.methods)| * |Set(n.paths)| * Patterns(b.network) > MAX_COMPARISONS
  }

  ghost function SureCodes(n: NetworkCapability, b: Boundary): set<string> {
    if Heavy(n, b) then {} else NetCodes(n, b)
  }

  ghost function PossibleCodes(n: NetworkCapability, b: Boundary): set<string> {
    NetCodes(n, b) + if Heavy(n, b) then {RESOURCE_LIMIT} else {}
  }

  function ProcessCodes(c: Contract, b: Boundary): set<string> {
    var process, maximum := c.process, b.process;
    if process.execution.None? then {PROCESS_UNKNOWN}
    else if !process.execution.value then {}
    else
      (if maximum.execution.None? then {PROCESS_UNKNOWN} else {}) +
      (if process.executables == [] || !SafePaths(process.executables) then {BINARY_MISSING} else {}) +
      (if process.spawnChildren.None? && maximum.spawnChildren != Some(true) then {CHILD_UNKNOWN} else {})
  }

  function PrivilegeCodes(c: Contract, b: Boundary): set<string> {
    (if c.privilege.escalation.None? then {PRIVILEGE_UNKNOWN} else {}) +
    (if b.privilege.requiredEuid.Some? && c.privilege.requiredEuid.None? then {UID_UNPROVEN} else {})
  }

  ghost function AllFileCodes(fs: seq<FilesystemCapability>, b: Boundary): set<string> {
    set f, code | f in fs && code in FileCodes(f, b) :: code
  }

  ghost function AllSure(ns: seq<NetworkCapability>, b: Boundary): set<string> {
    set n, code | n in ns && code in SureCodes(n, b) :: code
  }

  ghost function AllPossible(ns: seq<NetworkCapability>, b: Boundary): set<string> {
    set n, code | n in ns && code in PossibleCodes(n, b) :: code
  }

  /** The codes that the check certainly reports. */
  ghost function Raised(c: Contract, b: Boundary): set<string> {
    UnknownCodes(c) + AllFileCodes(c.filesystem, b) + AllSure(c.network, b) + ProcessCodes(c, b) + PrivilegeCodes(c, b)
  }

  /** The codes it may report, if the order of comparisons is unlucky. */
  ghost function Risked(c: Contract, b: Boundary): set<string> { Raised(c, b) + AllPossible(c.network, b) }

  ghost predicate NothingHeavy(c: Contract, b: Boundary) { forall n :: n in c.network ==> !Heavy(n, b) }

  lemma NothingHeavyIsSure(c: Contract, b: Boundary)
    ensures NothingHeavy(c, b) ==> Risked(c, b) == Raised(c, b)
  {
    hide Heavy, NetCodes, UnknownCodes, AllFileCodes, ProcessCodes, PrivilegeCodes;
    if NothingHeavy(c, b) {
      assert forall n :: n in c.network ==> PossibleCodes(n, b) == SureCodes(n, b);
      assert AllPossible(c.network, b) == AllSure(c.network, b);
    }
  }

  lemma FileCodesMore(fs: seq<FilesystemCapability>, f: FilesystemCapability, b: Boundary)
    ensures AllFileCodes(fs + [f], b) == AllFileCodes(fs, b) + FileCodes(f, b)
  {
    hide FileCodes;
  }

  lemma NetCodesMore(ns: seq<NetworkCapability>, n: NetworkCapability, b: Boundary)
    ensures AllSure(ns + [n], b) == AllSure(ns, b) + SureCodes(n, b)
    ensures AllPossible(ns + [n], b) == AllPossible(ns, b) + PossibleCodes(n, b)
  {
    hide SureCodes, PossibleCodes;
  }

  ghost predicate AllJustified(c: Contract, b: Boundary, fs: seq<Finding>) {
    forall i :: 0 <= i < |fs| ==> Justified(c, b, fs[i])
  }

  function Codes(fs: seq<Finding>): set<string> { set i | 0 <= i < |fs| && !fs[i].state.Exceeds? :: fs[i].code }

  function Domains(fs: seq<Finding>): set<Domain> { set i | 0 <= i < |fs| && !fs[i].state.Exceeds? :: fs[i].domain }

  lemma CodesMore(fs: seq<Finding>, f: Finding)
    ensures Codes(fs + [f]) == Codes(fs) + if f.state.Exceeds? then {} else {f.code}
    ensures Domains(fs + [f]) == Domains(fs) + if f.state.Exceeds? then {} else {f.domain}
  {
    var all := fs + [f];
    assert forall i :: 0 <= i < |fs| ==> all[i] == fs[i];
    assert all[|fs|] == f;
    forall x | x in Codes(all) ensures x in Codes(fs) + if f.state.Exceeds? then {} else {f.code} {}
    forall x | x in Domains(all) ensures x in Domains(fs) + if f.state.Exceeds? then {} else {f.domain} {}
    forall x | x in Codes(fs) ensures x in Codes(all) {
      var i :| 0 <= i < |fs| && !fs[i].state.Exceeds? && fs[i].code == x;
      assert all[i].code == x;
    }
    forall x | x in Domains(fs) ensures x in Domains(all) {
      var i :| 0 <= i < |fs| && !fs[i].state.Exceeds? && fs[i].domain == x;
      assert all[i].domain == x;
    }
  }

  lemma JustifiedMore(c: Contract, b: Boundary, fs: seq<Finding>, f: Finding)
    requires AllJustified(c, b, fs) && Justified(c, b, f)
    ensures AllJustified(c, b, fs + [f])
  {
    hide Justified;
  }

  // ----- verdicts -----------------------------------------------------------------------------

  datatype Verdict = WithinBoundary | ExceedsBoundary | UnsupportedContract | InconclusiveCheck

  datatype Report = Report(verdict: Verdict, code: string, covered: set<Domain>, counterexample: Option<Domain>,
                           unsupportedFields: set<string>)

  lemma RaisedBy(c: Contract, b: Boundary)
    ensures forall f :: f in c.filesystem ==> FileCodes(f, b) <= Raised(c, b)
    ensures forall n :: n in c.network ==> SureCodes(n, b) <= Raised(c, b)
    ensures ProcessCodes(c, b) <= Raised(c, b) && PrivilegeCodes(c, b) <= Raised(c, b)
  {
    hide FileCodes, SureCodes, UnknownCodes, ProcessCodes, PrivilegeCodes;
  }

  /** Where nothing is raised every path and every target is one that leads where it spells. */
  lemma NothingRaised(c: Contract, b: Boundary)
    requires Raised(c, b) == {}
    ensures forall f :: f in c.filesystem ==> FileModelled(f)
    ensures forall n :: n in c.network && n.protocol.Rest? ==> RestModelled(n) && RequestPaths(n.paths, false)
  {
    hide FileModelled, RequestPaths, HasOffer, AllOffered, Answered, Raised;
    RaisedBy(c, b);
    forall f | f in c.filesystem ensures FileModelled(f) { assert FileCodes(f, b) == {}; }
    forall n | n in c.network && n.protocol.Rest? ensures RestModelled(n) && RequestPaths(n.paths, false) {
      assert SureCodes(n, b) == {};
    }
  }

  /** Everything that a verdict of containment needs to know is stated. */
  ghost predicate Stated(c: Contract, b: Boundary) {
    c.unknowns == [] &&
    (forall f :: f in c.filesystem ==> !f.access.UnknownAccess? && f.path.Some? && !f.scope.UnknownScope?) &&
    (forall n :: n in c.network ==> NetworkStated(n)) && ProcessStated(c.process, b.process) &&
    c.privilege.escalation.Some? && (b.privilege.requiredEuid.Some? ==> c.privilege.requiredEuid.Some?)
  }

  ghost predicate NetworkStated(n: NetworkCapability) {
    n.host.Some? && n.port.Some? && !n.netAccess.NetUnknown? &&
    ((n.protocol.Rest? && n.methods != [] && n.paths != []) ||
     (n.protocol.Tcp? && n.methods == [] && n.paths == [] && n.toolIdentity.None?))
  }

  ghost predicate ProcessStated(p: ProcessCapability, maximum: ProcessCapability) {
    p.execution.Some? &&
    (p.execution.value ==>
       maximum.execution == Some(true) && p.executables != [] &&
       (forall e :: e in p.executables ==> PlaceOf(e) == Named(Segments(e))) &&
       (p.spawnChildren.Some? || maximum.spawnChildren == Some(true)))
  }

  lemma AllStated(c: Contract, b: Boundary)
    requires Raised(c, b) == {} && Contained(c, b) && c.unknowns == []
    ensures Stated(c, b)
  {
    hide FileModelled, RequestPaths, HasOffer, AllOffered, Answered, Raised, SafePaths, Contained;
    NothingRaised(c, b);
    RaisedBy(c, b);
    forall n | n in c.network ensures NetworkStated(n) { assert SureCodes(n, b) == {}; }
    forall f | f in c.filesystem ensures !f.access.UnknownAccess? && f.path.Some? && !f.scope.UnknownScope? {
      ModelledIsStated(f);
    }
    if c.process.execution == Some(true) { ExecutionStated(c, b); }
  }

  /** A maximum at the very same path has the right and the scope. */
  ghost predicate GrantedAsSpelt(f: FilesystemCapability, b: Boundary) {
    exists m :: m in b.filesystem && m.path == f.path && f.access in FileRights(m.access) &&
                (m.scope.Prefix? || (m.scope.Exact? && f.scope.Exact?))
  }

  /** Directories stand for what is below them only if the boundary says so and the runtime guarantees it. */
  ghost predicate Guaranteed(c: Contract, b: Boundary) {
    (b.lexicalPrefix && b.filesystemGuarantees) || forall f :: f in c.filesystem ==> GrantedAsSpelt(f, b)
  }

  lemma AllGuaranteed(c: Contract, b: Boundary)
    requires Raised(c, b) == {} && Contained(c, b) && !HasOverlooked(c, b)
    ensures Guaranteed(c, b)
  {
    hide SafePath, Below, Raised, FileNeeds, Grants, SplitGrant, Contained;
    NothingRaised(c, b);
    RaisedBy(c, b);
    forall f | f in c.filesystem ensures GrantedAsSpelt(f, b) || Lexical(b) {
      assert FileCodes(f, b) == {};
      var i :| 0 <= i < |c.filesystem| && c.filesystem[i] == f;
      MatchedOrOverlooked(c, b, i);
      if !Lexical(b) {
        var k :| 0 <= k < |b.filesystem| && FileMatch(f, b.filesystem[k], false) == Matched;
        PrincipalRight(f, b.filesystem[k]);
        assert b.filesystem[k] in b.filesystem;
      }
    }
  }

  lemma MatchedOrOverlooked(c: Contract, b: Boundary, i: nat)
    requires Contained(c, b) && i < |c.filesystem| && FileModelled(c.filesystem[i]) &&
             FileCodes(c.filesystem[i], b) == {}
    ensures Answered(c.filesystem[i], b, Matched) || HasOverlooked(c, b)
  {
    hide FileModelled, SplitGrant, Contained, FileMatch;
    var f := c.filesystem[i];
    ContainedIsCovered(c, b, i);
    if !Answered(f, b, Matched) {
      assert Unmatching(f, b.filesystem, Lexical(b));
      UnmatchedCoveredIff(f, b, Lexical(b));
      assert Overlooked(c.filesystem[i], b);
    }
  }

  lemma ContainedIsCovered(c: Contract, b: Boundary, i: nat)
    requires Contained(c, b) && i < |c.filesystem|
    ensures FileCovered(c.filesystem[i], b)
  {
    hide FileNeeds, Grants;
    forall right, q | FileNeeds(c.filesystem[i], right, q) ensures Grants(b, File(right, q)) {
      assert Needs(c, File(right, q));
    }
  }

  lemma ModelledIsStated(f: FilesystemCapability)
    requires FileModelled(f)
    ensures !f.access.UnknownAccess? && f.path.Some? && !f.scope.UnknownScope?
  {
  }

  lemma ExecutionStated(c: Contract, b: Boundary)
    requires ProcessCodes(c, b) == {} && Contained(c, b) && c.process.execution == Some(true)
    ensures ProcessStated(c.process, b.process)
  {
    var es := c.process.executables;
    forall e | e in es ensures PlaceOf(e) == Named(Segments(e)) {
      var i :| 0 <= i < |es| && es[i] == e;
      assert SafePath(es[i]);
      SafePathIff(e);
    }
    hide PlaceOf, Segments, Named, SafePaths;
    assert Needs(c, Exec(es[0])) && Grants(b, Exec(es[0]));
  }

  /** What is contained access by access is then contained place by place. */
  lemma WithinEverywhere(c: Contract, b: Boundary)
    requires Raised(c, b) == {} && Contained(c, b)
    ensures PlacesContained(c, b) && RequestsContained(c, b)
  {
    hide FileModelled, RestModelled, RequestPaths, FileNeeds, NetNeeds, Grants, PlacesCovered, RequestsReached, Raised;
    NothingRaised(c, b);
    forall i | 0 <= i < |c.filesystem| ensures PlacesCovered(c.filesystem[i], b) {
      forall right, q | FileNeeds(c.filesystem[i], right, q) ensures Grants(b, File(right, q)) {
        assert Needs(c, File(right, q));
      }
      CoveredReaches(c.filesystem[i], b);
    }
    forall i | 0 <= i < |c.network| && c.network[i].protocol.Rest? ensures RequestsReached(c.network[i], b) {
      forall host, port, right, tool, channel | NetNeeds(c.network[i], host, port, right, tool, channel)
        ensures Grants(b, Net(host, port, right, tool, channel))
      {
        assert Needs(c, Net(host, port, right, tool, channel));
      }
      CoveredServes(c.network[i], b);
    }
  }

  /** The checks of the result's own constructor. */
  predicate Constructible(r: Report) {
    |r.unsupportedFields| <= MAX_ITEMS &&
      (r.verdict.WithinBoundary? ==> r.covered == ALL_DOMAINS && r.unsupportedFields == {})
  }

  function VerdictOf(s: State): Verdict {
    match s
    case Exceeds => ExceedsBoundary
    case Unsupported => UnsupportedContract
    case Inconclusive => InconclusiveCheck
  }

  function Priority(s: State): nat {
    match s
    case Exceeds => 3
    case Unsupported => 2
    case Inconclusive => 1
  }

  // ----- single items -------------------------------------------------------------------------

  lemma FileExceeds(c: Contract, b: Boundary, i: nat)
    requires i < |c.filesystem| && FileModelled(c.filesystem[i]) &&
             Unmatching(c.filesystem[i], b.filesystem, Lexical(b))
    ensures !Contained(c, b) || HasOverlooked(c, b)
  {
    hide SafePath, Unmatching, SplitGrant, FileNeeds, Grants, Lexical;
    UnmatchedCoveredIff(c.filesystem[i], b, Lexical(b));
    if !SplitGrant(c.filesystem[i], b.filesystem) {
      var right, q :| FileNeeds(c.filesystem[i], right, q) && !Grants(b, File(right, q));
      assert Needs(c, File(right, q));
    }
  }

  lemma FilesContained(c: Contract, b: Boundary)
    requires forall i :: 0 <= i < |c.filesystem| ==> FileCovered(c.filesystem[i], b)
    ensures ContainedIn(c, b, Filesystem)
  {
    hide FileNeeds, Grants;
    forall a | DomainOf(a) == Filesystem && Needs(c, a) ensures Grants(b, a) {
      var i :| 0 <= i < |c.filesystem| && FileNeeds(c.filesystem[i], a.right, a.filePath);
      assert FileCovered(c.filesystem[i], b);
    }
  }

  lemma NetsContained(c: Contract, b: Boundary)
    requires forall i :: 0 <= i < |c.network| ==> NetCovered(c.network[i], b)
    ensures ContainedIn(c, b, Network)
  {
    hide NetNeeds, Grants;
    forall a | DomainOf(a) == Network && Needs(c, a) ensures Grants(b, a) {
      var i :| 0 <= i < |c.network| && NetNeeds(c.network[i], a.endHost, a.endPort, a.netRight, a.asTool, a.channel);
      assert NetCovered(c.network[i], b);
    }
  }

  lemma NetIsExcess(c: Contract, b: Boundary, i: nat)
    requires i < |c.network| && NetExceeds(c.network[i], b)
    ensures !Contained(c, b)
  {
    hide NetNeeds, Grants;
    var host, port, right, tool, channel :|
      NetNeeds(c.network[i], host, port, right, tool, channel) && !Grants(b, Net(host, port, right, tool, channel));
    assert Needs(c, Net(host, port, right, tool, channel));
  }

  /** What has been learned from the maxima at the endpoint of a capability. */
  ghost predicate Sorted(c: NetworkCapability, ms: seq<NetworkCapability>, everything: bool, doubt: bool,
                         rest: seq<NetworkCapability>) {
    (everything <==> exists k :: 0 <= k < |ms| && AtEndpoint(ms[k], c) && OfferOf(c, ms[k]) == Everything) &&
    (doubt <==> exists k :: 0 <= k < |ms| && AtEndpoint(ms[k], c) && OfferOf(c, ms[k]) == Doubt) &&
    (forall m :: m in rest <==> m in ms && AtEndpoint(m, c) && OfferOf(c, m) == Requests) &&
    Patterns(rest) <= Patterns(ms)
  }

  lemma {:induction false} PatternsAppend(ms: seq<NetworkCapability>, m: NetworkCapability)
    ensures Patterns(ms + [m]) == Patterns(ms) + |Set(m.paths)|
  {
    if ms == [] {
      assert ms + [m] == [m] && [m][1..] == [];
    } else {
      assert (ms + [m])[1..] == ms[1..] + [m];
      PatternsAppend(ms[1..], m);
    }
  }

  lemma SortedNext(c: NetworkCapability, ms: seq<NetworkCapability>, m: NetworkCapability, everything: bool,
                   doubt: bool, rest: seq<NetworkCapability>)
    requires Sorted(c, ms, everything, doubt, rest)
    ensures var offer := if AtEndpoint(m, c) then OfferOf(c, m) else Nothing;
            Sorted(c, ms + [m], everything || offer == Everything, doubt || offer == Doubt,
                   if offer == Requests then rest + [m] else rest)
  {
    hide OfferOf, AtEndpoint, Patterns;
    PatternsAppend(ms, m);
    PatternsAppend(rest, m);
    var all := ms + [m];
    assert all[|ms|] == m;
    assert forall k :: 0 <= k < |ms| ==> all[k] == ms[k];
  }

  method SortMaxima(c: NetworkCapability, ms: seq<NetworkCapability>)
    returns (everything: bool, doubt: bool, rest: seq<NetworkCapability>)
    ensures Sorted(c, ms, everything, doubt, rest)
  {
    hide Sorted, OfferOf, Patterns;
    everything, doubt, rest := false, false, [];
    NothingSorted(c);
    var k := 0;
    while k < |ms|
      invariant k <= |ms| && Sorted(c, ms[..k], everything, doubt, rest)
    {
      var m := ms[k];
      SortedNext(c, ms[..k], m, everything, doubt, rest);
      assert ms[..k] + [m] == ms[..k + 1];
      if AtEndpoint(m, c) {
        var offer := OfferOf(c, m);
        everything := everything || offer == Everything;
        doubt := doubt || offer == Doubt;
        if offer == Requests { rest := rest + [m]; }
      }
      k := k + 1;
    }
    assert ms[..k] == ms;
  }

  lemma NothingSorted(c: NetworkCapability)
    ensures Sorted(c, [], false, false, [])
  {
  }

  /** A request that no maximum covers, where none is in doubt, is an excess. */
  lemma UncoveredPairExceeds(c: NetworkCapability, b: Boundary, rest: seq<NetworkCapability>, verb: string,
                             target: string)
    requires RestModelled(c) && Sorted(c, b.network, false, false, rest)
    requires verb in c.methods && target in c.paths && !PairCovered(verb, target, rest)
    ensures NetExceeds(c, b)
  {
    hide OfferOf, AllowedBy, NetGrants, Patterns;
    forall i | 0 <= i < |b.network| && AtEndpoint(b.network[i], c)
      ensures !NetGrants(b.network[i], c.host.value, c.port.value, c.netAccess, c.toolIdentity, Request(verb, target))
    {
      var m := b.network[i];
      if OfferOf(c, m) == Requests {
        assert m in rest;
        var k :| 0 <= k < |rest| && rest[k] == m;
      }
      NotGranted(c, m, Request(verb, target));
    }
    NetPrincipal(c, c);
    ChannelExceeds(c, b, Request(verb, target));
  }

  /** A raw connection where no maximum offers everything and none is in doubt is an excess. */
  lemma RawExceeds(c: NetworkCapability, b: Boundary, rest: seq<NetworkCapability>)
    requires TcpModelled(c) && Sorted(c, b.network, false, false, rest)
    ensures NetExceeds(c, b)
  {
    hide NetGrants, Patterns;
    forall i | 0 <= i < |b.network| && AtEndpoint(b.network[i], c)
      ensures !NetGrants(b.network[i], c.host.value, c.port.value, c.netAccess, c.toolIdentity, Raw)
    {
      NotGranted(c, b.network[i], Raw);
    }
    NetPrincipal(c, c);
    ChannelExceeds(c, b, Raw);
  }

  lemma NoEndpointExceeds(c: NetworkCapability, b: Boundary)
    requires RestModelled(c) || TcpModelled(c)
    requires forall k :: 0 <= k < |b.network| ==> !AtEndpoint(b.network[k], c)
    ensures NetExceeds(c, b)
  {
    NetPrincipal(c, c);
    ChannelExceeds(c, b, if c.protocol.Tcp? then Raw else Request(c.methods[0], c.paths[0]));
  }

  /** The judgement of one network capability. */
  datatype Judgement = Fine | Bad(state: State, code: string)

  ghost predicate NetJudged(c: NetworkCapability, b: Boundary, j: Judgement) {
    match j
    case Fine => NetCovered(c, b)
    case Bad(state, code) =>
      if state.Exceeds? then NetExceeds(c, b)
      else code in OWN_CODES &&
           !(NetSupported(c) && NoDoubt(c, b) &&
             |Set(c.methods)| * |Set(c.paths)| * Patterns(b.network) <= MAX_COMPARISONS)
  }

  function JudgedCodes(j: Judgement): set<string> { if j.Bad? && !j.state.Exceeds? then {j.code} else {} }

  ghost predicate Coded(c: NetworkCapability, b: Boundary, j: Judgement) {
    JudgedCodes(j) == NetCodes(c, b) || (Heavy(c, b) && JudgedCodes(j) == {RESOURCE_LIMIT})
  }

  method JudgeNetwork(c: NetworkCapability, b: Boundary) returns (j: Judgement)
    ensures NetJudged(c, b, j) && Coded(c, b, j)
  {
    hide NetCovered, NetExceeds, Patterns, OfferOf, RequestPaths, PairCovered, Sorted, OWN_CODES, HasOffer, AllOffered;
    Owned();
    if c.host.None? || c.port.None? || c.protocol.UnknownProtocol? || c.netAccess.NetUnknown? {
      return Bad(Inconclusive, NET_UNKNOWN);
    }
    if c.protocol.OtherProtocol? { return Bad(Unsupported, NET_PROTOCOL); }
    if c.protocol.Tcp? && (c.methods != [] || c.paths != [] || c.toolIdentity.Some?) {
      return Bad(Unsupported, TCP_REQUEST);
    }
    if c.protocol.Rest? && (c.methods == [] || c.paths == [] || !RequestPaths(c.paths, false)) {
      return Bad(Unsupported, REQUEST_SCOPE);
    }
    if forall k :: 0 <= k < |b.network| ==> !AtEndpoint(b.network[k], c) {
      NoEndpointExceeds(c, b);
      NoOffers(c, b);
      return Bad(Exceeds, "network_endpoint_exceeds_boundary");
    }
    var everything, doubt, rest := SortMaxima(c, b.network);
    SortedMeans(c, b, everything, doubt, rest);
    SortedOffers(c, b, everything, doubt, rest);
    if everything { return Fine; }
    if c.protocol.Rest? {
      var pairs := CoverPairs(Set(c.methods), Set(c.paths), rest);
      if pairs.Exhausted? {
        Overloaded(c, b, rest, everything, doubt);
        return Bad(Inconclusive, RESOURCE_LIMIT);
      }
      if pairs.AllCovered? {
        SortedRest(c, b, everything, doubt, rest);
        PairsCover(c, b, rest);
        return Fine;
      }
      if !doubt {
        var verb, target :| verb in Set(c.methods) && target in Set(c.paths) && !PairCovered(verb, target, rest);
        UncoveredPairExceeds(c, b, rest, verb, target);
      }
    } else if !doubt {
      RawExceeds(c, b, rest);
    }
    return if doubt then Bad(Unsupported, NET_SCOPE) else Bad(Exceeds, "network_request_exceeds_boundary");
  }

  lemma NoOffers(c: NetworkCapability, b: Boundary)
    requires forall k :: 0 <= k < |b.network| ==> !AtEndpoint(b.network[k], c)
    ensures forall offer :: !HasOffer(c, b, offer)
  {
  }

  lemma SortedOffers(c: NetworkCapability, b: Boundary, everything: bool, doubt: bool, rest: seq<NetworkCapability>)
    requires Sorted(c, b.network, everything, doubt, rest)
    ensures everything == HasOffer(c, b, Everything) && doubt == HasOffer(c, b, Doubt)
    ensures AllOffered(c, b) <==>
              forall verb, target :: verb in Set(c.methods) && target in Set(c.paths) ==>
                PairCovered(verb, target, rest)
  {
    hide OfferOf, AllowedBy, Patterns;
    forall verb, target ensures PairOffered(c, b, verb, target) <==> PairCovered(verb, target, rest) {
      if PairOffered(c, b, verb, target) {
        var k :| 0 <= k < |b.network| && AtEndpoint(b.network[k], c) && OfferOf(c, b.network[k]) == Requests &&
                 verb in b.network[k].methods && AllowedBy(target, b.network[k].paths);
        assert b.network[k] in rest;
        var j :| 0 <= j < |rest| && rest[j] == b.network[k];
      }
      if PairCovered(verb, target, rest) {
        var j :| 0 <= j < |rest| && verb in rest[j].methods && AllowedBy(target, rest[j].paths);
        assert rest[j] in b.network;
        var k :| 0 <= k < |b.network| && b.network[k] == rest[j];
      }
    }
  }

  lemma Owned()
    ensures FS_SCOPE in OWN_CODES && FS_PREFIX in OWN_CODES && NET_UNKNOWN in OWN_CODES && NET_PROTOCOL in OWN_CODES
    ensures TCP_REQUEST in OWN_CODES && REQUEST_SCOPE in OWN_CODES && RESOURCE_LIMIT in OWN_CODES &&
            NET_SCOPE in OWN_CODES
    ensures PROCESS_UNKNOWN in OWN_CODES && BINARY_MISSING in OWN_CODES && CHILD_UNKNOWN in OWN_CODES
    ensures PRIVILEGE_UNKNOWN in OWN_CODES && UID_UNPROVEN in OWN_CODES
  {
  }

  lemma SortedMeans(c: NetworkCapability, b: Boundary, everything: bool, doubt: bool, rest: seq<NetworkCapability>)
    requires (RestModelled(c) || TcpModelled(c)) && Sorted(c, b.network, everything, doubt, rest)
    ensures everything ==> NetCovered(c, b)
    ensures doubt ==> !NoDoubt(c, b)
  {
    hide NetCovered, OfferOf, Patterns;
    if everything {
      var k :| 0 <= k < |b.network| && AtEndpoint(b.network[k], c) && OfferOf(c, b.network[k]) == Everything;
      EverythingCovers(c, b, k);
    }
  }

  lemma SortedRest(c: NetworkCapability, b: Boundary, everything: bool, doubt: bool, rest: seq<NetworkCapability>)
    requires Sorted(c, b.network, everything, doubt, rest)
    ensures forall k :: 0 <= k < |rest| ==> rest[k] in b.network && AtEndpoint(rest[k], c) &&
                                            OfferOf(c, rest[k]) == Requests
  {
    hide OfferOf, AtEndpoint, Patterns;
  }

  lemma Overloaded(c: NetworkCapability, b: Boundary, rest: seq<NetworkCapability>, everything: bool, doubt: bool)
    requires Sorted(c, b.network, everything, doubt, rest)
    requires |Set(c.methods)| * |Set(c.paths)| * Patterns(rest) > MAX_COMPARISONS
    ensures |Set(c.methods)| * |Set(c.paths)| * Patterns(b.network) > MAX_COMPARISONS
  {
    assert Patterns(rest) <= Patterns(b.network);
    hide *;
    ProductGrows(|Set(c.methods)|, |Set(c.paths)|, Patterns(rest), Patterns(b.network));
  }

  lemma ProductGrows(x: nat, y: nat, p: nat, q: nat)
    requires p <= q
    ensures x * y * p <= x * y * q
  {
    assert x * y >= 0;
  }

  // ----- the check ----------------------------------------------------------------------------

  lemma NetBadMeans(c: Contract, b: Boundary, i: nat, state: State, code: string)
    requires i < |c.network| && NetJudged(c.network[i], b, Bad(state, code))
    ensures Justified(c, b, Finding(state, code, Network)) && (!state.Exceeds? ==> code in OWN_CODES)
  {
    hide NetSupported, NoDoubt, Patterns, OWN_CODES, FilesModelled, ProcessModelled, PrivilegeModelled, HasOverlooked,
      Contained, NetExceeds;
    if state.Exceeds? { NetIsExcess(c, b, i); }
  }

  lemma FileJudged(c: Contract, b: Boundary, i: nat)
    requires i < |c.filesystem|
    ensures !FileModelled(c.filesystem[i]) ==> !Modelled(c, b)
    ensures forall k :: 0 <= k < |b.filesystem| && FileModelled(c.filesystem[i]) &&
                        FileMatch(c.filesystem[i], b.filesystem[k], Lexical(b)) == Unresolved ==>
              !Modelled(c, b)
  {
    hide SafePath, NetModelled, ProcessModelled, PrivilegeModelled, FileRights, Below;
  }

  /** How the maxima of the boundary answer one filesystem capability. */
  method MatchFile(c: FilesystemCapability, b: Boundary) returns (matches: bool, unresolved: bool)
    requires FileModelled(c)
    ensures matches == Answered(c, b, Matched) && unresolved == Answered(c, b, Unresolved)
    ensures !matches && !unresolved ==> Unmatching(c, b.filesystem, Lexical(b))
  {
    hide FileMatch;
    var lexical := Lexical(b);
    matches, unresolved := false, false;
    for k := 0 to |b.filesystem|
      invariant matches <==> exists j :: 0 <= j < k && FileMatch(c, b.filesystem[j], lexical) == Matched
      invariant unresolved <==> exists j :: 0 <= j < k && FileMatch(c, b.filesystem[j], lexical) == Unresolved
    {
      match FileMatch(c, b.filesystem[k], lexical) {
        case Matched => matches := true;
        case Unresolved => unresolved := true;
        case Unmatched =>
      }
    }
  }

  predicate AnyExceeds(fs: seq<Finding>) { exists i :: 0 <= i < |fs| && fs[i].state.Exceeds? }

  lemma OneMoreCode(us: seq<CapabilityUnknown>, u: CapabilityUnknown)
    ensures CodesOf(us + [u]) == CodesOf(us) + {u.reasonCode}
  {
    var all := us + [u];
    assert all[|us|] == u;
    forall code | code in CodesOf(us) ensures code in CodesOf(all) {
      var i :| 0 <= i < |us| && us[i].reasonCode == code;
      assert all[i].reasonCode == code;
    }
  }

  class Verifier {
    const contract: Contract
    const boundary: Boundary
    var findings: seq<Finding>
    var unsupported: set<string>
    var uncovered: set<Domain>

    /** The bookkeeping agrees with the findings, and every finding is justified. */
    ghost predicate Valid()
      reads this
    {
      unsupported == Codes(findings) && uncovered == Domains(findings) && AllJustified(contract, boundary, findings) &&
      unsupported <= OWN_CODES + UnknownCodes(contract)
    }

    constructor (contract: Contract, boundary: Boundary)
      ensures this.contract == contract && this.boundary == boundary && Valid() && findings == []
    {
      this.contract, this.boundary := contract, boundary;
      findings, unsupported, uncovered := [], {}, {};
    }

    method Fail(state: State, code: string, domain: Domain)
      requires Valid() && Justified(contract, boundary, Finding(state, code, domain))
      requires !state.Exceeds? ==> code in OWN_CODES || code in UnknownCodes(contract)
      modifies this
      ensures Valid() && findings == old(findings) + [Finding(state, code, domain)]
      ensures uncovered == old(uncovered) + (if state.Exceeds? then {} else {domain})
      ensures unsupported == old(unsupported) + (if state.Exceeds? then {} else {code})
    {
      hide Codes, Domains, Justified, AllJustified, OWN_CODES, UnknownCodes;
      var f := Finding(state, code, domain);
      CodesMore(findings, f);
      JustifiedMore(contract, boundary, findings, f);
      findings := findings + [f];
      if !state.Exceeds? {
        uncovered := uncovered + {domain};
        unsupported := unsupported + {code};
      }
    }

    method FailEverywhere(code: string)
      requires Valid() && !Modelled(contract, boundary) && code in UnknownCodes(contract)
      modifies this
      ensures Valid() && old(findings) <= findings && findings != old(findings) &&
              unsupported == old(unsupported) + {code}
    {
      hide Valid, Modelled, OWN_CODES, Codes, Domains, CodesOf, AllJustified;
      Fail(Unsupported, code, Filesystem);
      Fail(Unsupported, code, Network);
      Fail(Unsupported, code, Tools);
      Fail(Unsupported, code, Process);
      Fail(Unsupported, code, Privilege);
      Fail(Unsupported, code, Credentials);
    }

    lemma UnknownModelled(i: nat)
      requires i < |contract.unknowns|
      ensures !Modelled(contract, boundary) && contract.unknowns[i].reasonCode in UnknownCodes(contract)
    {
    }

    method CheckUnknowns()
      requires Valid()
      modifies this
      ensures Valid() && old(findings) <= findings && (findings == old(findings) ==> contract.unknowns == [])
      ensures unsupported == old(unsupported) + UnknownCodes(contract)
    {
      hide Valid, Modelled, OWN_CODES, Codes, Domains, CodesOf, AllJustified;
      var us := contract.unknowns;
      assert CodesOf(us[..0]) == {} by { NoCodes(us); }
      for i := 0 to |us|
        invariant Valid() && old(findings) <= findings && (findings == old(findings) ==> i == 0)
        invariant unsupported == old(unsupported) + CodesOf(us[..i])
      {
        UnknownModelled(i);
        OneMoreCode(us[..i], us[i]);
        assert us[..i] + [us[i]] == us[..i + 1];
        match us[i].about {
          case In(domain) => Fail(Unsupported, us[i].reasonCode, domain);
          case Semantics => FailEverywhere(us[i].reasonCode);
        }
      }
      assert us[..|us|] == us;
    }

    lemma NoCodes(us: seq<CapabilityUnknown>)
      ensures CodesOf(us[..0]) == {}
    {
    }

    method CheckFilesystem()
      requires Valid()
      modifies this
      ensures Valid() && old(findings) <= findings
      ensures findings == old(findings) ==> ContainedIn(contract, boundary, Filesystem)
      ensures unsupported == old(unsupported) + AllFileCodes(contract.filesystem, boundary)
      ensures HasOverlooked(contract, boundary) ==> AnyExceeds(findings)
    {
      hide Valid, Modelled, OWN_CODES, Codes, Domains, UnknownCodes, AllJustified, FileMatch, FileModelled,
        FileCovered, Contained, ContainedIn, AllFileCodes, AnyExceeds, Overlooked, Justified;
      Owned();
      var fs := contract.filesystem;
      NoFileCodes(fs, boundary);
      for i := 0 to |fs|
        invariant Valid() && old(findings) <= findings
        invariant findings == old(findings) ==> forall j :: 0 <= j < i ==> FileCovered(fs[j], boundary)
        invariant unsupported == old(unsupported) + AllFileCodes(fs[..i], boundary)
        invariant forall j :: 0 <= j < i && Overlooked(fs[j], boundary) ==> AnyExceeds(findings)
      {
        FileCodesMore(fs[..i], fs[i], boundary);
        assert fs[..i] + [fs[i]] == fs[..i + 1];
        CheckFile(i);
      }
      assert fs[..|fs|] == fs;
      if findings == old(findings) { FilesContained(contract, boundary); }
    }

    lemma NoFileCodes(fs: seq<FilesystemCapability>, b: Boundary)
      ensures AllFileCodes(fs[..0], b) == {}
    {
    }

    method CheckFile(i: nat)
      requires Valid() && i < |contract.filesystem|
      modifies this
      ensures Valid() && old(findings) <= findings
      ensures findings == old(findings) ==> FileCovered(contract.filesystem[i], boundary)
      ensures unsupported == old(unsupported) + FileCodes(contract.filesystem[i], boundary)
      ensures AnyExceeds(old(findings)) || Overlooked(contract.filesystem[i], boundary) ==> AnyExceeds(findings)
    {
      hide Valid, Modelled, OWN_CODES, Codes, Domains, UnknownCodes, AllJustified, FileMatch, FileModelled,
        FileCovered, Contained, ContainedIn, HasOverlooked, SplitGrant, Unmatching;
      Owned();
      var c := contract.filesystem[i];
      FileJudged(contract, boundary, i);
      if !FileModelled(c) {
        Fail(Unsupported, FS_SCOPE, Filesystem);
        return;
      }
      var matches, unresolved := MatchFile(c, boundary);
      AnsweredMeans(c);
      if matches {
        var k :| 0 <= k < |boundary.filesystem| && FileMatch(c, boundary.filesystem[k], Lexical(boundary)) == Matched;
        MatchCovers(c, boundary, k, Lexical(boundary));
      } else if unresolved {
        Fail(Unsupported, FS_PREFIX, Filesystem);
      } else {
        FileExceeds(contract, boundary, i);
        Fail(Exceeds, "filesystem_access_exceeds_boundary", Filesystem);
        assert findings[|findings| - 1].state.Exceeds?;
      }
    }

    lemma AnsweredMeans(c: FilesystemCapability)
      requires FileModelled(c)
      ensures Answered(c, boundary, Matched) || Answered(c, boundary, Unresolved) ==>
              !Unmatching(c, boundary.filesystem, Lexical(boundary))
    {
      hide FileMatch, FileModelled;
    }

    method CheckNetwork()
      requires Valid()
      modifies this
      ensures Valid() && old(findings) <= findings
      ensures findings == old(findings) ==> ContainedIn(contract, boundary, Network)
      ensures old(unsupported) + AllSure(contract.network, boundary) <= unsupported
      ensures unsupported <= old(unsupported) + AllPossible(contract.network, boundary)
    {
      hide Valid, Modelled, OWN_CODES, Codes, Domains, UnknownCodes, AllJustified, NetCovered, Justified, ContainedIn,
        NetExceeds, NetSupported, NoDoubt, Patterns, AllSure, AllPossible, Heavy, NetCodes;
      var ns := contract.network;
      NoNetCodes(ns, boundary);
      for i := 0 to |ns|
        invariant Valid() && old(findings) <= findings
        invariant findings == old(findings) ==> forall j :: 0 <= j < i ==> NetCovered(ns[j], boundary)
        invariant old(unsupported) + AllSure(ns[..i], boundary) <= unsupported <= old(unsupported) +
                  AllPossible(ns[..i], boundary)
      {
        NetCodesMore(ns[..i], ns[i], boundary);
        assert ns[..i] + [ns[i]] == ns[..i + 1];
        var j := JudgeNetwork(ns[i], boundary);
        if j.Bad? {
          NetBadMeans(contract, boundary, i, j.state, j.code);
          Fail(j.state, j.code, Network);
        }
      }
      assert ns[..|ns|] == ns;
      if findings == old(findings) { NetsContained(contract, boundary); }
    }

    lemma NoNetCodes(ns: seq<NetworkCapability>, b: Boundary)
      ensures AllSure(ns[..0], b) == {} && AllPossible(ns[..0], b) == {}
    {
    }

    lemma NeedIsExcess(a: Access, code: string, domain: Domain)
      requires Needs(contract, a) && !Grants(boundary, a)
      ensures Justified(contract, boundary, Finding(Exceeds, code, domain))
    {
      hide Needs, Grants;
    }

    method CheckTools()
      requires Valid()
      modifies this
      ensures Valid() && old(findings) <= findings
      ensures findings == old(findings) ==> ContainedIn(contract, boundary, Tools)
      ensures unsupported == old(unsupported)
    {
      hide Valid, Justified, OWN_CODES, Codes, Domains, UnknownCodes, AllJustified;
      for i := 0 to |contract.tools|
        invariant Valid() && old(findings) <= findings && unsupported == old(unsupported)
        invariant findings == old(findings) ==> forall j :: 0 <= j < i ==> contract.tools[j] in boundary.tools
      {
        var tool := contract.tools[i];
        if tool !in boundary.tools {
          NeedIsExcess(UseTool(tool), "tool_identity_exceeds_boundary", Tools);
          Fail(Exceeds, "tool_identity_exceeds_boundary", Tools);
        }
      }
    }

    method CheckCredentials()
      requires Valid()
      modifies this
      ensures Valid() && old(findings) <= findings
      ensures findings == old(findings) ==> ContainedIn(contract, boundary, Credentials)
      ensures unsupported == old(unsupported)
    {
      hide Valid, Justified, OWN_CODES, Codes, Domains, UnknownCodes, AllJustified;
      for i := 0 to |contract.credentials|
        invariant Valid() && old(findings) <= findings && unsupported == old(unsupported)
        invariant findings == old(findings) ==> forall j :: 0 <= j < i ==>
                  contract.credentials[j] in boundary.credentials
      {
        var credential := contract.credentials[i];
        if credential !in boundary.credentials {
          NeedIsExcess(UseCredential(credential), "credential_binding_exceeds_boundary", Credentials);
          Fail(Exceeds, "credential_binding_exceeds_boundary", Credentials);
        }
      }
    }

    predicate BinariesFine() {
      contract.process.executables != [] &&
      (boundary.allowAnyExecutable ||
       forall i :: 0 <= i < |contract.process.executables| ==>
         contract.process.executables[i] in boundary.process.executables)
    }

    predicate ChildrenFine() {
      (contract.process.spawnChildren.Some? && !contract.process.spawnChildren.value) ||
        boundary.process.spawnChildren == Some(true)
    }

    method CheckExecution()
      requires Valid() && contract.process.execution.Some? && contract.process.execution.value
      modifies this
      ensures Valid() && old(findings) <= findings
      ensures findings == old(findings) ==> boundary.process.execution.Some? && boundary.process.execution.value
      ensures unsupported == old(unsupported) + (if boundary.process.execution.None? then {PROCESS_UNKNOWN} else {})
    {
      hide Valid, Justified, OWN_CODES, Codes, Domains, UnknownCodes, AllJustified, Modelled;
      Owned();
      var process, maximum := contract.process, boundary.process;
      if maximum.execution.None? {
        Undecided(PROCESS_UNKNOWN, Process);
        Fail(Inconclusive, PROCESS_UNKNOWN, Process);
      } else if !maximum.execution.value {
        NeedIsExcess(Exec(if process.executables == [] then "" else process.executables[0]),
          "process_execution_exceeds_boundary", Process);
        Fail(Exceeds, "process_execution_exceeds_boundary", Process);
      }
    }

    method CheckBinaries()
      requires Valid() && contract.process.execution.Some? && contract.process.execution.value
      modifies this
      ensures Valid() && old(findings) <= findings
      ensures findings == old(findings) ==> BinariesFine()
      ensures unsupported == old(unsupported) +
                (if contract.process.executables == [] ||
                  !SafePaths(contract.process.executables) then {BINARY_MISSING} else {})
    {
      hide Valid, Justified, OWN_CODES, Codes, Domains, UnknownCodes, AllJustified, Modelled;
      Owned();
      var process, maximum := contract.process, boundary.process;
      if process.executables == [] || !SafePaths(process.executables) {
        Undecided(BINARY_MISSING, Process);
        Fail(Unsupported, BINARY_MISSING, Process);
      } else if !boundary.allowAnyExecutable && exists i :: 0 <= i < |process.executables| &&
                                                            process.executables[i] !in maximum.executables {
        var i :| 0 <= i < |process.executables| && process.executables[i] !in maximum.executables;
        NeedIsExcess(Exec(process.executables[i]), "process_binary_exceeds_boundary", Process);
        Fail(Exceeds, "process_binary_exceeds_boundary", Process);
      }
    }

    method CheckChildren()
      requires Valid() && contract.process.execution.Some? && contract.process.execution.value
      modifies this
      ensures Valid() && old(findings) <= findings
      ensures findings == old(findings) ==> ChildrenFine()
      ensures unsupported == old(unsupported) +
                (if contract.process.spawnChildren.None? &&
                  boundary.process.spawnChildren != Some(true) then {CHILD_UNKNOWN} else {})
    {
      hide Valid, Justified, OWN_CODES, Codes, Domains, UnknownCodes, AllJustified, Modelled;
      Owned();
      if boundary.process.spawnChildren == Some(true) { return; }
      if contract.process.spawnChildren.None? {
        Undecided(CHILD_UNKNOWN, Process);
        Fail(Inconclusive, CHILD_UNKNOWN, Process);
      } else if contract.process.spawnChildren.value {
        NeedIsExcess(Spawn, "process_children_exceeds_boundary", Process);
        Fail(Exceeds, "process_children_exceeds_boundary", Process);
      }
    }

    method CheckProcess()
      requires Valid()
      modifies this
      ensures Valid() && old(findings) <= findings
      ensures findings == old(findings) ==> ContainedIn(contract, boundary, Process)
      ensures unsupported == old(unsupported) + ProcessCodes(contract, boundary)
    {
      hide Valid, Justified, OWN_CODES, Codes, Domains, UnknownCodes, AllJustified, Modelled, ContainedIn,
        BinariesFine, ChildrenFine;
      Owned();
      if contract.process.execution.None? {
        Undecided(PROCESS_UNKNOWN, Process);
        Fail(Inconclusive, PROCESS_UNKNOWN, Process);
      } else if contract.process.execution.value {
        CheckExecution();
        CheckBinaries();
        CheckChildren();
        if findings == old(findings) { ProcessContained(); }
      } else {
        NoProcess();
      }
    }

    lemma NoProcess()
      requires contract.process.execution.Some? && !contract.process.execution.value
      ensures ContainedIn(contract, boundary, Process)
    {
    }

    lemma ProcessContained()
      requires contract.process.execution.Some? && boundary.process.execution.Some? && boundary.process.execution.value
      requires BinariesFine() && ChildrenFine()
      ensures ContainedIn(contract, boundary, Process)
    {
    }

    lemma Undecided(code: string, domain: Domain)
      requires !ProcessModelled(contract, boundary) || !PrivilegeModelled(contract, boundary)
      ensures forall state: State :: !state.Exceeds? ==> Justified(contract, boundary, Finding(state, code, domain))
    {
      hide ProcessModelled, PrivilegeModelled, FilesModelled, NetModelled;
    }

    method CheckPrivilege()
      requires Valid()
      modifies this
      ensures Valid() && old(findings) <= findings
      ensures findings == old(findings) ==> ContainedIn(contract, boundary, Privilege)
      ensures unsupported == old(unsupported) + PrivilegeCodes(contract, boundary)
    {
      hide Valid, Justified, OWN_CODES, Codes, Domains, UnknownCodes, AllJustified, Modelled;
      Owned();
      var privilege, maximum := contract.privilege, boundary.privilege;
      if privilege.escalation.None? {
        Undecided(PRIVILEGE_UNKNOWN, Privilege);
        Fail(Inconclusive, PRIVILEGE_UNKNOWN, Privilege);
      } else if privilege.escalation.value && maximum.escalation != Some(true) {
        NeedIsExcess(Escalate, "privilege_escalation_exceeds_boundary", Privilege);
        Fail(Exceeds, "privilege_escalation_exceeds_boundary", Privilege);
      }
      if maximum.requiredEuid.Some? && privilege.requiredEuid != maximum.requiredEuid {
        if privilege.requiredEuid.None? {
          Undecided(UID_UNPROVEN, Privilege);
          Fail(Inconclusive, UID_UNPROVEN, Privilege);
        } else {
          NeedIsExcess(RunAs(privilege.requiredEuid.value), UID_UNPROVEN, Privilege);
          Fail(Exceeds, UID_UNPROVEN, Privilege);
        }
      }
    }

    /** The first of the worst findings. */
    method Worst() returns (f: Finding)
      requires findings != []
      ensures forall i :: 0 <= i < |findings| ==> Priority(findings[i].state) <= Priority(f.state)
      ensures exists k :: 0 <= k < |findings| && findings[k] == f &&
                          forall i :: 0 <= i < k ==> Priority(findings[i].state) < Priority(f.state)
    {
      f := findings[0];
      ghost var k := 0;
      for i := 1 to |findings|
        invariant 0 <= k < i && findings[k] == f
        invariant forall j :: 0 <= j < i ==> Priority(findings[j].state) <= Priority(f.state)
        invariant forall j :: 0 <= j < k ==> Priority(findings[j].state) < Priority(f.state)
      {
        if Priority(findings[i].state) > Priority(f.state) { f, k := findings[i], i; }
      }
    }

    /**
      The verdict. `WithinBoundary` is sound. An excess is real unless the boundary splits a
      directory that the contract needs: a contained contract that is not blocked is said to
      exceed exactly then. The unsupported codes are those the two inputs raise, and no report
      is made when there are too many; unless comparisons may run out, exactly then.
    */
    method Verify() returns (report: Option<Report>)
      requires Valid() && findings == []
      modifies this
      ensures Valid() && Raised(contract, boundary) <= unsupported <= Risked(contract, boundary)
      ensures |Raised(contract, boundary)| > MAX_ITEMS ==> report.None?
      ensures report.None? ==> |Risked(contract, boundary)| > MAX_ITEMS
      ensures NothingHeavy(contract, boundary) ==> (report.None? <==> |Raised(contract, boundary)| > MAX_ITEMS)
      ensures report.Some? ==> report.value.unsupportedFields == unsupported &&
                               report.value.covered == ALL_DOMAINS - uncovered
      ensures report.Some? && report.value.verdict.WithinBoundary? ==>
                Contained(contract, boundary) && !contract.decision.Block? && contract.unknowns == [] &&
                PlacesContained(contract, boundary) && RequestsContained(contract, boundary) &&
                Stated(contract, boundary) && Guaranteed(contract, boundary)
      ensures report.Some? && report.value.verdict.ExceedsBoundary? ==>
                contract.decision.Block? || !Contained(contract, boundary) || HasOverlooked(contract, boundary)
      ensures report.Some? && !contract.decision.Block? && Contained(contract, boundary) ==>
                (report.value.verdict.ExceedsBoundary? <==> HasOverlooked(contract, boundary))
      ensures report.Some? && (report.value.verdict.UnsupportedContract? || report.value.verdict.InconclusiveCheck?) ==>
                !Modelled(contract, boundary)
      ensures Modelled(contract, boundary) ==>
                report.Some? && (report.value.verdict.WithinBoundary? <==>
                                   !contract.decision.Block? && Contained(contract, boundary) &&
                                     !HasOverlooked(contract, boundary))
    {
      hide Valid, Modelled, Contained, HasOverlooked, ALL_DOMAINS, NothingHeavy, Raised, Risked, AnyExceeds;
      CheckAll();
      Booked();
      ModelledCodes();
      CodesDecide();
      var r: Report;
      if findings == [] {
        r := Report(WithinBoundary, "runtime_boundary_within", ALL_DOMAINS - uncovered, None, unsupported);
        if Raised(contract, boundary) == {} && Contained(contract, boundary) {
          WithinEverywhere(contract, boundary);
          if contract.unknowns == [] { AllStated(contract, boundary); }
          if !HasOverlooked(contract, boundary) { AllGuaranteed(contract, boundary); }
        }
      } else {
        var f := Worst();
        FindingMeans(f);
        WorstExceeds(f);
        r := Report(VerdictOf(f.state), f.code, ALL_DOMAINS - uncovered, Some(f.domain), unsupported);
      }
      return if Constructible(r) then Some(r) else None;
    }

    /** All findings, domain by domain. */
    method CheckAll()
      requires Valid() && findings == []
      modifies this
      ensures Valid() && Raised(contract, boundary) <= unsupported <= Risked(contract, boundary)
      ensures findings == [] ==> Contained(contract, boundary) && !contract.decision.Block? && contract.unknowns == []
      ensures HasOverlooked(contract, boundary) ==> findings != [] && AnyExceeds(findings)
    {
      hide Valid, Justified, OWN_CODES, Codes, Domains, UnknownCodes, AllJustified, Modelled, Contained, ContainedIn,
        HasOverlooked, ALL_DOMAINS,
        AllFileCodes, AllSure, AllPossible, ProcessCodes, PrivilegeCodes, AnyExceeds, NothingHeavy;
      Booked();
      if contract.decision.Block? {
        BlockJustified();
        Fail(Exceeds, "runtime_boundary_blocked_decision", Process);
      }
      CheckUnknowns();
      CheckFilesystem();
      ghost var found := findings;
      CheckNetwork();
      CheckTools();
      CheckProcess();
      CheckPrivilege();
      CheckCredentials();
      StillExceeds(found, findings);
      if findings == [] { EveryDomain(); }
    }

    lemma StillExceeds(before: seq<Finding>, after: seq<Finding>)
      requires before <= after
      ensures AnyExceeds(before) ==> after != [] && AnyExceeds(after)
    {
    }

    lemma WorstExceeds(f: Finding)
      requires forall i :: 0 <= i < |findings| ==> Priority(findings[i].state) <= Priority(f.state)
      ensures AnyExceeds(findings) ==> f.state.Exceeds?
    {
    }

    /** How many codes there can be follows from the inputs. */
    lemma CodesDecide()
      requires Raised(contract, boundary) <= unsupported <= Risked(contract, boundary)
      ensures |Raised(contract, boundary)| <= |unsupported| <= |Risked(contract, boundary)|
      ensures NothingHeavy(contract, boundary) ==> |unsupported| == |Raised(contract, boundary)|
    {
      hide Raised, Risked, NothingHeavy;
      SubsetSize(Raised(contract, boundary), unsupported);
      SubsetSize(unsupported, Risked(contract, boundary));
      NothingHeavyIsSure(contract, boundary);
    }

    lemma Booked()
      requires Valid()
      ensures findings == [] ==> unsupported == {} && uncovered == {} && ALL_DOMAINS - uncovered == ALL_DOMAINS
    {
    }

    lemma ModelledCodes()
      requires Valid()
      ensures Modelled(contract, boundary) ==> unsupported == {}
    {
      hide Modelled, Contained, HasOverlooked, OWN_CODES, UnknownCodes, Domains;
    }

    lemma BlockJustified()
      requires contract.decision.Block?
      ensures Justified(contract, boundary, Finding(Exceeds, "runtime_boundary_blocked_decision", Process))
    {
    }

    lemma EveryDomain()
      requires ContainedIn(contract, boundary, Filesystem) && ContainedIn(contract, boundary, Network) &&
               ContainedIn(contract, boundary, Tools)
      requires ContainedIn(contract, boundary, Process) && ContainedIn(contract, boundary, Privilege)
      requires ContainedIn(contract, boundary, Credentials)
      ensures Contained(contract, boundary)
    {
      hide ContainedIn, Contained;
      forall d: Domain ensures ContainedIn(contract, boundary, d) {
        match d case Filesystem => case Network => case Tools => case Process => case Privilege => case Credentials =>
      }
      ContainedByDomain(contract, boundary);
    }

    lemma FindingMeans(f: Finding)
      requires Valid() && f in findings
      ensures if f.state.Exceeds? then contract.decision.Block? || !Contained(contract, boundary) ||
                                       HasOverlooked(contract, boundary)
              else !Modelled(contract, boundary)
    {
      hide Contained, Modelled, HasOverlooked, Codes, Domains, OWN_CODES, UnknownCodes;
      assert Justified(contract, boundary, f);
    }
  }

  lemma {:induction false} SubsetSize(a: set<string>, b: set<string>)
    requires a <= b
    ensures |a| <= |b|
  {
    if a != {} {
      var x :| x in a;
      SubsetSize(a - {x}, b - {x});
    }
  }

  // ----- where the check falls short ----------------------------------------------------------

  lemma ProcessCode()
    ensures |PROCESS_UNKNOWN| > 0 && PROCESS_UNKNOWN[0] == 'r'
  {
    var code := PROCESS_UNKNOWN;
    assert code[0] == 'r';
  }

  function Xs(n: nat): string { seq(n, i => 'x') }

  function Crowd(n: nat): seq<CapabilityUnknown> {
    if n == 0 then [] else Crowd(n - 1) + [CapabilityUnknown(Semantics, Xs(n))]
  }

  lemma {:induction false} CrowdCodes(n: nat)
    ensures |CodesOf(Crowd(n))| == n && forall code :: code in CodesOf(Crowd(n)) ==> 1 <= |code| <= n && code[0] == 'x'
  {
    if n > 0 {
      hide CodesOf;
      CrowdCodes(n - 1);
      OneMoreCode(Crowd(n - 1), CapabilityUnknown(Semantics, Xs(n)));
    } else {
      assert CodesOf([]) == {};
    }
  }

  lemma CrowdedCodes(crowded: Contract, boundary: Boundary)
    requires crowded.unknowns == Crowd(MAX_ITEMS) && crowded.process.execution.None?
    ensures |Raised(crowded, boundary)| > MAX_ITEMS
  {
    hide OWN_CODES, Crowd, CodesOf, AllFileCodes, AllSure, PrivilegeCodes;
    CrowdCodes(MAX_ITEMS);
    ProcessCode();
    assert PROCESS_UNKNOWN !in UnknownCodes(crowded);
    SubsetSize(UnknownCodes(crowded) + {PROCESS_UNKNOWN}, Raised(crowded, boundary));
  }

  /**
    A contract with as many different unknown codes as it may list, and one more open
    question: the check finds one code too many to report, and reports nothing.
  */
  method CrowdedContract(boundary: Boundary, crowded: Contract) returns (report: Option<Report>)
    requires crowded.unknowns == Crowd(MAX_ITEMS) && crowded.process.execution.None?
    ensures report.None?
  {
    hide Modelled, Contained, HasOverlooked, Raised, Risked, NothingHeavy;
    CrowdedCodes(crowded, boundary);
    var verifier := new Verifier(crowded, boundary);
    report := verifier.Verify();
  }

  const NOTHING_RUN := ProcessCapability(Some(false), [], None)
  const NO_PRIVILEGE := PrivilegeCapability(Some(false), None)

  /** Reading a directory and what is below it. */
  function ReadAll(p: string): Contract {
    Contract(Allow, [FilesystemCapability(Read, Some(p), Prefix)], [], [], NOTHING_RUN, NO_PRIVILEGE, [], [])
  }

  /** The same, said in two parts. */
  function ReadInParts(p: string): Boundary {
    Boundary([FilesystemCapability(Read, Some(p), Exact), FilesystemCapability(Read, Some(p + "/"), Prefix)], [], [],
      NOTHING_RUN, NO_PRIVILEGE, [], true, true, false)
  }

  /**
    The directory itself and what is below it may be granted by two maxima, which the check
    does not combine: it reports an excess where there is none.
  */
  method ExcessNotReal(p: string) returns (report: Option<Report>)
    requires SafePath(p) && p[|p| - 1] != '/'
    ensures Contained(ReadAll(p), ReadInParts(p)) && !ReadAll(p).decision.Block?
    ensures report.Some? && report.value.verdict.ExceedsBoundary?
  {
    hide Contained, Modelled, HasOverlooked, NothingHeavy, Raised, Risked, SafePath;
    PartsOverlooked(p);
    PartsContained(p);
    var verifier := new Verifier(ReadAll(p), ReadInParts(p));
    report := verifier.Verify();
  }

  lemma PartsOverlooked(p: string)
    requires SafePath(p) && p[|p| - 1] != '/'
    ensures HasOverlooked(ReadAll(p), ReadInParts(p)) && Modelled(ReadAll(p), ReadInParts(p))
  {
    hide SafePath;
    SafeWithSlash(p);
    PartsSplit(p);
  }

  lemma PartsSplit(p: string)
    requires SafePath(p) && SafePath(p + "/") && p[|p| - 1] != '/'
    ensures Overlooked(ReadAll(p).filesystem[0], ReadInParts(p))
  {
    hide SafePath;
    var c, b := ReadAll(p), ReadInParts(p);
    var below := p + "/";
    assert below[..|below| - 1] == p;
    assert TrimSlashes(below) == TrimSlashes(p) == p;
    assert Unmatching(c.filesystem[0], b.filesystem, true);
    assert b.filesystem[0].scope.Exact? && b.filesystem[1].scope.Prefix? && Read in FileRights(Read);
    assert SplitGrant(c.filesystem[0], b.filesystem);
  }

  lemma PartsContained(p: string)
    requires SafePath(p) && p[|p| - 1] != '/'
    ensures Contained(ReadAll(p), ReadInParts(p))
  {
    hide FileNeeds, FileGrants, SafePath, TrimSlashes;
    PartsOverlooked(p);
    UnmatchedCoveredIff(ReadAll(p).filesystem[0], ReadInParts(p), true);
  }
}

/**
  Proposals after a denial: one requirement that the contract already predicted, narrowed
  to what was denied, and only if the operator's boundary contains the whole request.
*/
module CapabilityDelta {
  import opened Wrappers
  import opened RuntimeCapability
  import opened RuntimeBoundary
  import opened RuntimePlaces
  import opened BoundaryVerifier

  datatype FileOperation = FileRead | FileMetadata | FileWrite | FileDelete | FileExecute | OtherOperation

  /** The part of a trusted denial that names what was refused; missing metadata is `None`. */
  datatype Denied =
    | DeniedFile(operation: FileOperation, deniedPaths: seq<string>)
    | DeniedRequest(host: Option<string>, port: Option<nat>, verb: Option<string>, target: Option<string>,
      binary: Option<string>)
    | DeniedTool(identities: seq<string>)
    | DeniedCredential(bindings: seq<string>, host: Option<string>, port: Option<nat>)
    | DeniedOther

  /**
    A denial as far as a proposal depends on it. Whether the contract is the one derived from
    the review, and whether the denial belongs to the reviewed action, are given; the records
    are those of the review's provenance, oldest first.
  */
  datatype Denial = Denial(contractMatches: bool, actionMatches: bool, provenance: Option<seq<Record>>,
    session: Option<string>, trust: string, outcome: string, denied: Denied)

  /** A provenance record and the session it names, if any. */
  datatype Record = Record(code: string, session: Option<string>)

  const SESSION_REVIEW := "runtime.session.review"

  /** A backend's answers for a requested contract. */
  datatype Backend = Backend(compiled: bool, plan: Option<string>, validated: bool, policyDigest: string)

  predicate Accepts(backend: Backend) {
    backend.compiled && backend.plan == Some(backend.policyDigest) && backend.validated
  }

  /** The sessions of the records that review one. */
  function Sessions(records: seq<Record>): seq<Option<string>> {
    if records == [] then []
    else (if records[0].code == SESSION_REVIEW then [records[0].session] else []) + Sessions(records[1..])
  }

  predicate SessionMatches(denial: Denial) {
    denial.provenance.Some? ==>
      var sessions := Sessions(denial.provenance.value);
      sessions != [] ==> denial.session == sessions[|sessions| - 1]
  }

  /** The last record that reviews a session. */
  predicate IsLastReview(records: seq<Record>, i: nat) {
    i < |records| && records[i].code == SESSION_REVIEW &&
    forall j :: i < j < |records| ==> records[j].code != SESSION_REVIEW
  }

  lemma {:induction false} LastSession(records: seq<Record>) returns (i: nat)
    ensures Sessions(records) == [] ==> forall j :: 0 <= j < |records| ==> records[j].code != SESSION_REVIEW
    ensures Sessions(records) != [] ==>
              IsLastReview(records, i) && records[i].session == Sessions(records)[|Sessions(records)| - 1]
  {
    i := 0;
    if records != [] {
      var rest := records[1..];
      var k := LastSession(rest);
      assert forall j :: 0 < j < |records| ==> records[j] == rest[j - 1];
      if Sessions(rest) != [] { i := k + 1; }
    }
  }

  /** The denial must be of the session that the last session review names; without one, any session will do. */
  lemma SessionMatchesIff(denial: Denial)
    ensures SessionMatches(denial) <==>
            (denial.provenance.Some? ==>
               forall i: nat :: IsLastReview(denial.provenance.value, i) ==>
                 denial.session == denial.provenance.value[i].session)
  {
    if denial.provenance.Some? {
      var i := LastSession(denial.provenance.value);
      hide Sessions;
    }
  }

  predicate Trusted(denial: Denial) { denial.trust == "backend_enforced" && denial.outcome == "denied" }

  datatype Rejection =
    | ContractMismatch | ActionMismatch | SessionMismatch | UntrustedDenial | BlockedAction | Unmodelled
    | BoundaryRejected | BackendRejected | CheckRaised

  const REFINABLE: set<string> := {"runtime_contract_missing_resource", "runtime_contract_malformed_resource",
    "runtime_contract_unknown_protocol"}

  /** What is requested: at most one capability, in the domain of the denial. */
  datatype Narrowed = Narrowed(
    filesystem: seq<FilesystemCapability>, network: seq<NetworkCapability>, tools: seq<ToolCapability>,
    process: ProcessCapability, credentials: seq<CredentialBinding>, domain: Domain)

  const NO_PROCESS: ProcessCapability := ProcessCapability(Some(false), [], None)

  // ----- filesystem ---------------------------------------------------------------------------

  function AccessOf(op: FileOperation): FileAccess {
    match op
    case FileRead => Read
    case FileMetadata => Metadata
    case FileWrite => Write
    case FileDelete => Delete
    case FileExecute => Execute
    case OtherOperation => UnknownAccess
  }

  predicate PredictsFile(c: FilesystemCapability, access: FileAccess, path: string) {
    c.access == access && (c.path.None? || c.path.value == path || (c.scope.Prefix? && Below(c.path.value, path)))
  }

  function NarrowFile(c: Contract, d: Denied): Option<Narrowed>
    requires d.DeniedFile?
  {
    var access := AccessOf(d.operation);
    if |d.deniedPaths| != 1 || access.UnknownAccess? || !SafePath(d.deniedPaths[0]) then None
    else if !exists i :: 0 <= i < |c.filesystem| && PredictsFile(c.filesystem[i], access, d.deniedPaths[0]) then None
    else Some(Narrowed([FilesystemCapability(access, Some(d.deniedPaths[0]), Exact)], [], [], NO_PROCESS, [],
      Filesystem))
  }

  // ----- network ------------------------------------------------------------------------------

  function VerbAccess(verb: string): NetAccess { if verb in {"GET", "HEAD", "OPTIONS"} then NetRead else NetWrite }

  predicate PredictsRequest(c: NetworkCapability, host: string, port: nat, access: NetAccess, verb: string,
                            target: string) {
    c.host == Some(host) && (c.port.None? || c.port.value == port) &&
      (c.protocol.UnknownProtocol? || c.protocol.Rest?) &&
    (c.netAccess == access || (c.netAccess.NetWrite? && access.NetRead?)) &&
    (c.methods == [] || verb in c.methods) && (c.paths == [] || target in c.paths)
  }

  function NarrowRequest(c: Contract, d: Denied): Option<Narrowed>
    requires d.DeniedRequest?
  {
    if d.host.None? || d.port.None? || d.verb.None? || d.target.None? then None
    else
      var access := VerbAccess(d.verb.value);
      if !exists i :: 0 <= i < |c.network| &&
                      PredictsRequest(c.network[i], d.host.value, d.port.value, access, d.verb.value, d.target.value)
      then None
      else
        var request := NetworkCapability(d.host, d.port, Rest, access, [d.verb.value], [d.target.value], None);
        if c.process.execution != Some(true) then Some(Narrowed([], [request], [], NO_PROCESS, [], Network))
        else if d.binary.None? || d.binary.value !in c.process.executables || !SafePath(d.binary.value) then None
        else
          Some(Narrowed([], [request], [], ProcessCapability(Some(true), [d.binary.value], c.process.spawnChildren),
            [], Network))
  }

  // ----- tools and credentials ----------------------------------------------------------------

  function Identity(t: ToolCapability): string {
    t.runtime + ":" + (if t.server.Some? then t.server.value else "") + ":" + t.tool
  }

  function MatchingTools(tools: seq<ToolCapability>, identities: seq<string>): (r: seq<ToolCapability>)
    ensures forall t :: t in r ==> t in tools
  {
    if tools == [] then []
    else (if identities == [Identity(tools[0])] then [tools[0]] else []) + MatchingTools(tools[1..], identities)
  }

  function MatchingCredentials(cs: seq<CredentialBinding>, d: Denied): (r: seq<CredentialBinding>)
    requires d.DeniedCredential?
    ensures forall c :: c in r ==> c in cs
  {
    if cs == [] then []
    else
      (if d.bindings == [cs[0].binding] && d.host == Some(cs[0].credentialHost) &&
        d.port == Some(cs[0].credentialPort) then [cs[0]] else []) +
      MatchingCredentials(cs[1..], d)
  }

  function Narrow(c: Contract, d: Denied): Option<Narrowed> {
    match d
    case DeniedFile(_, _) => NarrowFile(c, d)
    case DeniedRequest(_, _, _, _, _) => NarrowRequest(c, d)
    case DeniedTool(identities) =>
      var matches := MatchingTools(c.tools, identities);
      if |matches| == 1 then Some(Narrowed([], [], matches, NO_PROCESS, [], Tools)) else None
    case DeniedCredential(_, _, _) =>
      var matches := MatchingCredentials(c.credentials, d);
      if |matches| == 1 then Some(Narrowed([], [], [], NO_PROCESS, matches, Credentials)) else None
    case DeniedOther => None
  }

  predicate Refined(u: CapabilityUnknown, domain: Domain) { u.about == In(domain) && u.reasonCode in REFINABLE }

  /** Unknowns stay, except refinable ones of the denied domain. */
  function Kept(us: seq<CapabilityUnknown>, domain: Domain): (r: seq<CapabilityUnknown>)
    ensures forall u :: u in r <==> u in us && !Refined(u, domain)
  {
    if us == [] then [] else (if Refined(us[0], domain) then [] else [us[0]]) + Kept(us[1..], domain)
  }

  function Requested(c: Contract, n: Narrowed): Contract {
    c.(filesystem := n.filesystem, network := n.network, tools := n.tools, process := n.process,
      credentials := n.credentials, unknowns := Kept(c.unknowns, n.domain))
  }

  // ----- narrowing ----------------------------------------------------------------------------

  /** Contracts derived from a review bind no tool to their network requirements. */
  predicate WithoutToolIdentities(c: Contract) { forall i :: 0 <= i < |c.network| ==> c.network[i].toolIdentity.None? }

  /** Nothing is requested that the contract did not already need. */
  ghost predicate NarrowerThan(requested: Contract, c: Contract) { forall a :: Needs(requested, a) ==> Needs(c, a) }

  lemma FileNarrower(c: Contract, n: Narrowed, d: Denied)
    requires d.DeniedFile? && NarrowFile(c, d) == Some(n)
    ensures NarrowerThan(Requested(c, n), c)
  {
    hide SafePath, Below, Kept;
    var access, path := AccessOf(d.operation), d.deniedPaths[0];
    var i :| 0 <= i < |c.filesystem| && PredictsFile(c.filesystem[i], access, path);
    forall a | Needs(Requested(c, n), a) ensures Needs(c, a) {
      match a
      case File(right, q) => assert FileNeeds(c.filesystem[i], right, q);
      case _ =>
    }
  }

  lemma RequestNarrower(c: Contract, n: Narrowed, d: Denied)
    requires d.DeniedRequest? && NarrowRequest(c, d) == Some(n) && WithoutToolIdentities(c)
    ensures NarrowerThan(Requested(c, n), c)
  {
    hide SafePath, Kept;
    var access := VerbAccess(d.verb.value);
    var i :| 0 <= i < |c.network| &&
             PredictsRequest(c.network[i], d.host.value, d.port.value, access, d.verb.value, d.target.value);
    forall a | Needs(Requested(c, n), a) ensures Needs(c, a) {
      match a
      case Net(host, port, right, tool, channel) => assert NetNeeds(c.network[i], host, port, right, tool, channel);
      case _ =>
    }
  }

  lemma ProposalNarrower(c: Contract, n: Narrowed, d: Denied)
    requires Narrow(c, d) == Some(n) && WithoutToolIdentities(c)
    ensures NarrowerThan(Requested(c, n), c)
  {
    match d
    case DeniedFile(_, _) => FileNarrower(c, n, d);
    case DeniedRequest(_, _, _, _, _) => RequestNarrower(c, n, d);
    case _ => hide Kept, MatchingTools, MatchingCredentials;
  }

  /** What an operation on a file does. */
  function RightsOf(op: FileOperation): set<FileAccess> {
    match op
    case FileRead => {Read, Metadata}
    case FileMetadata => {Metadata}
    case FileWrite => {Write}
    case FileDelete => {Delete}
    case FileExecute => {Execute}
    case OtherOperation => {}
  }

  /** The access was denied, and the contract has the tool or the credential that it uses. */
  predicate WasDenied(c: Contract, d: Denied, a: Access) {
    match d
    case DeniedFile(op, paths) => a.File? && a.right in RightsOf(op) && paths == [a.filePath]
    case DeniedRequest(host, port, verb, target, binary) =>
      (a.Net? && host == Some(a.endHost) && port == Some(a.endPort) && a.asTool.None? && a.channel.Request? &&
       verb == Some(a.channel.verb) && target == Some(a.channel.target) &&
       (a.netRight.NetRead? || (a.netRight.NetWrite? && verb !in {Some("GET"), Some("HEAD"), Some("OPTIONS")}))) ||
      (a.Exec? && c.process.execution == Some(true) && binary == Some(a.executable))
    case DeniedTool(identities) => a.UseTool? && a.used in c.tools && identities == [Identity(a.used)]
    case DeniedCredential(bindings, host, port) =>
      a.UseCredential? && a.credential in c.credentials && bindings == [a.credential.binding] &&
      host == Some(a.credential.credentialHost) && port == Some(a.credential.credentialPort)
    case DeniedOther => false
  }

  lemma {:induction false} ToolsMatch(tools: seq<ToolCapability>, identities: seq<string>, t: ToolCapability)
    ensures t in MatchingTools(tools, identities) <==> t in tools && identities == [Identity(t)]
  {
    hide Identity;
    if tools != [] {
      ToolsMatch(tools[1..], identities, t);
      assert tools == [tools[0]] + tools[1..];
    }
  }

  lemma {:induction false} CredentialsMatch(cs: seq<CredentialBinding>, d: Denied, b: CredentialBinding)
    requires d.DeniedCredential?
    ensures b in MatchingCredentials(cs, d) <==>
            b in cs && d.bindings == [b.binding] && d.host == Some(b.credentialHost) && d.port == Some(b.credentialPort)
  {
    if cs != [] {
      CredentialsMatch(cs[1..], d, b);
      assert cs == [cs[0]] + cs[1..];
    }
  }

  /** What is requested is what was denied, apart from children of a process and the privilege the contract has. */
  lemma RequestIsDenied(c: Contract, n: Narrowed, d: Denied)
    requires Narrow(c, d) == Some(n)
    ensures forall a: Access :: !a.Spawn? && DomainOf(a) != Privilege ==>
            (Needs(Requested(c, n), a) <==> WasDenied(c, d, a))
    ensures forall a :: DomainOf(a) == Privilege ==> (Needs(Requested(c, n), a) <==> Needs(c, a))
    ensures d.DeniedFile? ==> |d.deniedPaths| == 1
  {
    match d
    case DeniedFile(_, _) => FileIsDenied(c, n, d);
    case DeniedRequest(_, _, _, _, _) => RequestDenied(c, n, d);
    case DeniedTool(identities) =>
      hide MatchingTools, Kept, Identity;
      forall t ensures t in n.tools <==> t in c.tools && identities == [Identity(t)] {
        ToolsMatch(c.tools, identities, t);
      }
    case DeniedCredential(_, _, _) =>
      hide MatchingCredentials, Kept;
      forall b ensures b in n.credentials <==> b in c.credentials && d.bindings == [b.binding] &&
                                               d.host == Some(b.credentialHost) && d.port == Some(b.credentialPort) {
        CredentialsMatch(c.credentials, d, b);
      }
  }

  lemma FileIsDenied(c: Contract, n: Narrowed, d: Denied)
    requires d.DeniedFile? && NarrowFile(c, d) == Some(n)
    ensures forall a: Access :: !a.Spawn? && DomainOf(a) != Privilege ==>
            (Needs(Requested(c, n), a) <==> WasDenied(c, d, a))
    ensures forall a :: DomainOf(a) == Privilege ==> (Needs(Requested(c, n), a) <==> Needs(c, a))
    ensures |d.deniedPaths| == 1
  {
    hide SafePath, Kept, PredictsFile;
    var requested := Requested(c, n);
    assert requested.filesystem[0] == FilesystemCapability(AccessOf(d.operation), Some(d.deniedPaths[0]), Exact);
    forall a: Access | a.File? ensures Needs(requested, a) <==> WasDenied(c, d, a) {
      assert Needs(requested, a) <==> FileNeeds(requested.filesystem[0], a.right, a.filePath);
    }
  }

  lemma RequestDenied(c: Contract, n: Narrowed, d: Denied)
    requires d.DeniedRequest? && NarrowRequest(c, d) == Some(n)
    ensures forall a: Access :: !a.Spawn? && DomainOf(a) != Privilege ==>
            (Needs(Requested(c, n), a) <==> WasDenied(c, d, a))
    ensures forall a :: DomainOf(a) == Privilege ==> (Needs(Requested(c, n), a) <==> Needs(c, a))
  {
    hide SafePath, Kept, PredictsRequest;
    var requested := Requested(c, n);
    forall a: Access | a.Net? ensures Needs(requested, a) <==> WasDenied(c, d, a) {
      assert Needs(requested, a) <==>
             NetNeeds(requested.network[0], a.endHost, a.endPort, a.netRight, a.asTool, a.channel);
    }
  }

  /**
    A denied file operation can be requested exactly if it names one safe path that the contract
    reaches with that access.
  */
  lemma FileRequestIff(c: Contract, d: Denied)
    requires d.DeniedFile?
    ensures Narrow(c, d).Some? <==>
            |d.deniedPaths| == 1 && !d.operation.OtherOperation? && SafePath(d.deniedPaths[0]) &&
            exists f :: f in c.filesystem && f.access == AccessOf(d.operation) &&
                        (f.path.None? || CoversPath(f, d.deniedPaths[0]))
  {
    hide SafePath, Below;
    if Narrow(c, d).Some? {
      var i :| 0 <= i < |c.filesystem| && PredictsFile(c.filesystem[i], AccessOf(d.operation), d.deniedPaths[0]);
      assert c.filesystem[i] in c.filesystem;
    }
    if exists f :: f in c.filesystem && |d.deniedPaths| == 1 && f.access == AccessOf(d.operation) &&
                   (f.path.None? || CoversPath(f, d.deniedPaths[0])) {
      var f :| f in c.filesystem && |d.deniedPaths| == 1 && f.access == AccessOf(d.operation) &&
               (f.path.None? || CoversPath(f, d.deniedPaths[0]));
      assert PredictsFile(f, AccessOf(d.operation), d.deniedPaths[0]);
    }
  }

  /** The contract reaches this peer with this request, read as a request where it does not say what it speaks. */
  ghost predicate NeedsRequest(n: NetworkCapability, host: string, port: nat, verb: string, target: string) {
    n.host.Some? && (n.protocol.Rest? || n.protocol.UnknownProtocol?) && !n.netAccess.NetUnknown? &&
    NetNeeds(n.(protocol := Rest), host, port, VerbAccess(verb), n.toolIdentity, Request(verb, target))
  }

  /** A denied request can be made exactly if it is stated in full, needed, and made by a known program. */
  lemma NetworkRequestIff(c: Contract, d: Denied)
    requires d.DeniedRequest?
    ensures Narrow(c, d).Some? <==>
            d.host.Some? && d.port.Some? && d.verb.Some? && d.target.Some? &&
            (exists n :: n in c.network && NeedsRequest(n, d.host.value, d.port.value, d.verb.value, d.target.value)) &&
            (c.process.execution == Some(true) ==>
               d.binary.Some? && d.binary.value in c.process.executables && SafePath(d.binary.value))
  {
    hide SafePath;
    if d.host.Some? && d.port.Some? && d.verb.Some? && d.target.Some? {
      var access := VerbAccess(d.verb.value);
      forall i | 0 <= i < |c.network|
        ensures PredictsRequest(c.network[i], d.host.value, d.port.value, access, d.verb.value, d.target.value) <==>
                NeedsRequest(c.network[i], d.host.value, d.port.value, d.verb.value, d.target.value)
      {
      }
      hide PredictsRequest, NeedsRequest;
      if exists n :: n in c.network && NeedsRequest(n, d.host.value, d.port.value, d.verb.value, d.target.value) {
        var n :| n in c.network && NeedsRequest(n, d.host.value, d.port.value, d.verb.value, d.target.value);
        var i :| 0 <= i < |c.network| && c.network[i] == n;
      }
      forall i | 0 <= i < |c.network| ensures c.network[i] in c.network {}
    }
  }

  /** Unknowns that are dropped are refinable and concern the denied domain; the decision stays. */
  lemma KeptUnknowns(c: Contract, n: Narrowed)
    ensures Requested(c, n).decision == c.decision && Requested(c, n).privilege == c.privilege
    ensures forall u :: u in c.unknowns && u !in Requested(c, n).unknowns ==>
            u.about == In(n.domain) && u.reasonCode in REFINABLE
    ensures forall u :: u in Requested(c, n).unknowns ==> u in c.unknowns
  {
    hide REFINABLE;
  }

  /** What is wrong with a denial before the boundary is asked. */
  function Objection(c: Contract, denial: Denial): Option<Rejection> {
    if !denial.contractMatches then Some(ContractMismatch)
    else if !denial.actionMatches then Some(ActionMismatch)
    else if !SessionMatches(denial) then Some(SessionMismatch)
    else if !Trusted(denial) then Some(UntrustedDenial)
    else if c.decision.Block? then Some(BlockedAction)
    else if Narrow(c, denial.denied).None? then Some(Unmodelled)
    else None
  }

  /**
    A proposal is a double narrowing: everything it requests was already needed by the
    contract and is granted by the boundary. It can only be made when every unknown of the
    contract is one that this denial refines. Where the boundary check can model the request,
    a proposal without objection is made exactly when the request is contained, no split
    grant is overlooked and the backend accepts.
  */
  method Propose(c: Contract, denial: Denial, boundary: Boundary, backend: Option<Backend>)
    returns (r: Result<Contract, Rejection>)
    requires denial.contractMatches ==> WithoutToolIdentities(c)
    ensures Objection(c, denial).Some? ==> r == Err(Objection(c, denial).value)
    ensures r.Ok? ==> NarrowerThan(r.value, c) && Contained(r.value, boundary) &&
                      PlacesContained(r.value, boundary) && RequestsContained(r.value, boundary)
    ensures r.Ok? ==> denial.contractMatches && denial.actionMatches && SessionMatches(denial) && !c.decision.Block?
    ensures r.Ok? ==> denial.trust == "backend_enforced" && denial.outcome == "denied"
    ensures r.Ok? ==> r.value.decision == c.decision && r.value.unknowns == []
    ensures r.Ok? ==> Narrow(c, denial.denied).Some? && r.value == Requested(c, Narrow(c, denial.denied).value)
    ensures r.Ok? ==> forall u :: u in c.unknowns ==> Refined(u, Narrow(c, denial.denied).value.domain)
    ensures r.Ok? && backend.Some? ==>
              backend.value.compiled && backend.value.plan == Some(backend.value.policyDigest) &&
              backend.value.validated
    ensures Objection(c, denial).None? ==>
              var requested := Requested(c, Narrow(c, denial.denied).value);
              Modelled(requested, boundary) ==>
                (r.Ok? <==> Contained(requested, boundary) && !HasOverlooked(requested, boundary) &&
                            (backend.Some? ==> Accepts(backend.value)))
  {
    hide NarrowerThan, Contained, Modelled, Kept, Narrow, Refined, OWN_CODES, HasOverlooked, Raised, Risked,
      NothingHeavy, SessionMatches, PlacesContained, RequestsContained;
    if !denial.contractMatches { return Err(ContractMismatch); }
    if !denial.actionMatches { return Err(ActionMismatch); }
    if !SessionMatches(denial) { return Err(SessionMismatch); }
    if !Trusted(denial) { return Err(UntrustedDenial); }
    if c.decision.Block? { return Err(BlockedAction); }
    var n := Narrow(c, denial.denied);
    if n.None? { return Err(Unmodelled); }
    var requested := Requested(c, n.value);
    var verifier := new Verifier(requested, boundary);
    var report := verifier.Verify();
    if report.None? { return Err(CheckRaised); }
    if !report.value.verdict.WithinBoundary? { return Err(BoundaryRejected); }
    if backend.Some? && !Accepts(backend.value) { return Err(BackendRejected); }
    ProposalNarrower(c, n.value, denial.denied);
    forall u | u in c.unknowns ensures Refined(u, n.value.domain) {
      assert u !in requested.unknowns;
    }
    return Ok(requested);
  }
}

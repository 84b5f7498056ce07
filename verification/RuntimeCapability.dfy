/**
  Runtime capability contracts and boundaries, and what they denote: sets of concrete
  accesses. Where a contract says nothing it may need anything; where a boundary says
  nothing it allows nothing.
*/
module RuntimeCapability {
  import opened Wrappers

  datatype FileAccess = Read | Write | Delete | Metadata | Execute | UnknownAccess

  datatype Scope = Exact | Prefix | UnknownScope

  datatype FilesystemCapability = FilesystemCapability(access: FileAccess, path: Option<string>, scope: Scope)

  datatype NetAccess = NetRead | NetWrite | NetUnknown

  datatype Protocol = Rest | Tcp | OtherProtocol(name: string) | UnknownProtocol

  datatype NetworkCapability = NetworkCapability(
    host: Option<string>, port: Option<nat>, protocol: Protocol, netAccess: NetAccess,
    methods: seq<string>, paths: seq<string>, toolIdentity: Option<string>)

  datatype ToolCapability = ToolCapability(runtime: string, server: Option<string>, tool: string, operation: string)

  datatype ProcessCapability = ProcessCapability(execution: Option<bool>, executables: seq<string>,
    spawnChildren: Option<bool>)

  datatype PrivilegeCapability = PrivilegeCapability(escalation: Option<bool>, requiredEuid: Option<nat>)

  datatype CredentialBinding = CredentialBinding(binding: string, credentialHost: string, credentialPort: nat)

  datatype Domain = Filesystem | Network | Tools | Process | Privilege | Credentials

  /** `semantics` concerns every domain. */
  datatype UnknownDomain = In(domain: Domain) | Semantics

  datatype CapabilityUnknown = CapabilityUnknown(about: UnknownDomain, reasonCode: string)

  datatype Decision = Allow | Warn | Ask | Block

  datatype Contract = Contract(
    decision: Decision, filesystem: seq<FilesystemCapability>, network: seq<NetworkCapability>,
      tools: seq<ToolCapability>,
    process: ProcessCapability, privilege: PrivilegeCapability, credentials: seq<CredentialBinding>,
    unknowns: seq<CapabilityUnknown>)

  datatype Boundary = Boundary(
    filesystem: seq<FilesystemCapability>, network: seq<NetworkCapability>, tools: seq<ToolCapability>,
    process: ProcessCapability, privilege: PrivilegeCapability, credentials: seq<CredentialBinding>,
    lexicalPrefix: bool, filesystemGuarantees: bool, allowAnyExecutable: bool)

  // ----- rights and paths ---------------------------------------------------------------------

  function FileRights(access: FileAccess): set<FileAccess> {
    match access
    case Read => {Read, Metadata}
    case UnknownAccess => {}
    case _ => {access}
  }

  function NetRights(access: NetAccess): set<NetAccess> {
    match access
    case NetRead => {NetRead}
    case NetWrite => {NetRead, NetWrite}
    case NetUnknown => {}
  }

  /**
    An access gives the right it is named after; reading a file also gives its metadata, and writing
    to a peer reading.
  */
  lemma RightsIff(access: FileAccess, right: FileAccess, netAccess: NetAccess, netRight: NetAccess)
    ensures right in FileRights(access) <==>
            !access.UnknownAccess? && (right == access || (access.Read? && right.Metadata?))
    ensures netRight in NetRights(netAccess) <==>
            (netAccess.NetRead? && netRight.NetRead?) || (netAccess.NetWrite? && !netRight.NetUnknown?)
  {
  }

  function TrimSlashes(p: string): (r: string)
    ensures r <= p && (r != [] ==> r[|r| - 1] != '/') && forall i :: |r| <= i < |p| ==> p[i] == '/'
  {
    if p != [] && p[|p| - 1] == '/' then TrimSlashes(p[..|p| - 1]) else p
  }

  /** `q` lies below directory `p`, by segments. */
  predicate Below(p: string, q: string) { TrimSlashes(p) + "/" <= q }

  function Segments(p: string): (r: seq<string>)
    ensures r != []
  {
    if p == [] then [""] else OneMore(p[0], Segments(p[1..]))
  }

  function OneMore(c: char, rest: seq<string>): (r: seq<string>)
    requires rest != []
    ensures r != []
  {
    if c == '/' then [""] + rest else [[c] + rest[0]] + rest[1..]
  }

  /** An unambiguous absolute path: no dot segments, no control or pattern characters. */
  predicate SafePath(p: string) {
    "/" <= p && !("//" <= p) && "." !in Segments(p) && ".." !in Segments(p) &&
    forall i :: 0 <= i < |p| ==> p[i] >= ' ' && p[i] !in {'*', '?', '$', '`', '\\'}
  }

  /** A request path below a terminal pattern; the pattern keeps its slash. */
  predicate RestPathWithin(candidate: string, pattern: string) {
    candidate == pattern || (EndsInPattern(pattern) && pattern[..|pattern| - 2] <= candidate)
  }

  predicate EndsInPattern(p: string) { |p| >= 3 && p[|p| - 3..] == "/**" }

  // ----- concrete accesses --------------------------------------------------------------------

  datatype Channel = Raw | Request(verb: string, target: string)

  datatype Access =
    | File(right: FileAccess, filePath: string)
    | Net(endHost: string, endPort: nat, netRight: NetAccess, asTool: Option<string>, channel: Channel)
    | UseTool(used: ToolCapability)
    | Exec(executable: string)
    | Spawn
    | Escalate
    | RunAs(uid: nat)
    | UseCredential(credential: CredentialBinding)

  /** The paths of a filesystem capability. */
  predicate CoversPath(c: FilesystemCapability, q: string)
    requires c.path.Some?
  {
    q == c.path.value || (c.scope.Prefix? && Below(c.path.value, q))
  }

  predicate FileNeeds(c: FilesystemCapability, right: FileAccess, q: string) {
    (c.access.UnknownAccess? || right in FileRights(c.access)) &&
    (c.path.None? || c.scope.UnknownScope? || CoversPath(c, q))
  }

  predicate FileGrants(m: FilesystemCapability, right: FileAccess, q: string) {
    right in FileRights(m.access) && m.path.Some? && !m.scope.UnknownScope? && CoversPath(m, q)
  }

  predicate NetNeeds(c: NetworkCapability, host: string, port: nat, right: NetAccess, tool: Option<string>,
                     channel: Channel) {
    (c.host.None? || c.host.value == host) && (c.port.None? || c.port.value == port) &&
    (c.netAccess.NetUnknown? || right in NetRights(c.netAccess)) && c.toolIdentity == tool &&
    (c.protocol.Tcp? || c.protocol.OtherProtocol? || c.protocol.UnknownProtocol? ||
     (channel.Request? && (c.methods == [] || channel.verb in c.methods) &&
       (c.paths == [] || channel.target in c.paths)))
  }

  /** TCP without request restrictions covers every request at its endpoint. */
  predicate NetGrants(m: NetworkCapability, host: string, port: nat, right: NetAccess, tool: Option<string>,
                      channel: Channel) {
    m.host == Some(host) && m.port == Some(port) && right in NetRights(m.netAccess) && m.toolIdentity == tool &&
    ((m.protocol.Tcp? && m.methods == [] && m.paths == []) ||
     (m.protocol.Rest? && channel.Request? && channel.verb in m.methods &&
      exists i :: 0 <= i < |m.paths| && RestPathWithin(channel.target, m.paths[i])))
  }

  /** Accesses that an action under this contract may need. */
  predicate Needs(c: Contract, a: Access) {
    match a
    case File(right, q) => exists i :: 0 <= i < |c.filesystem| && FileNeeds(c.filesystem[i], right, q)
    case Net(host, port, right, tool, channel) =>
      exists i :: 0 <= i < |c.network| && NetNeeds(c.network[i], host, port, right, tool, channel)
    case UseTool(tool) => tool in c.tools
    case Exec(p) => c.process.execution != Some(false) && (c.process.executables == [] || p in c.process.executables)
    case Spawn => c.process.execution != Some(false) && c.process.spawnChildren != Some(false)
    case Escalate => c.privilege.escalation != Some(false)
    case RunAs(uid) => c.privilege.requiredEuid.None? || c.privilege.requiredEuid.value == uid
    case UseCredential(credential) => credential in c.credentials
  }

  /** Accesses that the operator's boundary allows. */
  predicate Grants(b: Boundary, a: Access) {
    match a
    case File(right, q) => exists i :: 0 <= i < |b.filesystem| && FileGrants(b.filesystem[i], right, q)
    case Net(host, port, right, tool, channel) =>
      exists i :: 0 <= i < |b.network| && NetGrants(b.network[i], host, port, right, tool, channel)
    case UseTool(tool) => tool in b.tools
    case Exec(p) => b.process.execution == Some(true) && (b.allowAnyExecutable || p in b.process.executables)
    case Spawn => b.process.spawnChildren == Some(true)
    case Escalate => b.privilege.escalation == Some(true)
    case RunAs(uid) => b.privilege.requiredEuid.None? || b.privilege.requiredEuid.value == uid
    case UseCredential(credential) => credential in b.credentials
  }

  function DomainOf(a: Access): Domain {
    match a
    case File(_, _) => Filesystem
    case Net(_, _, _, _, _) => Network
    case UseTool(_) => Tools
    case Exec(_) => Process
    case Spawn => Process
    case Escalate => Privilege
    case RunAs(_) => Privilege
    case UseCredential(_) => Credentials
  }

  ghost predicate ContainedIn(c: Contract, b: Boundary, d: Domain) {
    forall a :: DomainOf(a) == d && Needs(c, a) ==> Grants(b, a)
  }

  ghost predicate Contained(c: Contract, b: Boundary) { forall a :: Needs(c, a) ==> Grants(b, a) }

  lemma ContainedByDomain(c: Contract, b: Boundary)
    requires forall d: Domain :: ContainedIn(c, b, d)
    ensures Contained(c, b)
  {
    hide Needs, Grants;
    forall a | Needs(c, a) ensures Grants(b, a) { assert ContainedIn(c, b, DomainOf(a)); }
  }

  // ----- path lemmas --------------------------------------------------------------------------

  /** A directory below another one has all of its own below it too. */
  lemma BelowTransitive(m: string, p: string, q: string)
    requires Below(m, p) && (q == p || Below(p, q))
    ensures Below(m, q)
  {
    var top, mid := TrimSlashes(m) + "/", TrimSlashes(p) + "/";
    if q != p && |top| > |TrimSlashes(p)| {
      var t := TrimSlashes(m);
      assert forall i :: |TrimSlashes(p)| <= i < |t| ==> t[i] == p[i] == '/';
      assert |t| <= |TrimSlashes(p)|;
      assert t == TrimSlashes(p)[..|t|];
    }
  }

  /** A single new name under `p` is below `m` only if they are the same directory or `p` is below `m` as well. */
  lemma FreshBelow(m: string, p: string, name: string)
    requires '/' !in name && Below(m, TrimSlashes(p) + "/" + name)
    ensures TrimSlashes(m) == TrimSlashes(p) || Below(m, p)
  {
    var t, d := TrimSlashes(m), TrimSlashes(p);
    var q := d + "/" + name;
    assert q[|t|] == (t + "/")[|t|] == '/';
    assert forall i :: |d| < i < |q| ==> q[i] in name;
    if |t| < |d| {
      assert t + "/" == q[..|t| + 1] == d[..|t| + 1] == p[..|t| + 1];
    } else {
      assert t == q[..|t|] == d;
    }
  }

  /** A name longer than every path in the list. */
  function LongName(ms: seq<FilesystemCapability>): (name: string)
    ensures name != [] && '/' !in name && forall i :: 0 <= i < |ms| && ms[i].path.Some? ==> |name| > |ms[i].path.value|
  {
    if ms == [] then "x"
    else
      var more := LongName(ms[1..]);
      assert forall i :: 0 < i < |ms| ==> ms[i] == ms[1..][i - 1];
      if ms[0].path.None? then more
      else
        var pad := seq(|ms[0].path.value|, i => 'x');
        assert forall i :: 0 <= i < |pad| ==> pad[i] == 'x';
        more + pad
  }
}

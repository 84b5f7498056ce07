/**
  The boundary check: a contract within the boundary needs nothing that the boundary does
  not grant. What cannot be decided is reported as unsupported or inconclusive.
*/
module RuntimeBoundary {
  import opened Wrappers
  import opened RuntimeCapability

  datatype State = Exceeds | Unsupported | Inconclusive

  datatype Finding = Finding(state: State, code: string, domain: Domain)

  const MAX_COMPARISONS: nat := 50000
  const MAX_ITEMS: nat := 128

  // ----- filesystem ---------------------------------------------------------------------------

  predicate FileModelled(c: FilesystemCapability) {
    !c.access.UnknownAccess? && c.path.Some? && SafePath(c.path.value) && !c.scope.UnknownScope?
  }

  /** How one maximum relates to a capability. */
  datatype Match = Matched | Unresolved | Unmatched

  function FileMatch(c: FilesystemCapability, m: FilesystemCapability, lexical: bool): Match
    requires FileModelled(c)
  {
    if !FileModelled(m) then Unresolved
    else if !(FileRights(c.access) <= FileRights(m.access)) then Unmatched
    else if m.path == c.path && (m.scope.Prefix? || c.scope.Exact?) then Matched
    else if m.scope.Prefix? && Below(m.path.value, c.path.value) then if lexical then Matched else Unresolved
    else Unmatched
  }

  ghost predicate FileCovered(c: FilesystemCapability, b: Boundary) {
    forall right, q :: FileNeeds(c, right, q) ==> Grants(b, File(right, q))
  }

  /** A matching maximum grants everything the capability needs. */
  lemma MatchCovers(c: FilesystemCapability, b: Boundary, i: nat, lexical: bool)
    requires FileModelled(c) && i < |b.filesystem| && FileMatch(c, b.filesystem[i], lexical) == Matched
    ensures FileCovered(c, b)
  {
    var m := b.filesystem[i];
    forall right, q | FileNeeds(c, right, q) ensures Grants(b, File(right, q)) {
      if m.path != c.path && q != c.path.value { BelowTransitive(m.path.value, c.path.value, q); }
      assert FileGrants(m, right, q);
    }
  }

  predicate Unmatching(c: FilesystemCapability, ms: seq<FilesystemCapability>, lexical: bool)
    requires FileModelled(c)
  {
    forall i :: 0 <= i < |ms| ==> FileMatch(c, ms[i], lexical) == Unmatched
  }

  /** One maximum grants the directory itself and another what is below it. */
  predicate SplitGrant(c: FilesystemCapability, ms: seq<FilesystemCapability>)
    requires c.path.Some?
  {
    c.scope.Prefix? &&
    (exists i :: 0 <= i < |ms| && ms[i].scope.Exact? && c.access in FileRights(ms[i].access) && ms[i].path == c.path) &&
    (exists k :: 0 <= k < |ms| && ms[k].scope.Prefix? && c.access in FileRights(ms[k].access) && ms[k].path.Some? &&
                 TrimSlashes(ms[k].path.value) == TrimSlashes(c.path.value))
  }

  /**
    If no maximum matches and none is in doubt, everything the capability needs is still
    granted exactly when the boundary splits its directory.
  */
  lemma UnmatchedCoveredIff(c: FilesystemCapability, b: Boundary, lexical: bool)
    requires FileModelled(c) && Unmatching(c, b.filesystem, lexical)
    ensures FileCovered(c, b) <==> SplitGrant(c, b.filesystem)
  {
    hide SafePath, TrimSlashes, Segments;
    if FileCovered(c, b) { CoveredIsSplit(c, b, lexical); }
    if SplitGrant(c, b.filesystem) { SplitCovers(c, b); }
  }

  lemma SplitCovers(c: FilesystemCapability, b: Boundary)
    requires !c.access.UnknownAccess? && c.path.Some? && SplitGrant(c, b.filesystem)
    ensures FileCovered(c, b)
  {
    hide TrimSlashes;
    var ms := b.filesystem;
    var i :| 0 <= i < |ms| && ms[i].scope.Exact? && c.access in FileRights(ms[i].access) && ms[i].path == c.path;
    var k :| 0 <= k < |ms| && ms[k].scope.Prefix? && c.access in FileRights(ms[k].access) && ms[k].path.Some? &&
             TrimSlashes(ms[k].path.value) == TrimSlashes(c.path.value);
    PrincipalRight(c, ms[i]);
    PrincipalRight(c, ms[k]);
    forall right, q | FileNeeds(c, right, q) ensures Grants(b, File(right, q)) {
      assert if q == c.path.value then FileGrants(ms[i], right, q) else FileGrants(ms[k], right, q);
    }
  }

  lemma CoveredIsSplit(c: FilesystemCapability, b: Boundary, lexical: bool)
    requires FileModelled(c) && Unmatching(c, b.filesystem, lexical) && FileCovered(c, b)
    ensures SplitGrant(c, b.filesystem)
  {
    hide SafePath, TrimSlashes;
    var ms, p, name := b.filesystem, c.path.value, LongName(b.filesystem);
    var q := TrimSlashes(p) + "/" + name;
    PrincipalRight(c, c);
    assert FileNeeds(c, c.access, p) && Grants(b, File(c.access, p));
    var i :| 0 <= i < |ms| && FileGrants(ms[i], c.access, p);
    PrincipalRight(c, ms[i]);
    assert FileMatch(c, ms[i], lexical) == Unmatched;
    assert FileNeeds(c, c.access, q) && Grants(b, File(c.access, q));
    var k :| 0 <= k < |ms| && FileGrants(ms[k], c.access, q);
    PrincipalRight(c, ms[k]);
    assert FileMatch(c, ms[k], lexical) == Unmatched;
    FreshBelow(ms[k].path.value, p, name);
  }

  /** Having the right a capability is named after means having all of its rights. */
  lemma PrincipalRight(c: FilesystemCapability, m: FilesystemCapability)
    requires !c.access.UnknownAccess?
    ensures c.access in FileRights(c.access)
    ensures c.access in FileRights(m.access) ==> FileRights(c.access) <= FileRights(m.access)
  {
  }

  // ----- network ------------------------------------------------------------------------------

  predicate BlankOrControl(p: string) { exists i :: 0 <= i < |p| && (p[i] <= ' ' || p[i] == 127 as char) }

  predicate Contains(p: string, part: string) { part <= p || (p != [] && Contains(p[1..], part)) }

  function Stars(p: string): nat { if p == [] then 0 else (if p[0] == '*' then 1 else 0) + Stars(p[1..]) }

  // Terminal patterns are replaced by an ordinary segment before the syntax check.
  function WithoutPatterns(p: string): string {
    if p == [] then []
    else if "/**" <= p then "/placeholder" + WithoutPatterns(p[3..])
    else [p[0]] + WithoutPatterns(p[1..])
  }

  predicate RequestPath(p: string, pattern: bool) {
    !BlankOrControl(p) && SafePath(if pattern then WithoutPatterns(p) else p) &&
    !Contains(p, "%") && !Contains(p, "#") && !Contains(p, "?") && !Contains(p, "//") &&
    (Stars(p) == 0 || (pattern && EndsInPattern(p) && Stars(p) == 2))
  }

  // ----- terminal patterns --------------------------------------------------------------------

  /** The directory of a terminal pattern, with its slash. */
  function PatternDir(p: string): string
    requires EndsInPattern(p)
  {
    p[..|p| - 2]
  }

  predicate StrictlyBelow(dir: string, q: string) { dir <= q && |q| > |dir| }

  /**
    A pattern stands for what is strictly below its directory and for the directory with its
    slash. The documentation promises only the former: it is right of every other candidate.
  */
  lemma PatternMatches(p: string, q: string)
    requires EndsInPattern(p)
    ensures RestPathWithin(q, p) <==> q == PatternDir(p) || StrictlyBelow(PatternDir(p), q)
    ensures (RestPathWithin(q, p) <==> StrictlyBelow(PatternDir(p), q)) <==> q != PatternDir(p)
    ensures q == p[..|p| - 3] ==> !RestPathWithin(q, p)
  {
  }

  /** For every pattern a boundary may hold, its directory is a candidate a contract may hold, and it is matched. */
  lemma PatternAdmitsDirectory(p: string)
    requires EndsInPattern(p) && RequestPath(p, true)
    ensures RequestPath(PatternDir(p), false) && RestPathWithin(PatternDir(p), p)
  {
    hide SafePath, Contains, WithoutPatterns;
    var d := PatternDir(p);
    assert p == d + "**" && d[|d| - 1] == '/';
    PatternStars(d);
    PatternReplaced(d);
    SafeAbove(d, "placeholder");
    ContainsMore(d, "**", "%");
    ContainsMore(d, "**", "#");
    ContainsMore(d, "**", "?");
    ContainsMore(d, "**", "//");
  }

  /** A boundary may hold plain targets, and directories of them with two asterisks for what is below. */
  lemma PatternIff(p: string)
    ensures RequestPath(p, true) <==> RequestPath(p, false) || (EndsInPattern(p) && RequestPath(PatternDir(p), false))
  {
    hide SafePath, Contains, WithoutPatterns;
    StarsNone(p);
    if Stars(p) == 0 { NothingReplaced(p); }
    if EndsInPattern(p) {
      var d := PatternDir(p);
      assert p == d + "**" && d[|d| - 1] == '/';
      if RequestPath(p, true) { PatternAdmitsDirectory(p); }
      if RequestPath(d, false) { DirectoryIsPattern(p); }
    }
  }

  lemma {:induction false} NothingReplaced(p: string)
    requires '*' !in p
    ensures WithoutPatterns(p) == p
  {
    if p != [] {
      assert p == [p[0]] + p[1..];
      BeginsWithStar(p);
      NothingReplaced(p[1..]);
    }
  }

  lemma BeginsWithStar(p: string)
    ensures "/**" <= p ==> '*' in p
  {
    assert "/**" <= p ==> "/**"[1] == p[1];
  }

  lemma DirectoryIsPattern(p: string)
    requires EndsInPattern(p) && RequestPath(PatternDir(p), false)
    ensures RequestPath(p, true)
  {
    hide SafePath, Contains, WithoutPatterns;
    var d := PatternDir(p);
    assert p == d + "**" && d[|d| - 1] == '/';
    StarsNone(d);
    StarsAppend(d, "**");
    assert "**"[1..] == "*" && "*"[1..] == "";
    PatternReplaced(d);
    SafeBelow(d, "placeholder");
    forall c: char | c == '%' || c == '#' || c == '?' ensures c in p ==> c in d {}
    ContainsIff(d, '%');
    ContainsIff(p, '%');
    ContainsIff(d, '#');
    ContainsIff(p, '#');
    ContainsIff(d, '?');
    ContainsIff(p, '?');
    assert "%" == ['%'] && "#" == ['#'] && "?" == ['?'];
    NoDoubleSlash(d);
    NoDoubleSlash(p);
    assert forall i :: 0 <= i < |d| ==> p[i] == d[i];
  }

  /** Something with a plain name directly in a safe directory is safe. */
  lemma SafeBelow(d: string, name: string)
    requires d != [] && d[|d| - 1] == '/' && SafePath(d) && name == "placeholder"
    ensures SafePath(d + name)
  {
    hide Segments, Directories;
    SegmentsBelow(d, name);
    SegmentsBelow(d, "");
    PlainSegment();
    NoSegment();
    assert d + "" == d;
    var whole := d + name;
    forall i | 0 <= i < |whole| ensures whole[i] >= ' ' && whole[i] !in {'*', '?', '$', '`', '\\'} {
      if i >= |d| { assert whole[i] == name[i - |d|]; } else { assert whole[i] == d[i]; }
    }
    assert whole[|d|] == 'p' && (|d| >= 2 ==> whole[1] == d[1]);
  }

  lemma NoSegment()
    ensures Segments("") == [""]
  {
  }

  lemma PlainSegment()
    ensures Segments("placeholder") == ["placeholder"]
  {
    OneSegment("placeholder");
  }

  lemma {:induction false} OneSegment(p: string)
    requires '/' !in p
    ensures Segments(p) == [p]
  {
    if p != [] {
      OneSegment(p[1..]);
      assert p == [p[0]] + p[1..];
    }
  }

  /** The documented rule fails of a plain pattern and a plain candidate. */
  lemma SlashIsMatched()
    ensures RequestPath("/a/", false) && RestPathWithin("/a/", "/a/**") && !StrictlyBelow("/a/", "/a/")
  {
    hide SafePath, Contains;
    SlashIsSafe();
    ContainsIff("/a/", '%');
    ContainsIff("/a/", '#');
    ContainsIff("/a/", '?');
    assert "%" == ['%'] && "#" == ['#'] && "?" == ['?'];
    NoDoubleSlash("/a/");
    StarsNone("/a/");
  }

  lemma SlashIsSafe()
    ensures SafePath("/a/")
  {
    var a := "/a/";
    assert a == "/" + ("a/" + "") && a[1..] == "a/" && a[1..][1..] == "/";
    SegmentsBelow("/", "a/");
    SegmentsBelow("a/", "");
    assert "a/"[1..] == "/" && Directories("a/") == OneMore('a', Directories("/"));
    assert "a/" + "" == "a/" && "/" + "a/" == a && Segments("") == [""];
    assert ['a'] + "" == "a" && Directories("a/") == ["a"] && Directories("/") == [""];
    assert Segments("a/") == ["a"] + [""];
    assert Segments(a) == [""] + (["a"] + [""]) && "a"[0] == 'a';
  }

  /** A directory with its slash is safe if something directly in it is. */
  lemma SafeAbove(d: string, name: string)
    requires d != [] && d[|d| - 1] == '/' && SafePath(d + name)
    ensures SafePath(d)
  {
    SegmentsBelow(d, name);
    SegmentsBelow(d, "");
    assert d + "" == d;
    var whole := d + name;
    assert forall i :: 0 <= i < |d| ==> d[i] == whole[i];
    assert |d| >= 2 ==> whole[1] == d[1];
  }

  lemma PatternStars(d: string)
    requires Stars(d + "**") <= 2
    ensures Stars(d) == 0 && '*' !in d
  {
    StarsAppend(d, "**");
    StarsNone(d);
    assert "**"[1..] == "*" && "*"[1..] == "";
  }

  lemma {:induction false} StarsAppend(p: string, q: string)
    ensures Stars(p + q) == Stars(p) + Stars(q)
  {
    if p == [] { assert p + q == q; } else {
      assert (p + q)[1..] == p[1..] + q;
      StarsAppend(p[1..], q);
    }
  }

  lemma {:induction false} StarsNone(p: string)
    ensures Stars(p) == 0 <==> '*' !in p
  {
    if p != [] { StarsNone(p[1..]); assert p == [p[0]] + p[1..]; }
  }

  lemma {:induction false} PatternReplaced(d: string)
    requires d != [] && d[|d| - 1] == '/' && '*' !in d
    ensures WithoutPatterns(d + "**") == d + "placeholder"
  {
    var p := d + "**";
    if |d| == 1 {
      assert p == "/**" && p[3..] == "";
    } else {
      assert p[1] == d[1] != '*';
      assert p[1..] == d[1..] + "**";
      PatternReplaced(d[1..]);
    }
  }

  /** The segments before the last slash. */
  function Directories(d: string): (r: seq<string>)
    requires d != [] && d[|d| - 1] == '/'
    ensures r != []
  {
    if |d| == 1 then [""] else OneMore(d[0], Directories(d[1..]))
  }

  lemma OneMoreSplits(c: char, front: seq<string>, back: seq<string>)
    requires front != []
    ensures OneMore(c, front + back) == OneMore(c, front) + back
  {
    assert (front + back)[1..] == front[1..] + back;
  }

  lemma {:induction false} SegmentsBelow(d: string, name: string)
    requires d != [] && d[|d| - 1] == '/'
    ensures Segments(d + name) == Directories(d) + Segments(name)
  {
    assert (d + name)[1..] == d[1..] + name;
    if |d| == 1 {
      assert d[1..] + name == name;
    } else {
      SegmentsBelow(d[1..], name);
      OneMoreSplits(d[0], Directories(d[1..]), Segments(name));
    }
  }

  lemma {:induction false} SegmentsWithSlash(p: string)
    ensures Segments(p + "/") == Segments(p) + [""]
  {
    if p == [] {
      assert p + "/" == "/" && "/"[1..] == "" && Segments("") == [""];
    } else {
      assert (p + "/")[1..] == p[1..] + "/";
      SegmentsWithSlash(p[1..]);
      OneMoreSplits(p[0], Segments(p[1..]), [""]);
    }
  }

  lemma SafeWithSlash(p: string)
    requires SafePath(p) && p[|p| - 1] != '/'
    ensures SafePath(p + "/")
  {
    SegmentsWithSlash(p);
    assert p + "/" == p + ['/'] && |p| >= 2;
    assert (p + "/")[1] == p[1];
  }

  predicate NoEmptySegment(p: string) { forall i :: 0 <= i < |p| - 1 ==> !(p[i] == '/' && p[i + 1] == '/') }

  lemma {:induction false} ContainsIff(p: string, c: char)
    ensures Contains(p, [c]) <==> c in p
  {
    if p != [] {
      ContainsIff(p[1..], c);
      assert p == [p[0]] + p[1..];
      assert [c] <= p <==> p[0] == c;
    }
  }

  lemma {:induction false} NoDoubleSlash(p: string)
    ensures Contains(p, "//") <==> !NoEmptySegment(p)
  {
    if p != [] {
      NoDoubleSlash(p[1..]);
      assert "//" <= p <==> |p| > 1 && p[0] == '/' && p[1] == '/';
      assert forall i :: 0 <= i < |p[1..]| ==> p[1..][i] == p[i + 1];
      if !NoEmptySegment(p) {
        var i :| 0 <= i < |p| - 1 && p[i] == '/' && p[i + 1] == '/';
        if i > 0 { assert p[1..][i - 1] == '/' && p[1..][i] == '/'; }
      }
      if !NoEmptySegment(p[1..]) {
        var i :| 0 <= i < |p[1..]| - 1 && p[1..][i] == '/' && p[1..][i + 1] == '/';
        assert p[i + 1] == '/' && p[i + 1 + 1] == '/';
      }
    }
  }

  lemma {:induction false} ContainsMore(p: string, q: string, part: string)
    ensures Contains(p, part) ==> Contains(p + q, part)
  {
    if part <= p {
      assert part <= p + q;
    } else if p != [] {
      assert (p + q)[1..] == p[1..] + q;
      ContainsMore(p[1..], q, part);
    }
  }

  // ----- requests -----------------------------------------------------------------------------

  predicate RequestPaths(paths: seq<string>, pattern: bool) {
    forall i :: 0 <= i < |paths| ==> RequestPath(paths[i], pattern)
  }

  predicate AtEndpoint(m: NetworkCapability, c: NetworkCapability) { m.host == c.host && m.port == c.port }

  /** What a maximum at the endpoint contributes: everything, its request grants, doubt, or nothing. */
  datatype Offer = Everything | Requests | Doubt | Nothing

  function OfferOf(c: NetworkCapability, m: NetworkCapability): Offer {
    if m.netAccess.NetUnknown? || m.protocol.UnknownProtocol? then Doubt
    else if !(NetRights(c.netAccess) <= NetRights(m.netAccess)) then Nothing
    else if c.toolIdentity != m.toolIdentity then Nothing
    else if m.protocol.Tcp? then if m.methods == [] && m.paths == [] then Everything else Nothing
    else if c.protocol.Rest? && m.protocol.Rest? then if RequestPaths(m.paths, true) then Requests else Doubt
    else Nothing
  }

  /**
    A maximum leaves doubt exactly if it does not say what it allows, or allows what is asked for by
    request paths of which one is no legal pattern.
  */
  lemma DoubtIff(c: NetworkCapability, m: NetworkCapability)
    ensures OfferOf(c, m) == Doubt <==>
            m.netAccess.NetUnknown? || m.protocol.UnknownProtocol? ||
            (NetRights(c.netAccess) <= NetRights(m.netAccess) && c.toolIdentity == m.toolIdentity &&
             c.protocol.Rest? && m.protocol.Rest? && exists p :: p in m.paths && !RequestPath(p, true))
    ensures OfferOf(c, m) == Requests ==> m.protocol.Rest? && forall p :: p in m.paths ==> RequestPath(p, true)
    ensures OfferOf(c, m) == Everything ==> m.protocol.Tcp? && m.methods == [] && m.paths == []
  {
    hide RequestPath;
  }

  predicate PairCovered(verb: string, target: string, maxima: seq<NetworkCapability>) {
    exists k :: 0 <= k < |maxima| && verb in maxima[k].methods && AllowedBy(target, maxima[k].paths)
  }

  predicate AllowedBy(target: string, paths: seq<string>) {
    exists i :: 0 <= i < |paths| && RestPathWithin(target, paths[i])
  }

  predicate RestModelled(c: NetworkCapability) {
    c.host.Some? && c.port.Some? && !c.netAccess.NetUnknown? && c.protocol.Rest? && c.methods != [] && c.paths != []
  }

  predicate TcpModelled(c: NetworkCapability) {
    c.host.Some? && c.port.Some? && !c.netAccess.NetUnknown? && c.protocol.Tcp?
  }

  ghost predicate NetCovered(c: NetworkCapability, b: Boundary) {
    forall host, port, right, tool, channel :: NetNeeds(c, host, port, right, tool, channel) ==>
      Grants(b, Net(host, port, right, tool, channel))
  }

  ghost predicate NetExceeds(c: NetworkCapability, b: Boundary) {
    exists host, port, right, tool, channel ::
      NetNeeds(c, host, port, right, tool, channel) && !Grants(b, Net(host, port, right, tool, channel))
  }

  /** Everything granted at the endpoint covers requests and raw connections alike. */
  lemma EverythingCovers(c: NetworkCapability, b: Boundary, i: nat)
    requires (RestModelled(c) || TcpModelled(c)) && i < |b.network| && AtEndpoint(b.network[i], c) &&
             OfferOf(c, b.network[i]) == Everything
    ensures NetCovered(c, b)
  {
    forall host, port, right, tool, channel | NetNeeds(c, host, port, right, tool, channel)
      ensures Grants(b, Net(host, port, right, tool, channel))
    {
      assert NetGrants(b.network[i], host, port, right, tool, channel);
    }
  }

  /** Each request may be covered by a different maximum. */
  lemma PairsCover(c: NetworkCapability, b: Boundary, rest: seq<NetworkCapability>)
    requires RestModelled(c)
    requires forall k :: 0 <= k < |rest| ==> rest[k] in b.network && AtEndpoint(rest[k], c) &&
                                             OfferOf(c, rest[k]) == Requests
    requires forall verb, target :: verb in c.methods && target in c.paths ==> PairCovered(verb, target, rest)
    ensures NetCovered(c, b)
  {
    forall host, port, right, tool, channel | NetNeeds(c, host, port, right, tool, channel)
      ensures Grants(b, Net(host, port, right, tool, channel))
    {
      assert PairCovered(channel.verb, channel.target, rest);
      var k :| 0 <= k < |rest| && channel.verb in rest[k].methods && AllowedBy(channel.target, rest[k].paths);
      assert NetGrants(rest[k], host, port, right, tool, channel);
    }
  }

  lemma NetPrincipal(c: NetworkCapability, m: NetworkCapability)
    requires !c.netAccess.NetUnknown?
    ensures c.netAccess in NetRights(c.netAccess)
    ensures c.netAccess in NetRights(m.netAccess) ==> NetRights(c.netAccess) <= NetRights(m.netAccess)
  {
  }

  lemma ChannelExceeds(c: NetworkCapability, b: Boundary, channel: Channel)
    requires c.host.Some? && c.port.Some? && !c.netAccess.NetUnknown?
    requires NetNeeds(c, c.host.value, c.port.value, c.netAccess, c.toolIdentity, channel)
    requires forall i :: 0 <= i < |b.network| && AtEndpoint(b.network[i], c) ==>
               !NetGrants(b.network[i], c.host.value, c.port.value, c.netAccess, c.toolIdentity, channel)
    ensures NetExceeds(c, b)
  {
    assert !Grants(b, Net(c.host.value, c.port.value, c.netAccess, c.toolIdentity, channel));
  }

  /** A maximum at the endpoint that offers nothing, or no grant for this request, does not grant it. */
  lemma NotGranted(c: NetworkCapability, m: NetworkCapability, channel: Channel)
    requires c.host.Some? && c.port.Some? && !c.netAccess.NetUnknown? && AtEndpoint(m, c)
    requires OfferOf(c, m) == Nothing ||
             (OfferOf(c, m) == Requests && channel.Request? &&
               !(channel.verb in m.methods && AllowedBy(channel.target, m.paths)))
    requires channel.Request? ==> c.protocol.Rest?
    ensures !NetGrants(m, c.host.value, c.port.value, c.netAccess, c.toolIdentity, channel)
  {
    NetPrincipal(c, m);
  }

  /** How many allowed paths there are to compare with, each maximum's counted without repetition. */
  function Patterns(maxima: seq<NetworkCapability>): nat {
    if maxima == [] then 0 else |Set(maxima[0].paths)| + Patterns(maxima[1..])
  }

  function Set(s: seq<string>): set<string> { set x | x in s }

  datatype Coverage = AllCovered | SomeUncovered | Exhausted

  /** Compares one request with the maxima until one covers it or the comparisons run out. */
  method CoverPair(verb: string, target: string, maxima: seq<NetworkCapability>, before: nat)
    returns (covered: bool, exhausted: bool, comparisons: nat)
    requires before <= MAX_COMPARISONS
    ensures covered ==> PairCovered(verb, target, maxima)
    ensures !covered && !exhausted ==> !PairCovered(verb, target, maxima)
    ensures exhausted ==> comparisons > MAX_COMPARISONS
    ensures !exhausted ==> comparisons <= MAX_COMPARISONS
    ensures comparisons <= before + Patterns(maxima)
  {
    covered, exhausted, comparisons := false, false, before;
    var k := 0;
    assert maxima[0..] == maxima;
    while k < |maxima|
      invariant k <= |maxima| && before <= comparisons <= MAX_COMPARISONS && !covered && !exhausted
      invariant comparisons + Patterns(maxima[k..]) <= before + Patterns(maxima)
      invariant forall j :: 0 <= j < k ==> !(verb in maxima[j].methods && AllowedBy(target, maxima[j].paths))
    {
      assert maxima[k..][0] == maxima[k] && maxima[k..][1..] == maxima[k + 1..];
      if verb in maxima[k].methods {
        covered, exhausted, comparisons := CompareAll(target, maxima[k].paths, comparisons);
        if covered || exhausted { return; }
      }
      k := k + 1;
    }
  }

  method CompareAll(target: string, paths: seq<string>, before: nat)
    returns (covered: bool, exhausted: bool, comparisons: nat)
    requires before <= MAX_COMPARISONS
    ensures covered ==> AllowedBy(target, paths)
    ensures !covered && !exhausted ==> !AllowedBy(target, paths)
    ensures exhausted ==> comparisons > MAX_COMPARISONS
    ensures !exhausted ==> comparisons <= MAX_COMPARISONS
    ensures before <= comparisons <= before + |Set(paths)|
  {
    comparisons := before;
    var left := Set(paths);
    while left != {}
      invariant left <= Set(paths) && before <= comparisons <= MAX_COMPARISONS &&
                comparisons + |left| <= before + |Set(paths)|
      invariant forall p :: p in paths && p !in left ==> !RestPathWithin(target, p)
      decreases |left|
    {
      var allowed :| allowed in left;
      left := left - {allowed};
      comparisons := comparisons + 1;
      if comparisons > MAX_COMPARISONS { return false, true, comparisons; }
      if RestPathWithin(target, allowed) {
        var i :| 0 <= i < |paths| && paths[i] == allowed;
        return true, false, comparisons;
      }
    }
    return false, false, comparisons;
  }

  lemma PairBudget(comparisons: nat, done: nat, total: nat, patterns: nat)
    requires comparisons <= done * patterns && done <= total
    ensures comparisons <= total * patterns
  {
    assert done * patterns <= total * patterns;
  }

  lemma NextPair(done: nat, patterns: nat)
    ensures done * patterns + patterns == (done + 1) * patterns
  {
  }

  lemma RowDone(rows: nat, width: nat)
    ensures rows * width + width == (rows + 1) * width && rows * width >= 0
  {
  }

  lemma RowsFit(rows: nat, all: nat, width: nat)
    requires rows < all
    ensures rows * width + width <= all * width
  {
    RowDone(rows, width);
    assert (rows + 1) * width <= all * width;
  }

  /** Requests of one method, in any order. */
  method CoverRow(verb: string, paths: set<string>, maxima: seq<NetworkCapability>, before: nat, ghost done: nat)
    returns (result: Coverage, comparisons: nat)
    requires before <= MAX_COMPARISONS && before <= done * Patterns(maxima)
    ensures result.AllCovered? ==> forall target :: target in paths ==> PairCovered(verb, target, maxima)
    ensures result.SomeUncovered? ==> exists target :: target in paths && !PairCovered(verb, target, maxima)
    ensures result.Exhausted? ==> comparisons > MAX_COMPARISONS
    ensures !result.Exhausted? ==> comparisons <= MAX_COMPARISONS
    ensures comparisons <= (done + |paths|) * Patterns(maxima)
  {
    hide PairCovered, Patterns;
    comparisons := before;
    result := AllCovered;
    ghost var n := done;
    var left := paths;
    while left != {}
      invariant left <= paths && n + |left| == done + |paths| && comparisons <= MAX_COMPARISONS &&
                comparisons <= n * Patterns(maxima)
      invariant result.AllCovered? ==> forall target :: target in paths && target !in left ==>
                PairCovered(verb, target, maxima)
      invariant result.SomeUncovered? ==> exists target :: target in paths && !PairCovered(verb, target, maxima)
      invariant !result.Exhausted?
      decreases |left|
    {
      var target :| target in left;
      left := left - {target};
      var covered, exhausted;
      covered, exhausted, comparisons := CoverPair(verb, target, maxima, comparisons);
      NextPair(n, Patterns(maxima));
      n := n + 1;
      if exhausted {
        PairBudget(comparisons, n, done + |paths|, Patterns(maxima));
        return Exhausted, comparisons;
      }
      if !covered { result := SomeUncovered; }
    }
  }

  /**
    Every request of a capability against the maxima; running out is only possible when there is too
    much to compare.
  */
  method CoverPairs(verbs: set<string>, paths: set<string>, maxima: seq<NetworkCapability>) returns (result: Coverage)
    ensures result.AllCovered? ==> forall verb, target :: verb in verbs && target in paths ==>
            PairCovered(verb, target, maxima)
    ensures result.SomeUncovered? ==> exists verb, target :: verb in verbs && target in paths &&
                                                             !PairCovered(verb, target, maxima)
    ensures result.Exhausted? ==> |verbs| * |paths| * Patterns(maxima) > MAX_COMPARISONS
  {
    hide PairCovered, Patterns;
    result := AllCovered;
    var comparisons: nat := 0;
    ghost var rows: nat := 0;
    var left := verbs;
    while left != {}
      invariant left <= verbs && rows + |left| == |verbs| && comparisons <= MAX_COMPARISONS
      invariant comparisons <= (rows * |paths|) * Patterns(maxima)
      invariant result.AllCovered? ==>
                  forall verb, target :: verb in verbs && verb !in left && target in paths ==>
                    PairCovered(verb, target, maxima)
      invariant result.SomeUncovered? ==> exists verb, target :: verb in verbs && target in paths &&
                                                                 !PairCovered(verb, target, maxima)
      invariant !result.Exhausted?
      decreases |left|
    {
      var verb :| verb in left;
      left := left - {verb};
      RowDone(rows, |paths|);
      var row;
      row, comparisons := CoverRow(verb, paths, maxima, comparisons, rows * |paths|);
      RowsFit(rows, |verbs|, |paths|);
      if row.Exhausted? {
        PairBudget(comparisons, rows * |paths| + |paths|, |verbs| * |paths|, Patterns(maxima));
        return Exhausted;
      }
      rows := rows + 1;
      if row.SomeUncovered? { result := SomeUncovered; }
    }
  }
}

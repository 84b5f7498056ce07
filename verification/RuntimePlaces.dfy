/**
  Where paths lead. A path is resolved segment by segment: an empty segment or a dot stays,
  two dots go up. The check compares spellings; what it lets pass are spellings that
  resolution leaves alone, so what it calls contained is contained place by place.
*/
module RuntimePlaces {
  import opened Wrappers
  import opened RuntimeCapability
  import opened RuntimeBoundary

  type Place = seq<string>

  /** One step further from a place. */
  function Step(place: Place, segment: string): Place {
    if segment == "" || segment == "." then place
    else if segment == ".." then if place == [] then [] else place[..|place| - 1]
    else place + [segment]
  }

  function Walk(place: Place, segments: seq<string>): Place
    decreases segments
  {
    if segments == [] then place else Walk(Step(place, segments[0]), segments[1..])
  }

  /** The place an absolute path leads to. */
  function PlaceOf(path: string): Place { Walk([], Segments(path)) }

  /** The segments that name something. */
  function Named(segments: seq<string>): (r: seq<string>) {
    if segments == [] then [] else (if segments[0] == "" then [] else [segments[0]]) + Named(segments[1..])
  }

  function JoinPath(segments: seq<string>): string {
    if segments == [] then "" else if |segments| == 1 then segments[0] else segments[0] + "/" + JoinPath(segments[1..])
  }

  /** The segments are what stands between the slashes. */
  lemma {:induction false} SegmentsJoin(p: string)
    ensures JoinPath(Segments(p)) == p && forall i :: 0 <= i < |Segments(p)| ==> '/' !in Segments(p)[i]
  {
    if p != [] {
      var rest := Segments(p[1..]);
      SegmentsJoin(p[1..]);
      assert p == [p[0]] + p[1..];
      if p[0] == '/' {
        assert ([""] + rest)[1..] == rest && "" + "/" + JoinPath(rest) == ['/'] + JoinPath(rest);
      } else {
        JoinLonger(p[0], rest);
      }
    }
  }

  lemma JoinLonger(c: char, rest: seq<string>)
    requires rest != []
    ensures JoinPath([[c] + rest[0]] + rest[1..]) == [c] + JoinPath(rest)
  {
    var r := [[c] + rest[0]] + rest[1..];
    assert r[0] == [c] + rest[0] && r[1..] == rest[1..];
    assert [c] + rest[0] + "/" + JoinPath(rest[1..]) == [c] + (rest[0] + "/" + JoinPath(rest[1..]));
  }

  // ----- the guard ----------------------------------------------------------------------------

  predicate Dotted(segments: seq<string>) { "." in segments || ".." in segments }

  /** Walking never goes further than there are named segments, and less far if there are dots. */
  lemma {:induction false} WalkLength(place: Place, segments: seq<string>)
    ensures |Walk(place, segments)| <= |place| + |Named(segments)|
    ensures Dotted(segments) ==> |Walk(place, segments)| < |place| + |Named(segments)|
    ensures !Dotted(segments) ==> Walk(place, segments) == place + Named(segments)
    decreases segments
  {
    if segments == [] {
      assert place + Named(segments) == place;
    } else {
      assert segments == [segments[0]] + segments[1..];
      WalkLength(Step(place, segments[0]), segments[1..]);
    }
  }

  predicate Refused(c: char) { c < ' ' || c in {'*', '?', '$', '`', '\\'} }

  /**
    A path passes exactly if it is absolute, has none of the refused characters, and leads to
    the place that its named segments spell.
  */
  lemma SafePathIff(p: string)
    ensures SafePath(p) <==>
            |p| > 0 && p[0] == '/' && !(|p| > 1 && p[1] == '/') && (forall i :: 0 <= i < |p| ==> !Refused(p[i])) &&
            PlaceOf(p) == Named(Segments(p))
  {
    hide Segments, Walk, Named;
    WalkLength([], Segments(p));
    assert [] + Named(Segments(p)) == Named(Segments(p));
    assert "/" <= p <==> |p| > 0 && p[0] == '/';
    assert "//" <= p <==> |p| > 1 && p[0] == '/' && p[1] == '/';
  }

  // ----- containment place by place -----------------------------------------------------------

  /** A capability reaches its place, or everything at or under it. */
  predicate Reaches(c: FilesystemCapability, at: Place)
    requires c.path.Some?
  {
    at == PlaceOf(c.path.value) || (c.scope.Prefix? && PlaceOf(c.path.value) <= at)
  }

  predicate NeedsAt(c: FilesystemCapability, right: FileAccess, at: Place) {
    (c.access.UnknownAccess? || right in FileRights(c.access)) &&
    (c.path.None? || c.scope.UnknownScope? || Reaches(c, at))
  }

  predicate GrantsAt(m: FilesystemCapability, right: FileAccess, at: Place) {
    right in FileRights(m.access) && m.path.Some? && !m.scope.UnknownScope? && Reaches(m, at)
  }

  ghost predicate GrantedAt(b: Boundary, right: FileAccess, at: Place) {
    exists k :: 0 <= k < |b.filesystem| && GrantsAt(b.filesystem[k], right, at)
  }

  /** Every place that the capability may need to reach is one that the boundary grants. */
  ghost predicate PlacesCovered(c: FilesystemCapability, b: Boundary) {
    forall right, at :: NeedsAt(c, right, at) ==> GrantedAt(b, right, at)
  }

  ghost predicate PlacesContained(c: Contract, b: Boundary) {
    forall i :: 0 <= i < |c.filesystem| ==> PlacesCovered(c.filesystem[i], b)
  }

  lemma {:induction false} NamedBoth(a: seq<string>, b: seq<string>)
    ensures Named(a + b) == Named(a) + Named(b)
  {
    if a == [] {
      assert a + b == b;
    } else {
      assert (a + b)[1..] == a[1..] + b;
      NamedBoth(a[1..], b);
    }
  }

  /** Slashes at the end name nothing. */
  lemma {:induction false} TrimmedNamed(p: string)
    ensures Named(Segments(TrimSlashes(p))) == Named(Segments(p))
  {
    if p != [] && p[|p| - 1] == '/' {
      var front := p[..|p| - 1];
      assert p == front + "/";
      TrimmedNamed(front);
      SegmentsWithSlash(front);
      NamedBoth(Segments(front), [""]);
    }
  }

  /** A spelling below a directory names what the directory names, and more. */
  lemma BelowNamed(m: string, p: string)
    requires Below(m, p)
    ensures Named(Segments(m)) <= Named(Segments(p))
  {
    var dir := TrimSlashes(m) + "/";
    var rest := p[|dir|..];
    assert p == dir + rest && dir + "" == dir;
    TrimmedNamed(m);
    SegmentsBelow(dir, rest);
    SegmentsBelow(dir, "");
    SegmentsWithSlash(TrimSlashes(m));
    hide Segments, Named, Directories, TrimSlashes;
    NamedBoth(Directories(dir), Segments(rest));
    assert Directories(dir) + [""] == Segments(TrimSlashes(m)) + [""];
    assert Directories(dir) == (Directories(dir) + [""])[..|Directories(dir)|];
  }

  lemma SafeLeads(c: FilesystemCapability)
    requires FileModelled(c)
    ensures PlaceOf(c.path.value) == Named(Segments(c.path.value))
  {
    SafePathIff(c.path.value);
  }

  /** The maximum has the right and reaches at least as far, however its path is spelt. */
  predicate ReachesAll(m: FilesystemCapability, c: FilesystemCapability)
    requires c.path.Some?
  {
    c.access in FileRights(m.access) && m.path.Some? &&
    match m.scope
    case Prefix => PlaceOf(m.path.value) <= PlaceOf(c.path.value)
    case Exact => c.scope.Exact? && PlaceOf(m.path.value) == PlaceOf(c.path.value)
    case UnknownScope => false
  }

  /** A segment that no path of the list ends in. */
  function NewSegment(ms: seq<FilesystemCapability>): (name: string)
    ensures forall k :: 0 <= k < |ms| && ms[k].path.Some? ==>
              forall i :: 0 <= i < |PlaceOf(ms[k].path.value)| ==> |PlaceOf(ms[k].path.value)[i]| < |name|
  {
    if ms == [] then "x"
    else
      var more := NewSegment(ms[1..]);
      assert forall k :: 0 < k < |ms| ==> ms[k] == ms[1..][k - 1];
      if ms[0].path.None? then more else more + Longer(PlaceOf(ms[0].path.value))
  }

  function Longer(place: Place): (name: string)
    ensures forall i :: 0 <= i < |place| ==> |place[i]| < |name|
  {
    if place == [] then "x" else Longer(place[1..]) + place[0] + "x"
  }

  /** The places that a capability needs are granted exactly if one maximum reaches all of them. */
  lemma PlacesCoveredIff(c: FilesystemCapability, b: Boundary)
    requires c.path.Some? && !c.access.UnknownAccess? && !c.scope.UnknownScope?
    ensures PlacesCovered(c, b) <==> exists k :: 0 <= k < |b.filesystem| && ReachesAll(b.filesystem[k], c)
  {
    hide PlaceOf;
    var ms, place := b.filesystem, PlaceOf(c.path.value);
    PrincipalRight(c, c);
    if PlacesCovered(c, b) {
      var name := NewSegment(ms);
      var at := if c.scope.Prefix? then place + [name] else place;
      assert NeedsAt(c, c.access, at) && GrantedAt(b, c.access, at);
      var k :| 0 <= k < |ms| && GrantsAt(ms[k], c.access, at);
      var top := PlaceOf(ms[k].path.value);
      if c.scope.Prefix? {
        assert name in at && name !in top;
      }
      assert ReachesAll(ms[k], c);
    }
    if exists k :: 0 <= k < |ms| && ReachesAll(ms[k], c) {
      var k :| 0 <= k < |ms| && ReachesAll(ms[k], c);
      PrincipalRight(c, ms[k]);
      forall right, at | NeedsAt(c, right, at) ensures GrantedAt(b, right, at) { assert GrantsAt(ms[k], right, at); }
    }
  }

  /** What a maximum spells below its directory, or as its own path, is at or under its place. */
  lemma SpeltUnder(m: FilesystemCapability, p: string)
    requires m.path.Some? && SafePath(p) && CoversPath(m, p)
    ensures PlaceOf(m.path.value) <= PlaceOf(p)
    ensures p != m.path.value ==> m.scope.Prefix?
  {
    hide Segments, Walk, Named;
    SafePathIff(p);
    if p != m.path.value { DirectoryLeads(m.path.value, p); }
  }

  lemma DirectoryLeads(m: string, p: string)
    requires SafePath(p) && Below(m, p)
    ensures PlaceOf(m) == Named(Segments(m)) <= PlaceOf(p)
  {
    SafePathIff(p);
    BelowNamed(m, p);
    TrimmedDots(m);
    BelowDots(m, p);
    hide Segments, Walk, Named, TrimSlashes;
    WalkLength([], Segments(m));
    assert [] + Named(Segments(m)) == Named(Segments(m));
  }

  lemma {:induction false} TrimmedDots(p: string)
    ensures Dotted(Segments(TrimSlashes(p))) <==> Dotted(Segments(p))
  {
    if p != [] && p[|p| - 1] == '/' {
      var front := p[..|p| - 1];
      assert p == front + "/";
      TrimmedDots(front);
      SegmentsWithSlash(front);
    }
  }

  lemma BelowDots(m: string, p: string)
    requires Below(m, p) && !Dotted(Segments(p))
    ensures !Dotted(Segments(TrimSlashes(m)))
  {
    var dir := TrimSlashes(m) + "/";
    var rest := p[|dir|..];
    assert p == dir + rest && dir + "" == dir;
    SegmentsBelow(dir, rest);
    SegmentsBelow(dir, "");
    SegmentsWithSlash(TrimSlashes(m));
    hide Segments, Directories, TrimSlashes;
    assert Directories(dir) + [""] == Segments(TrimSlashes(m)) + [""];
    assert Directories(dir) == (Directories(dir) + [""])[..|Directories(dir)|];
  }

  /** Where every access that is spelt is granted, so is every place that it can mean. */
  lemma CoveredReaches(c: FilesystemCapability, b: Boundary)
    requires FileModelled(c) && FileCovered(c, b)
    ensures PlacesCovered(c, b)
  {
    hide SafePath, PlaceOf, TrimSlashes;
    var ms, p, name := b.filesystem, c.path.value, LongName(b.filesystem);
    var q := if c.scope.Prefix? then TrimSlashes(p) + "/" + name else p;
    PrincipalRight(c, c);
    assert FileNeeds(c, c.access, q) && Grants(b, File(c.access, q));
    var k :| 0 <= k < |ms| && FileGrants(ms[k], c.access, q);
    if c.scope.Prefix? {
      FreshBelow(ms[k].path.value, p, name);
      FreshReaches(ms[k].path.value, p);
    } else {
      SpeltUnder(ms[k], p);
    }
    assert ReachesAll(ms[k], c);
    PlacesCoveredIff(c, b);
  }

  lemma FreshReaches(m: string, p: string)
    requires SafePath(p) && (TrimSlashes(m) == TrimSlashes(p) || Below(m, p))
    ensures PlaceOf(m) <= PlaceOf(p)
  {
    if Below(m, p) {
      DirectoryLeads(m, p);
    } else {
      SafePathIff(p);
      TrimmedNamed(m);
      TrimmedNamed(p);
      TrimmedDots(m);
      TrimmedDots(p);
      hide Segments, Named, Walk, TrimSlashes;
      WalkLength([], Segments(m));
      assert [] + Named(Segments(m)) == Named(Segments(m));
    }
  }

  // ----- request targets ----------------------------------------------------------------------

  function HexDigit(c: char): Option<nat> {
    if '0' <= c <= '9' then Some(c as nat - '0' as nat)
    else if 'a' <= c <= 'f' then Some(c as nat - 'a' as nat + 10)
    else if 'A' <= c <= 'F' then Some(c as nat - 'A' as nat + 10)
    else None
  }

  /** Percent-encoded octets are decoded, section 2.1 of RFC 3986. */
  function Decode(p: string): string {
    if p == [] then []
    else if p[0] == '%' && |p| >= 3 && HexDigit(p[1]).Some? && HexDigit(p[2]).Some? then
      [(HexDigit(p[1]).value * 16 + HexDigit(p[2]).value) as char] + Decode(p[3..])
    else [p[0]] + Decode(p[1..])
  }

  /** The path of a target ends where a query or a fragment begins. */
  function PathPart(p: string): string {
    if p == [] || p[0] == '?' || p[0] == '#' then [] else [p[0]] + PathPart(p[1..])
  }

  /** The place that a server may take a request target for. */
  function ServedAt(target: string): Place { PlaceOf(Decode(PathPart(target))) }

  lemma {:induction false} ServedPlainly(p: string)
    requires forall i :: 0 <= i < |p| ==> p[i] !in {'%', '?', '#'}
    ensures PathPart(p) == p && Decode(p) == p
  {
    if p != [] {
      ServedPlainly(p[1..]);
      assert p == [p[0]] + p[1..];
    }
  }

  predicate OddCharacter(c: char) { c <= ' ' || c == 127 as char || c in {'%', '#', '?', '*', '$', '`', '\\'} }

  /** A plain request target passes exactly if it has no odd characters or empty segments and leads where it spells. */
  lemma TargetIff(p: string)
    ensures RequestPath(p, false) <==>
            |p| > 0 && p[0] == '/' && (forall i :: 0 <= i < |p| ==> !OddCharacter(p[i])) && NoEmptySegment(p) &&
            PlaceOf(p) == Named(Segments(p))
  {
    hide PlaceOf, Segments, Named, Contains;
    SafePathIff(p);
    ContainsIff(p, '%');
    ContainsIff(p, '#');
    ContainsIff(p, '?');
    assert "%" == ['%'] && "#" == ['#'] && "?" == ['?'];
    NoDoubleSlash(p);
    StarsNone(p);
  }

  /** Everything at or under the directory of a terminal pattern, or the place of a plain target. */
  predicate PatternReaches(pattern: string, at: Place) {
    if EndsInPattern(pattern) then PlaceOf(PatternDir(pattern)) <= at else at == ServedAt(pattern)
  }

  lemma TargetPlain(target: string)
    requires RequestPath(target, false)
    ensures !EndsInPattern(target) && ServedAt(target) == PlaceOf(target) && SafePath(target)
  {
    hide PlaceOf, Segments, Named, Decode, PathPart, Contains, Walk;
    TargetIff(target);
    ServedPlainly(target);
    PatternHasStar(target);
  }

  lemma PatternHasStar(p: string)
    ensures EndsInPattern(p) ==> '*' in p
  {
    assert EndsInPattern(p) ==> p[|p| - 1] == p[|p| - 3..][2];
  }

  /** A target that an allowed path matches is served at a place that the path reaches, encoded or not. */
  lemma TargetReached(target: string, pattern: string)
    requires RequestPath(target, false) && RestPathWithin(target, pattern)
    ensures PatternReaches(pattern, ServedAt(target)) && ServedAt(target) == PlaceOf(target)
  {
    hide RequestPath, SafePath, PlaceOf, ServedAt, PatternDir;
    TargetPlain(target);
    if target != pattern {
      EndsWithSlash(pattern, target);
      DirectoryPrefix(PatternDir(pattern), target);
    }
  }

  lemma EndsWithSlash(pattern: string, target: string)
    requires RestPathWithin(target, pattern) && target != pattern
    ensures EndsInPattern(pattern) &&
            var dir := PatternDir(pattern); dir <= target && dir != [] && dir[|dir| - 1] == '/'
  {
    assert pattern[|pattern| - 3] == pattern[|pattern| - 3..][0] == '/';
  }

  lemma DirectoryPrefix(dir: string, p: string)
    requires dir <= p && dir != [] && dir[|dir| - 1] == '/' && SafePath(p)
    ensures PlaceOf(dir) <= PlaceOf(p)
  {
    var rest := p[|dir|..];
    assert p == dir + rest && dir + "" == dir;
    SafePathIff(p);
    SegmentsBelow(dir, rest);
    SegmentsBelow(dir, "");
    assert Segments("") == [""] && Named([""]) == [];
    hide Segments, Named, Walk, Directories;
    NamedBoth(Directories(dir), Segments(rest));
    NamedBoth(Directories(dir), [""]);
    assert Named(Segments(dir)) == Named(Directories(dir)) + [];
    WalkLength([], Segments(dir));
    assert [] + Named(Segments(dir)) == Named(Segments(dir));
  }

  /** What a capability for requests needs at an endpoint is granted there for the place where it is served. */
  ghost predicate RequestReached(c: NetworkCapability, b: Boundary, verb: string, at: Place) {
    exists k :: 0 <= k < |b.network| && AtEndpoint(b.network[k], c) && Serves(b.network[k], c, verb, at)
  }

  ghost predicate Serves(m: NetworkCapability, c: NetworkCapability, verb: string, at: Place) {
    c.netAccess in NetRights(m.netAccess) && m.toolIdentity == c.toolIdentity &&
    ((m.protocol.Tcp? && m.methods == [] && m.paths == []) ||
     (m.protocol.Rest? && verb in m.methods && exists i :: 0 <= i < |m.paths| && PatternReaches(m.paths[i], at)))
  }

  ghost predicate RequestsReached(c: NetworkCapability, b: Boundary) {
    forall verb, target :: verb in c.methods && target in c.paths ==> RequestReached(c, b, verb, ServedAt(target))
  }

  ghost predicate RequestsContained(c: Contract, b: Boundary) {
    forall i :: 0 <= i < |c.network| && c.network[i].protocol.Rest? ==> RequestsReached(c.network[i], b)
  }

  lemma CoveredServes(c: NetworkCapability, b: Boundary)
    requires RestModelled(c) && RequestPaths(c.paths, false) && NetCovered(c, b)
    ensures RequestsReached(c, b)
  {
    hide RequestPath, PatternReaches, ServedAt, RestPathWithin;
    NetPrincipal(c, c);
    forall verb, target | verb in c.methods && target in c.paths
      ensures RequestReached(c, b, verb, ServedAt(target))
    {
      var i :| 0 <= i < |c.paths| && c.paths[i] == target;
      assert NetNeeds(c, c.host.value, c.port.value, c.netAccess, c.toolIdentity, Request(verb, target));
      assert Grants(b, Net(c.host.value, c.port.value, c.netAccess, c.toolIdentity, Request(verb, target)));
      var k :| 0 <= k < |b.network| &&
               NetGrants(b.network[k], c.host.value, c.port.value, c.netAccess, c.toolIdentity, Request(verb, target));
      var m := b.network[k];
      if m.protocol.Rest? {
        var j :| 0 <= j < |m.paths| && RestPathWithin(target, m.paths[j]);
        TargetReached(target, m.paths[j]);
        assert PatternReaches(m.paths[j], ServedAt(target));
      }
      assert Serves(m, c, verb, ServedAt(target));
    }
  }
}

/**
  The hash-chained audit log. Any number of sinks append to one file under an exclusive
  lock; each reuses the head it remembers only while the file's signature is unchanged.
  The hash is a parameter; where it matters it is assumed to be free of collisions.
*/
module AuditChain {
  import opened Wrappers

  const MAX_LINE: nat := 1024 * 1024
  const MAX_FILE: nat := 64 * 1024 * 1024

  /** A hash field of a line: absent, not a hash, or a hash. */
  datatype Field = NoHash | BadHash | Hash(value: nat)

  /** What is recorded: its content, and whether it has the right shape and agrees with its provenance. */
  datatype Body = Body(content: string, wellFormed: bool, agrees: bool)

  datatype Event = Event(body: Body, previous: Field, eventHash: Field)

  /**
    A line of the file: an event, another JSON value, or no JSON at all. A last line without its
    newline may or may not hold a whole event.
  */
  datatype Line =
    | Whole(event: Event, size: nat)
    | Unfinished(held: Option<Event>, size: nat)
    | NotEvent(size: nat)
    | Junk(size: nat)

  type Digest = (Body, Field) -> nat

  ghost predicate CollisionFree(digest: Digest) {
    forall a, p, b, q :: digest(a, p) == digest(b, q) ==> a == b && p == q
  }

  function FileSize(lines: seq<Line>): nat {
    if lines == [] then 0 else FileSize(lines[..|lines| - 1]) + lines[|lines| - 1].size
  }

  // ----- the verifier -------------------------------------------------------------------------

  datatype Progress = Progress(errors: nat, previous: Option<nat>, count: nat, stopped: bool)

  function FieldOf(previous: Option<nat>): Field { if previous.Some? then Hash(previous.value) else NoHash }

  /** One event of the stream. */
  function ReadEvent(p: Progress, event: Event, digest: Digest): Progress {
    var shape := (if event.body.wellFormed then 0 else 1) + (if event.body.agrees then 0 else 1);
    var q := p.(errors := p.errors + shape, count := p.count + 1);
    match event.eventHash
    case NoHash => q.(errors := q.errors + 1 + (if event.previous.NoHash? then 0 else 1), previous := None)
    case BadHash => q.(errors := q.errors + 1)
    case Hash(h) =>
      var linked := if event.previous == FieldOf(p.previous) then 0 else 1;
      var hashed := if h == digest(event.body, event.previous) then 0 else 1;
      q.(errors := q.errors + linked + hashed, previous := Some(h))
  }

  function ReadLine(p: Progress, line: Line, digest: Digest): Progress {
    if p.stopped then p
    else if line.size > MAX_LINE then p.(errors := p.errors + 1, stopped := true)
    else
      match line
      case Whole(event, _) => ReadEvent(p, event, digest)
      case Unfinished(None, _) => p.(errors := p.errors + 2, stopped := true)
      case Unfinished(Some(event), _) => ReadEvent(p.(errors := p.errors + 1), event, digest)
      case NotEvent(_) => p.(errors := p.errors + 1)
      case Junk(_) => p.(errors := p.errors + 1, stopped := true)
  }

  function ReadAll(lines: seq<Line>, digest: Digest): Progress {
    if lines == [] then Progress(0, None, 0, false)
    else ReadLine(ReadAll(lines[..|lines| - 1], digest), lines[|lines| - 1], digest)
  }

  datatype Verification = Verification(ok: bool, lastHash: Option<nat>, count: nat)

  function Verify(lines: seq<Line>, digest: Digest): Verification {
    if FileSize(lines) > MAX_FILE then Verification(false, None, 0)
    else
      var p := ReadAll(lines, digest);
      Verification(p.errors == 0, p.previous, p.count)
  }

  method VerifyStream(lines: seq<Line>, digest: Digest) returns (v: Verification)
    ensures v == Verify(lines, digest)
  {
    if FileSize(lines) > MAX_FILE { return Verification(false, None, 0); }
    var p := Progress(0, None, 0, false);
    var i := 0;
    while i < |lines| && !p.stopped
      invariant i <= |lines| && p == ReadAll(lines[..i], digest)
    {
      assert lines[..i + 1][..i] == lines[..i];
      p := ReadLine(p, lines[i], digest);
      i := i + 1;
    }
    StoppedStays(lines, i, digest);
    assert lines[..|lines|] == lines;
    return Verification(p.errors == 0, p.previous, p.count);
  }

  lemma {:induction false} StoppedStays(lines: seq<Line>, i: nat, digest: Digest)
    requires i <= |lines| && (i == |lines| || ReadAll(lines[..i], digest).stopped)
    ensures ReadAll(lines, digest) == ReadAll(lines[..i], digest)
    decreases |lines|
  {
    if i == |lines| {
      assert lines[..i] == lines;
    } else {
      assert lines[..|lines| - 1][..i] == lines[..i];
      StoppedStays(lines[..|lines| - 1], i, digest);
    }
  }

  // ----- chains -------------------------------------------------------------------------------

  /** The hash that the next event must name. */
  function Head(lines: seq<Line>): Field {
    if lines == [] then NoHash else match lines[|lines| - 1] case Whole(event, _) => event.eventHash case _ => BadHash
  }

  /** A line that continues a chain with this head. */
  predicate Linked(line: Line, head: Field, digest: Digest) {
    line.Whole? && line.size <= MAX_LINE && line.event.body.wellFormed && line.event.body.agrees &&
      line.event.previous == head &&
    line.event.eventHash == Hash(digest(line.event.body, head))
  }

  predicate IsChain(lines: seq<Line>, digest: Digest) {
    forall i :: 0 <= i < |lines| ==> Linked(lines[i], Head(lines[..i]), digest)
  }

  lemma ChainLast(lines: seq<Line>, digest: Digest)
    requires lines != []
    ensures var n := |lines| - 1; IsChain(lines, digest) <==> IsChain(lines[..n], digest) &&
                                                              Linked(lines[n], Head(lines[..n]), digest)
  {
    hide Linked, Head;
    var n := |lines| - 1;
    forall i | 0 <= i < n ensures lines[..n][..i] == lines[..i] && lines[..n][i] == lines[i] {}
  }

  /** The verifier finds no error exactly in chains, and reports their head. */
  lemma {:induction false} NoErrorsIffChain(lines: seq<Line>, digest: Digest)
    ensures ReadAll(lines, digest).errors == 0 <==> IsChain(lines, digest)
    ensures IsChain(lines, digest) ==>
              FieldOf(ReadAll(lines, digest).previous) == Head(lines) && ReadAll(lines, digest).count == |lines| &&
                !ReadAll(lines, digest).stopped
    ensures ReadAll(lines, digest).stopped ==> ReadAll(lines, digest).errors > 0
  {
    if lines != [] {
      var n := |lines| - 1;
      NoErrorsIffChain(lines[..n], digest);
      ChainLast(lines, digest);
      hide IsChain;
    }
  }

  lemma VerifyIff(lines: seq<Line>, digest: Digest)
    ensures Verify(lines, digest).ok <==> FileSize(lines) <= MAX_FILE && IsChain(lines, digest)
    ensures Verify(lines, digest).ok ==> FieldOf(Verify(lines, digest).lastHash) == Head(lines) &&
                                         Verify(lines, digest).count == |lines|
  {
    hide IsChain, ReadAll, Head, FileSize;
    NoErrorsIffChain(lines, digest);
  }

  function EventOf(line: Line): Option<Event> { if line.Whole? then Some(line.event) else None }

  ghost predicate SameEvents(a: seq<Line>, b: seq<Line>) {
    |a| == |b| && forall i :: 0 <= i < |a| ==> EventOf(a[i]) == EventOf(b[i])
  }

  lemma NoCollision(digest: Digest, a: Body, p: Field, b: Body, q: Field)
    requires CollisionFree(digest) && digest(a, p) == digest(b, q)
    ensures a == b && p == q
  {
  }

  /** With a collision-free hash, the last hash of a chain determines every event of it. */
  lemma {:induction false} HeadDeterminesChain(a: seq<Line>, b: seq<Line>, digest: Digest)
    requires CollisionFree(digest) && IsChain(a, digest) && IsChain(b, digest) && Head(a) == Head(b)
    ensures SameEvents(a, b)
    decreases |a|
  {
    hide IsChain, CollisionFree;
    if a != [] { ChainLast(a, digest); }
    if b != [] { ChainLast(b, digest); }
    if a != [] && b != [] {
      var m, n := |a| - 1, |b| - 1;
      NoCollision(digest, a[m].event.body, Head(a[..m]), b[n].event.body, Head(b[..n]));
      HeadDeterminesChain(a[..m], b[..n], digest);
      assert forall i :: 0 <= i < m ==> a[i] == a[..m][i] && b[i] == b[..n][i];
    }
  }

  /** The same, as a reader of two logs sees it. */
  lemma SameLastHash(a: seq<Line>, b: seq<Line>, digest: Digest)
    requires CollisionFree(digest) && Verify(a, digest).ok && Verify(b, digest).ok
    requires Verify(a, digest).lastHash == Verify(b, digest).lastHash
    ensures SameEvents(a, b)
  {
    hide Verify, IsChain, Head, CollisionFree, SameEvents;
    VerifyIff(a, digest);
    VerifyIff(b, digest);
    HeadDeterminesChain(a, b, digest);
  }
}

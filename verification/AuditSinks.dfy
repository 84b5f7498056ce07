/**
  Sinks over one file. A call of `record` runs under the file's exclusive lock, so calls of
  different sinks follow one another in any order. A write may fail before, during or after
  its bytes reach the file; the signature changes whenever the content does.
*/
module AuditSinks {
  import opened Wrappers
  import opened AuditChain

  /** `version` stands for the signature of the content. */
  datatype File = File(lines: seq<Line>, version: nat)

  datatype Sink = Sink(lastHash: Option<nat>, signature: Option<nat>)

  /** How the append ends: completed, written but not synced, torn after some bytes, or not begun. */
  datatype Write = Complete | SyncFailed | Torn(bytes: nat, whole: bool) | NotBegun

  datatype Recorded = Recorded(file: File, sink: Sink, event: Option<Event>)

  function Appended(f: File, line: Line): File { File(f.lines + [line], f.version + 1) }

  function NextEvent(body: Body, lastHash: Option<nat>, digest: Digest): (event: Event)
    ensures event.eventHash.Hash?
  {
    Event(body, FieldOf(lastHash), Hash(digest(body, FieldOf(lastHash))))
  }

  function Append(f: File, s: Sink, event: Event, size: nat, write: Write): Recorded
    requires event.eventHash.Hash?
  {
    if size > MAX_LINE || FileSize(f.lines) + size > MAX_FILE then Recorded(f, s, None)
    else
      match write
      case Complete =>
        var g := Appended(f, Whole(event, size));
        Recorded(g, Sink(Some(event.eventHash.value), Some(g.version)), Some(event))
      case SyncFailed => Recorded(Appended(f, Whole(event, size)), s, None)
      case Torn(bytes, whole) =>
        if bytes == 0 || bytes >= size then Recorded(f, s, None)
        else Recorded(Appended(f, Unfinished(if whole then Some(event) else None, bytes)), s, None)
      case NotBegun => Recorded(f, s, None)
  }

  /** One call of `record`; no event means that it raised. */
  function RecordOn(f: File, s: Sink, body: Body, size: nat, write: Write, digest: Digest): Recorded {
    if s.signature == Some(f.version) then Append(f, s, NextEvent(body, s.lastHash, digest), size, write)
    else
      var v := Verify(f.lines, digest);
      if !v.ok then Recorded(f, s, None)
      else Append(f, s.(lastHash := v.lastHash), NextEvent(body, v.lastHash, digest), size, write)
  }

  /** Opening a sink: an existing log must verify. */
  function OpenOn(f: File, digest: Digest): Option<Sink> {
    if f.lines == [] then Some(Sink(None, None))
    else
      var v := Verify(f.lines, digest);
      if v.ok then Some(Sink(v.lastHash, Some(f.version))) else None
  }

  class AuditFile {
    var lines: seq<Line>
    var version: nat

    function State(): File
      reads this
    {
      File(lines, version)
    }

    method Add(line: Line)
      modifies this
      ensures State() == Appended(old(State()), line)
    {
      lines := lines + [line];
      version := version + 1;
    }
  }

  class JsonlAuditSink {
    const file: AuditFile
    var lastHash: Option<nat>
    var signature: Option<nat>

    function State(): Sink
      reads this
    {
      Sink(lastHash, signature)
    }

    constructor (file: AuditFile)
      ensures this.file == file && State() == Sink(None, None)
    {
      this.file := file;
      lastHash, signature := None, None;
    }

    /** Reads the head of an existing log; fails if that log does not verify. */
    method Open(digest: Digest) returns (ok: bool)
      modifies this
      requires State() == Sink(None, None)
      ensures match OpenOn(file.State(), digest)
              case Some(s) => ok && State() == s
              case None => !ok
    {
      hide Verify;
      if file.lines == [] { return true; }
      var v := VerifyStream(file.lines, digest);
      if !v.ok { return false; }
      lastHash, signature := v.lastHash, Some(file.version);
      return true;
    }

    method Record(body: Body, size: nat, write: Write, digest: Digest) returns (event: Option<Event>)
      modifies this, file
      ensures Recorded(file.State(), State(), event) ==
              RecordOn(old(file.State()), old(State()), body, size, write, digest)
    {
      hide Verify, FileSize;
      if signature != Some(file.version) {
        var v := VerifyStream(file.lines, digest);
        if !v.ok { return None; }
        lastHash := v.lastHash;
      }
      var built := NextEvent(body, lastHash, digest);
      if size > MAX_LINE { return None; }
      if FileSize(file.lines) + size > MAX_FILE { return None; }
      match write {
        case NotBegun => return None;
        case Torn(bytes, whole) =>
          if bytes == 0 || bytes >= size { return None; }
          file.Add(Unfinished(if whole then Some(built) else None, bytes));
          return None;
        case SyncFailed =>
          file.Add(Whole(built, size));
          return None;
        case Complete =>
          file.Add(Whole(built, size));
          lastHash := Some(built.eventHash.value);
          signature := Some(file.version);
          return Some(built);
      }
    }
  }

  // ----- runs ---------------------------------------------------------------------------------

  type SinkId = nat

  datatype System = System(file: File, sinks: map<SinkId, Sink>)

  datatype Action = OpenSink(id: SinkId) | RecordEvent(id: SinkId, body: Body, size: nat, write: Write)

  /** Only reviews that agree with their provenance are recorded. */
  predicate Proper(a: Action) { a.RecordEvent? ==> a.body.wellFormed && a.body.agrees }

  function Step(s: System, a: Action, digest: Digest): System {
    match a
    case OpenSink(id) =>
      if id in s.sinks then s
      else (match OpenOn(s.file, digest) case Some(sink) => s.(sinks := s.sinks[id := sink]) case None => s)
    case RecordEvent(id, body, size, write) =>
      if id !in s.sinks then s
      else
        var r := RecordOn(s.file, s.sinks[id], body, size, write, digest);
        System(r.file, s.sinks[id := r.sink])
  }

  function Run(s: System, actions: seq<Action>, digest: Digest): System
    decreases |actions|
  {
    if actions == [] then s else Step(Run(s, actions[..|actions| - 1], digest), actions[|actions| - 1], digest)
  }

  const EMPTY: System := System(File([], 0), map[])

  /** The log verifies, or its last line is torn and what precedes it verifies. */
  predicate TornAfterChain(lines: seq<Line>, digest: Digest) {
    lines != [] && lines[|lines| - 1].Unfinished? && Verify(lines[..|lines| - 1], digest).ok
  }

  predicate LogOk(f: File, digest: Digest) { Verify(f.lines, digest).ok || TornAfterChain(f.lines, digest) }

  /** A sink that still knows the signature knows the head of an intact chain. */
  predicate SinkOk(s: Sink, f: File, digest: Digest) {
    (s.signature.Some? ==> s.signature.value <= f.version) &&
    (s.signature == Some(f.version) ==> Verify(f.lines, digest).ok && FieldOf(s.lastHash) == Head(f.lines))
  }

  ghost predicate SystemOk(s: System, digest: Digest) {
    LogOk(s.file, digest) && forall id :: id in s.sinks ==> SinkOk(s.sinks[id], s.file, digest)
  }

  /** An appended event extends the chain. */
  lemma AppendExtends(f: File, body: Body, lastHash: Option<nat>, size: nat, digest: Digest)
    requires Verify(f.lines, digest).ok && FieldOf(lastHash) == Head(f.lines) && body.wellFormed && body.agrees
    requires size <= MAX_LINE && FileSize(f.lines) + size <= MAX_FILE
    ensures var line := Whole(NextEvent(body, lastHash, digest), size);
            Verify(f.lines + [line], digest).ok && Head(f.lines + [line]) == Hash(digest(body, FieldOf(lastHash)))
  {
    var line := Whole(NextEvent(body, lastHash, digest), size);
    var more := f.lines + [line];
    assert more[..|f.lines|] == f.lines;
    hide Verify, IsChain;
    VerifyIff(f.lines, digest);
    VerifyIff(more, digest);
    ChainLast(more, digest);
  }

  lemma AppendKeeps(f: File, s: Sink, body: Body, size: nat, write: Write, digest: Digest)
    requires Verify(f.lines, digest).ok && FieldOf(s.lastHash) == Head(f.lines) && body.wellFormed && body.agrees
    requires s.signature.Some? ==> s.signature.value <= f.version
    ensures var r := Append(f, s, NextEvent(body, s.lastHash, digest), size, write);
            LogOk(r.file, digest) && SinkOk(r.sink, r.file, digest) && f.lines <= r.file.lines &&
              r.file.version >= f.version &&
            (r.file.version == f.version ==> r.file == f) &&
            (r.event.Some? ==> r.file.lines == f.lines + [Whole(r.event.value, size)] &&
                               Verify(r.file.lines, digest).ok)
  {
    hide Verify, Head, FileSize;
    if size <= MAX_LINE && FileSize(f.lines) + size <= MAX_FILE {
      AppendExtends(f, body, s.lastHash, size, digest);
      if write.Torn? {
        var held: Option<Event> := if write.whole then Some(NextEvent(body, s.lastHash, digest)) else None;
        assert (f.lines + [Unfinished(held, write.bytes)])[..|f.lines|] == f.lines;
      }
    }
  }

  /** One call keeps the log; what it returns is on the log, and it never writes after a torn line. */
  lemma RecordKeeps(f: File, s: Sink, body: Body, size: nat, write: Write, digest: Digest)
    requires LogOk(f, digest) && SinkOk(s, f, digest) && body.wellFormed && body.agrees
    ensures var r := RecordOn(f, s, body, size, write, digest);
            LogOk(r.file, digest) && SinkOk(r.sink, r.file, digest) && f.lines <= r.file.lines &&
              r.file.version >= f.version &&
            (r.file.version == f.version ==> r.file == f) &&
            (r.event.Some? ==> r.file.lines == f.lines + [Whole(r.event.value, size)] &&
                               Verify(r.file.lines, digest).ok) &&
            (!Verify(f.lines, digest).ok ==> r.file == f && r.event.None?)
  {
    hide Append, Head, FileSize, NextEvent;
    if s.signature == Some(f.version) {
      hide Verify;
      AppendKeeps(f, s, body, size, write, digest);
    } else if Verify(f.lines, digest).ok {
      VerifyIff(f.lines, digest);
      hide Verify;
      AppendKeeps(f, s.(lastHash := Verify(f.lines, digest).lastHash), body, size, write, digest);
    }
  }

  /** If nothing fails an event is recorded exactly if the log with it verifies. */
  lemma RecordedIff(f: File, s: Sink, body: Body, size: nat, digest: Digest)
    requires LogOk(f, digest) && SinkOk(s, f, digest) && body.wellFormed && body.agrees
    ensures var event := Event(body, Head(f.lines), Hash(digest(body, Head(f.lines))));
            RecordOn(f, s, body, size, Complete, digest).event ==
            if Verify(f.lines + [Whole(event, size)], digest).ok then Some(event) else None
  {
    var event := Event(body, Head(f.lines), Hash(digest(body, Head(f.lines))));
    var more := f.lines + [Whole(event, size)];
    assert more[..|f.lines|] == f.lines;
    VerifyIff(f.lines, digest);
    VerifyIff(more, digest);
    ChainLast(more, digest);
    hide IsChain, Verify, Head;
  }

  lemma OpenKeeps(f: File, digest: Digest)
    requires LogOk(f, digest)
    ensures OpenOn(f, digest).Some? ==> SinkOk(OpenOn(f, digest).value, f, digest)
  {
    VerifyIff(f.lines, digest);
    hide Head, FileSize, Verify;
  }

  lemma StepKeeps(s: System, a: Action, digest: Digest)
    requires SystemOk(s, digest) && Proper(a)
    ensures SystemOk(Step(s, a, digest), digest) && s.file.lines <= Step(s, a, digest).file.lines
    ensures !Verify(s.file.lines, digest).ok ==> Step(s, a, digest).file == s.file
  {
    hide LogOk, SinkOk, RecordOn, OpenOn, Verify;
    match a
    case OpenSink(id) => OpenKeeps(s.file, digest);
    case RecordEvent(id, body, size, write) =>
      if id in s.sinks {
        RecordKeeps(s.file, s.sinks[id], body, size, write, digest);
        var r := RecordOn(s.file, s.sinks[id], body, size, write, digest);
        forall other | other in s.sinks && other != id ensures SinkOk(s.sinks[other], r.file, digest) {
          OtherSinkOk(s.sinks[other], s.file, r.file, digest);
        }
      }
  }

  lemma OtherSinkOk(s: Sink, f: File, g: File, digest: Digest)
    requires SinkOk(s, f, digest) && g.version >= f.version && (g.version == f.version ==> g == f)
    ensures SinkOk(s, g, digest)
  {
    hide Verify, Head;
  }

  /** In every run of any sinks the file is a verified chain, possibly with one torn last line. */
  lemma {:induction false} RunKeeps(actions: seq<Action>, digest: Digest)
    requires forall i :: 0 <= i < |actions| ==> Proper(actions[i])
    ensures SystemOk(Run(EMPTY, actions, digest), digest)
    decreases |actions|
  {
    if actions == [] {
      VerifyIff([], digest);
    } else {
      RunKeeps(actions[..|actions| - 1], digest);
      hide SystemOk, Step;
      StepKeeps(Run(EMPTY, actions[..|actions| - 1], digest), actions[|actions| - 1], digest);
    }
  }

  /** Once a line is torn, no later call of any sink writes anything. */
  lemma {:induction false} NothingAfterTorn(s: System, actions: seq<Action>, digest: Digest)
    requires SystemOk(s, digest) && !Verify(s.file.lines, digest).ok && forall i :: 0 <= i < |actions| ==>
             Proper(actions[i])
    ensures Run(s, actions, digest).file == s.file && SystemOk(Run(s, actions, digest), digest)
    decreases |actions|
  {
    if actions != [] {
      hide SystemOk, Step, Verify;
      NothingAfterTorn(s, actions[..|actions| - 1], digest);
      StepKeeps(Run(s, actions[..|actions| - 1], digest), actions[|actions| - 1], digest);
    }
  }

  /** Lines are only ever added. */
  lemma {:induction false} LogOnlyGrows(s: System, actions: seq<Action>, digest: Digest)
    requires SystemOk(s, digest) && forall i :: 0 <= i < |actions| ==> Proper(actions[i])
    ensures s.file.lines <= Run(s, actions, digest).file.lines && SystemOk(Run(s, actions, digest), digest)
    decreases |actions|
  {
    if actions != [] {
      hide SystemOk, Step;
      LogOnlyGrows(s, actions[..|actions| - 1], digest);
      StepKeeps(Run(s, actions[..|actions| - 1], digest), actions[|actions| - 1], digest);
    }
  }
}

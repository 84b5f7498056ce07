/**
  The event assembler: lines become events, each within the message limit as counted in
  wire bytes, and complete events are handed to the observer and forwarded as it says.

  `Play` says what becomes of a whole response whose reads end in given places; the methods
  here work on whatever pieces arrive.
*/
module SseStream {
  import opened Wrappers
  import opened SseLines
  import opened SseEvents
  import opened SseCuts

  // ----- the loop -----------------------------------------------------------------------------

  datatype Outcome = Ended | EndedWithoutResult | TerminalReply | SizeExceeded | MessageRefused

  function EndOf(outcome: Outcome): End {
    match outcome
    case Ended => Finished
    case EndedWithoutResult => Finished
    case TerminalReply => Answered
    case SizeExceeded => Oversized
    case MessageRefused => Refused
  }

  datatype Kind = Nothing | Comment | Field | Event

  datatype Assembly = Assembly(
    event: seq<byte>, data: seq<seq<byte>>, eventBytes: nat, previousEventBytes: nat, previousLineBytes: nat,
      kind: Kind)

  /** The size already counted for whatever the last line belonged to. */
  function Counted(a: Assembly): nat {
    match a.kind
    case Comment => a.eventBytes + a.previousLineBytes
    case Event => a.previousEventBytes
    case _ => a.eventBytes
  }

  /** The verdict on the rest of the stream in the middle of a run, with `owed` late LFs pending. */
  predicate BudgetLeft(a: Assembly, rest: seq<byte>, owed: nat, mark: nat) {
    (owed > 0 ==> Counted(a) + owed <= MAX_MESSAGE_BYTES) && WithinBudget(WithLateLf(a, owed).eventBytes, rest, mark)
  }

  function PartialOf(a: Assembly, before: seq<seq<byte>>): Partial { Partial(a.eventBytes, a.event, a.data, before) }

  /** What becomes of the rest of the response in the middle of a run. */
  function PlayLeft(a: Assembly, rest: seq<byte>, owed: nat, mark: nat, before: seq<seq<byte>>, observe: Observer,
                    cuts: set<nat>, untaken: nat): Effect {
    if owed > 0 && Written(a) then
      if !YieldsNext(rest, mark, untaken) || Counted(a) + owed > MAX_MESSAGE_BYTES then TOO_LARGE
      else After([LF], [], Play(rest, mark, PartialOf(a, before), observe, cuts, untaken))
    else
      var b := WithLateLf(a, owed);
      if b.eventBytes > MAX_MESSAGE_BYTES then TOO_LARGE
      else Play(rest, mark, PartialOf(b, before), observe, cuts, untaken)
  }

  /** `rstrip` of the two terminators. */
  function Stripped(line: seq<byte>): seq<byte> {
    if line != [] && Terminator(line[|line| - 1]) then Stripped(line[..|line| - 1]) else line
  }

  lemma {:induction false} StrippedNoTerminator(line: seq<byte>)
    requires forall i :: 0 <= i < |line| ==> !Terminator(line[i])
    ensures Stripped(line) == line
  {
  }

  /** A yielded line without its terminator is the content of the stream's next line. */
  lemma StrippedIsContent(rest: seq<byte>, line: seq<byte>)
    requires line <= rest && LineEnd(rest) <= |line| <= LineLength(rest)
    ensures Stripped(line) == rest[..LineEnd(rest)]
  {
    var e := LineEnd(rest);
    StrippedNoTerminator(rest[..e]);
    assert line[..e] == rest[..e];
    if |line| == e + 2 {
      assert line[..e + 1][..e] == line[..e];
    }
    if |line| == e { assert line == line[..e]; }
  }

  lemma LongLine(lines: seq<seq<byte>>, rest: seq<byte>, mark: nat)
    requires LineEnd(rest) + mark > MAX_MESSAGE_BYTES && rest != []
    ensures |SplitLines(rest)| > 0 && |(lines + SplitLines(rest))[|lines|]| == LineEnd(rest)
  {
  }

  lemma BomSize(s: seq<byte>)
    ensures |StripBom(s)| + BomLength(s) == |s| && BomLength(s) <= 3
    ensures StripBom(s) == [] <==> s == [] || s == BOM
    ensures SplitLines([]) == []
  {
  }

  /** Whether the line before was already written to the client. */
  predicate Written(a: Assembly) { a.kind.Comment? || a.kind.Event? }

  /** A late LF still belongs to the event it ends a line of. */
  function WithLateLf(a: Assembly, owed: nat): Assembly {
    if owed > 0 && !Written(a) then a.(eventBytes := a.eventBytes + owed, event := a.event + [LF]) else a
  }

  /** The assembly after a line of `size` counted bytes. */
  function AfterLine(a: Assembly, line: seq<byte>, size: nat): Assembly
  {
    if line == [] then a
    else if line[0] == COLON then a.(kind := Comment, previousLineBytes := size)
    else if Stripped(line) != [] then
      Assembly(a.event + line, WithData(a.data, Stripped(line)), a.eventBytes + size, a.previousEventBytes,
               a.previousLineBytes, Field)
    else Assembly([], [], 0, a.eventBytes + size, a.previousLineBytes, Event)
  }

  /** This line completes an event. */
  predicate Completes(line: seq<byte>) { line != [] && line[0] != COLON && Stripped(line) == [] }

  function Dispatched(a: Assembly, line: seq<byte>): seq<seq<byte>> {
    if Completes(line) then MessageOf(a.data) else []
  }

  /** What is written for this line, given the observer's reply. */
  function Emitted(a: Assembly, line: seq<byte>, reply: Reply): seq<byte> {
    if line == [] || line[0] == COLON then line
    else if Stripped(line) != [] || reply.Malformed? then []
    else Rendered(a.event + line, reply.rewritten)
  }

  lemma PieceContent(rest: seq<byte>, line: seq<byte>, owed: nat)
    requires Piece(rest, line, owed)
    ensures rest != [] && line != [] && line[0] == rest[0] && Stripped(line) == rest[..LineEnd(rest)]
    ensures Stripped(line) == [] <==> LineEnd(rest) == 0
    ensures rest[..LineLength(rest)] == if owed == 0 then line else line + [LF]
  {
    hide Stripped;
    StrippedIsContent(rest, line);
  }

  /** The two size checks made for one item. */
  predicate SizeAllowed(a: Assembly, owed: nat, size: nat) {
    (owed > 0 && Written(a) ==> Counted(a) + owed <= MAX_MESSAGE_BYTES) &&
    WithLateLf(a, owed).eventBytes + size <= MAX_MESSAGE_BYTES
  }

  lemma ItemBudget(a: Assembly, rest: seq<byte>, owed: nat, mark: nat, r: Read, next: seq<byte>, late: nat)
    requires Yields(rest, owed, mark, r, next, late) && a.eventBytes <= MAX_MESSAGE_BYTES
    ensures BudgetLeft(a, rest, owed, mark) <==>
            SizeAllowed(a, owed, r.size) && BudgetLeft(AfterLine(WithLateLf(a, owed), r.line, r.size), next, late, 0)
    ensures SizeAllowed(a, owed, r.size) ==>
            AfterLine(WithLateLf(a, owed), r.line, r.size).eventBytes <= MAX_MESSAGE_BYTES
  {
    hide LineEnd, LineLength, Stripped, JoinLines, WithData;
    if r.line != [] { PieceContent(rest, r.line, late); }
  }

  /** A late LF is one that a read left behind. */
  predicate LateAsCut(rest: seq<byte>, line: seq<byte>, late: nat, cuts: set<nat>) {
    line != [] ==> (late == 1 <==> IsCut(rest, cuts))
  }

  lemma OnTimeIs(rest: seq<byte>, line: seq<byte>, late: nat, cuts: set<nat>)
    requires Piece(rest, line, late) && LateAsCut(rest, line, late, cuts)
    ensures OnTime(rest, cuts) == line && IsCut(rest, cuts) == (late == 1)
  {
    hide LineEnd;
    assert line == rest[..|line|];
  }

  /** What follows the observer's reply. */
  function Replied(reply: Reply, onward: Effect): Effect {
    if reply.Malformed? then Effect([], [], Refused)
    else if reply.terminal then Effect([], [], Answered)
    else onward
  }

  /** The late LF that is written before the sizes are checked. */
  function LateWritten(a: Assembly, owed: nat): seq<byte> {
    if owed > 0 && Written(a) && Counted(a) + owed <= MAX_MESSAGE_BYTES then [LF] else []
  }

  /**
    What becomes of the response before an item is what the item writes and hands to the
    observer and, if its sizes are allowed, what becomes of the response afterwards.
  */
  lemma ItemPlay(a: Assembly, rest: seq<byte>, owed: nat, mark: nat, r: Read, next: seq<byte>, late: nat,
                 before: seq<seq<byte>>, observe: Observer, cuts: set<nat>, untaken: nat)
    requires Yields(rest, owed, mark, r, next, late) && LateAsCut(rest, r.line, late, cuts)
    requires YieldsNext(rest, mark, untaken) && a.eventBytes <= MAX_MESSAGE_BYTES
    ensures var b := WithLateLf(a, owed);
            var sent := Dispatched(b, r.line);
            var reply := ReplyTo(sent, before, observe);
            var onward := PlayLeft(AfterLine(b, r.line, r.size), next, late, 0, before + sent, observe, cuts, untaken);
            PlayLeft(a, rest, owed, mark, before, observe, cuts, untaken) ==
            After(LateWritten(a, owed), [],
                  if SizeAllowed(a, owed, r.size) then After(Emitted(b, r.line, reply), sent, Replied(reply, onward))
                  else TOO_LARGE)
  {
    hide Play, LineEnd, LineLength, Stripped, Rendered, JoinLines, Piece, Yielded;
    var b := WithLateLf(a, owed);
    assert before + [] == before;
    var now := Play(rest, mark, PartialOf(b, before), observe, cuts, untaken);
    NothingBefore(now);
    if r.line == [] {
      NothingLeft(b, r.size, before, observe, cuts, untaken);
    } else {
      PieceContent(rest, r.line, late);
      LinePlay(b, rest, mark, r, next, late, before, observe, cuts, untaken);
      NothingBefore(PlayLeft(AfterLine(b, r.line, r.size), next, late, 0, before, observe, cuts, untaken));
    }
  }

  lemma NothingBefore(r: Effect)
    ensures After([], [], r) == r
  {
    assert [] + r.bytes == r.bytes && [] + r.messages == r.messages;
  }

  lemma NothingLeft(b: Assembly, size: nat, before: seq<seq<byte>>, observe: Observer, cuts: set<nat>, untaken: nat)
    requires untaken == 0
    ensures Play([], 0, PartialOf(b, before), observe, cuts, untaken) == Effect([], [], Finished)
    ensures forall mark :: Play([], mark, PartialOf(b, before), observe, cuts, untaken) == Effect([], [], Finished)
    ensures AfterLine(b, [], size) == b && Emitted(b, [], PASSED) == [] && !Completes([])
    ensures b.eventBytes <= MAX_MESSAGE_BYTES ==>
              PlayLeft(b, [], 0, 0, before, observe, cuts, untaken) == Effect([], [], Finished)
  {
  }

  /** A line that is yielded plays as the loop treats it. */
  lemma LinePlay(b: Assembly, rest: seq<byte>, mark: nat, r: Read, next: seq<byte>, late: nat,
                 before: seq<seq<byte>>, observe: Observer, cuts: set<nat>, untaken: nat)
    requires r.Line? && Piece(rest, r.line, late) && r.size == |r.line| + mark && next == rest[LineLength(rest)..]
    requires LateAsCut(rest, r.line, late, cuts) && Yielded(rest, mark, untaken)
    ensures var sent := Dispatched(b, r.line);
            var reply := ReplyTo(sent, before, observe);
            Play(rest, mark, PartialOf(b, before), observe, cuts, untaken) ==
              if b.eventBytes + r.size > MAX_MESSAGE_BYTES then TOO_LARGE
              else
                After(Emitted(b, r.line, reply), sent,
                      Replied(reply, PlayLeft(AfterLine(b, r.line, r.size), next, late, 0, before + sent, observe, cuts,
                                              untaken)))
  {
    hide LineEnd, LineLength, Stripped, Rendered, JoinLines, Piece, YieldsNext, Yielded, PlayLeft, AfterLine, Emitted,
      Rejoin, IsCut, OnTime, Completes, WithData, LateAsCut;
    assert before + [] == before;
    PieceContent(rest, r.line, late);
    OnTimeIs(rest, r.line, late, cuts);
    LateIsBit(rest, r.line, late);
    assert r.line + [] == r.line;
    if b.eventBytes + r.size <= MAX_MESSAGE_BYTES {
      LineKinds(b, r.line, r.size, late, rest, next, before, observe, cuts, untaken);
      if r.line[0] != COLON {
        if Stripped(r.line) == [] { hide WithField; } else { hide PartialOf; }
      }
    }
  }

  /** What each kind of line writes, and how the response plays on after it. */
  lemma LineKinds(b: Assembly, line: seq<byte>, size: nat, late: nat, rest: seq<byte>, next: seq<byte>,
                  before: seq<seq<byte>>, observe: Observer, cuts: set<nat>, untaken: nat)
    requires line != [] && late <= 1 && b.eventBytes + size <= MAX_MESSAGE_BYTES && rest != []
    requires Stripped(line) == rest[..LineEnd(rest)] &&
             line + (if late == 0 then [] else [LF]) == rest[..LineLength(rest)]
    ensures Completes(line) <==> line[0] != COLON && Stripped(line) == []
    ensures var c, s := AfterLine(b, line, size), PartialOf(b, before);
            if line[0] == COLON then
              (forall reply :: Emitted(b, line, reply) == line) &&
              PlayLeft(c, next, late, 0, before, observe, cuts, untaken) ==
                Rejoin(late == 1, b.eventBytes + size, next, s, observe, cuts, untaken)
            else if Stripped(line) != [] then
              var t := WithField(rest, s, b.eventBytes + size + late);
              (forall reply :: Emitted(b, line, reply) == []) &&
              PlayLeft(c, next, late, 0, before, observe, cuts, untaken) ==
                if t.used > MAX_MESSAGE_BYTES then TOO_LARGE else Play(next, 0, t, observe, cuts, untaken)
            else
              (forall reply ::
                 Emitted(b, line, reply) ==
                 if reply.Malformed? then [] else Rendered(b.event + line, reply.rewritten)) &&
              forall all ::
                PlayLeft(c, next, late, 0, all, observe, cuts, untaken) ==
                  Rejoin(late == 1, b.eventBytes + size, next, Partial(0, [], [], all), observe, cuts, untaken)
  {
    hide Stripped, Rendered, Play, YieldsNext, LineEnd, LineLength, JoinLines, WithData;
    if line[0] != COLON && Stripped(line) != [] {
      Grouped(b.event, line, if late == 0 then [] else [LF]);
      assert b.event + line + [] == b.event + line;
    }
  }

  lemma LateIsBit(rest: seq<byte>, line: seq<byte>, late: nat)
    requires Piece(rest, line, late)
    ensures late <= 1
  {
  }

  /** The current event holds whole lines, unless the stream ends with it. */
  predicate Lined(a: Assembly, rest: seq<byte>, owed: nat) { rest == [] || Whole(WithLateLf(a, owed).event) }

  /** Whether the stream can be resumed is decided by this item or by what remains. */
  lemma ItemResumes(a: Assembly, rest: seq<byte>, owed: nat, mark: nat, r: Read, next: seq<byte>, late: nat)
    requires Yields(rest, owed, mark, r, next, late) && Lined(a, rest, owed)
    ensures var b := WithLateLf(a, owed);
            var c := AfterLine(b, r.line, r.size);
            Lined(c, next, late) &&
            Resumes(rest, b.event) == ((Completes(r.line) && HasId(b.event + r.line)) ||
              Resumes(next, WithLateLf(c, late).event))
  {
    hide Stripped, JoinLines, WithData, HasId, Piece, LineEnd, LineLength, Resumes, Whole;
    var b := WithLateLf(a, owed);
    if r.line != [] {
      PieceContent(rest, r.line, late);
      LateIsBit(rest, r.line, late);
      WholeNext(rest, b.event);
      NothingWhole();
      var line := rest[..LineLength(rest)];
      if late == 1 { Grouped(b.event, r.line, [LF]); }
      if Completes(r.line) { SameId(rest, b.event, r.line, late); }
      ResumesNext(rest, b.event);
    } else {
      ResumesNever(b.event);
    }
  }

  lemma ResumesNever(event: seq<byte>)
    ensures !Resumes([], event)
  {
  }

  lemma ResumesNext(rest: seq<byte>, event: seq<byte>)
    requires rest != []
    ensures var line, next := rest[..LineLength(rest)], rest[LineLength(rest)..];
            Resumes(rest, event) ==
            if rest[0] == COLON then Resumes(next, event)
            else if LineEnd(rest) > 0 then Resumes(next, event + line)
            else HasId(event + line) || Resumes(next, [])
  {
  }

  lemma SameId(rest: seq<byte>, event: seq<byte>, line: seq<byte>, late: nat)
    requires Piece(rest, line, late) && Whole(event) && LineEnd(rest) == 0
    ensures HasId(event + rest[..LineLength(rest)]) == HasId(event + line)
  {
    hide HasId, LineEnd, Stripped;
    PieceContent(rest, line, late);
    if late == 1 {
      LengthFrom(rest, 0);
      assert line == [CR] && rest[..LineLength(rest)] == [CR, LF];
      LateLfIgnored(event);
    }
  }

  lemma ItemMessages(a: Assembly, rest: seq<byte>, owed: nat, mark: nat, r: Read, next: seq<byte>, late: nat)
    requires Yields(rest, owed, mark, r, next, late)
    ensures Messages(rest, a.data) == Dispatched(WithLateLf(a, owed), r.line) + Messages(next,
            AfterLine(WithLateLf(a, owed), r.line, r.size).data)
  {
    hide LineEnd, LineLength, Stripped, JoinLines, WithData;
    if r.line != [] { PieceContent(rest, r.line, late); }
  }

  lemma LinesYielded(rest: seq<byte>, owed: nat, mark: nat, r: Read, next: seq<byte>, late: nat)
    requires Yields(rest, owed, mark, r, next, late)
    ensures SplitLines(rest) == (if r.line == [] then [] else [Stripped(r.line)]) + SplitLines(next)
    ensures |rest| + owed + mark == (if r.line == [] then mark else 0) + r.size + r.prefix + |next| + late
    ensures |next| + late < |rest| + owed && (r.line != [] ==> r.size > 0) && (r.line == [] ==> owed > 0) &&
            r.prefix == owed
  {
    hide Stripped;
    if r.line != [] { StrippedIsContent(rest, r.line); }
  }

  /** All the lines of a response, as the generator yields them, and the bytes it accounts for. */
  method ReadLines(source: ByteSource) returns (lines: seq<seq<byte>>, wire: nat, outcome: Read)
    requires source.cuts == {} && source.unread == source.whole
    modifies source
    ensures !outcome.Line?
    ensures lines <= SplitLines(StripBom(old(source.unread)))
    ensures outcome.End? ==> lines == SplitLines(StripBom(old(source.unread)))
    ensures outcome.End? ==> wire == if old(source.unread) == BOM then 0 else |old(source.unread)|
    ensures outcome.LineTooLong? ==>
              var all := SplitLines(StripBom(old(source.unread)));
              |lines| < |all| && |all[|lines|]| + (if lines == [] then BomLength(old(source.unread))
                else 0) > MAX_MESSAGE_BYTES
    ensures outcome.StreamTooLong? ==> |old(source.unread)| > MAX_STREAM_BYTES
  {
    hide *;
    ghost var stream := source.unread;
    var reader := new SseReader(source);
    lines, wire := [], 0;
    BomSize(stream);
    while true
      invariant reader.Valid() && reader.source == source && fresh(reader) && reader.StreamLength() == |stream|
      invariant lines + SplitLines(reader.Rest()) == SplitLines(StripBom(stream))
      invariant wire + |reader.Rest()| + reader.Owed() + reader.Mark() == |stream|
      invariant lines == [] <==> wire == 0
      invariant lines == [] ==> reader.Rest() == StripBom(stream) && reader.Mark() == BomLength(stream) &&
                                reader.Owed() == 0
      invariant lines != [] ==> reader.Mark() == 0
      decreases |reader.Rest()| + reader.Owed()
    {
      ghost var rest, owed, mark := reader.Rest(), reader.Owed(), reader.Mark();
      outcome := reader.Next();
      if !outcome.Line? {
        if outcome.LineTooLong? { LongLine(lines, rest, mark); }
        return;
      }
      LinesYielded(rest, owed, mark, outcome, reader.Rest(), reader.Owed());
      wire := wire + outcome.size + outcome.prefix;
      if outcome.line != [] {
        lines := lines + [Stripped(outcome.line)];
      }
    }
  }

  /** Attributes a late LF and checks the size of what it and the next line belong to. */
  method CheckSize(a: Assembly, owed: nat, size: nat) returns (ok: bool, b: Assembly, output: seq<byte>)
    ensures ok <==> SizeAllowed(a, owed, size)
    ensures output == LateWritten(a, owed) && (ok ==> b == WithLateLf(a, owed))
  {
    b, output := a, [];
    if owed > 0 {
      if a.kind.Comment? || a.kind.Event? {
        var previousSize := if a.kind.Comment? then a.eventBytes + a.previousLineBytes else a.previousEventBytes;
        if previousSize + owed > MAX_MESSAGE_BYTES { return false, a, []; }
        output := [LF];
      } else {
        b := b.(eventBytes := a.eventBytes + owed, event := a.event + [LF]);
      }
    }
    ok := b.eventBytes + size <= MAX_MESSAGE_BYTES;
  }

  /** Adds one line; the blank line that completes an event sends its data to the observer first. */
  method AddLine(a: Assembly, line: seq<byte>, size: nat, before: seq<seq<byte>>, observe: Observer)
    returns (b: Assembly, output: seq<byte>, sent: seq<seq<byte>>, reply: Reply, id: bool)
    requires line != []
    ensures sent == Dispatched(a, line) && |sent| <= 1 && reply == ReplyTo(sent, before, observe)
    ensures b == AfterLine(a, line, size) && output == Emitted(a, line, reply)
    ensures id == (Completes(line) && HasId(a.event + line))
  {
    hide Stripped, JoinLines, DataValue, Metadata, HasId;
    b, output, sent, reply, id := a, [], [], PASSED, false;
    if line[0] == COLON {
      return b.(kind := Comment, previousLineBytes := size), line, [], PASSED, false;
    }
    b := b.(eventBytes := b.eventBytes + size, event := b.event + line);
    var stripped := Stripped(line);
    if DATA <= stripped { b := b.(data := b.data + [DataValue(stripped)]); }
    if stripped != [] {
      b := b.(kind := Field);
      return;
    }
    id := HasId(b.event);
    var raw := JoinLines(b.data);
    if raw != [] {
      sent := [raw];
      reply := observe(before, raw);
    }
    if reply.Accepted? { output := Rendered(b.event, reply.rewritten); }
    b := b.(kind := Event, previousEventBytes := b.eventBytes, eventBytes := 0, event := [], data := []);
  }

  /** What is left of the stream's messages and size verdict in the middle of a run. */
  ghost predicate Continues(stream: seq<byte>, a: Assembly, dispatched: seq<seq<byte>>, rest: seq<byte>, owed: nat,
                            mark: nat) {
    a.eventBytes <= MAX_MESSAGE_BYTES &&
    BudgetLeft(a, rest, owed, mark) == WithinBudget(0, StripBom(stream), BomLength(stream)) &&
    dispatched + Messages(rest, a.data) == Messages(StripBom(stream), [])
  }

  /** What was written and observed so far, and what becomes of the rest, is what becomes of the response. */
  ghost predicate Plays(stream: seq<byte>, a: Assembly, written: seq<byte>, rest: seq<byte>, owed: nat, mark: nat,
                        dispatched: seq<seq<byte>>, observe: Observer, cuts: set<nat>, untaken: nat) {
    After(written, dispatched, PlayLeft(a, rest, owed, mark, dispatched, observe, cuts, untaken)) ==
    Play(StripBom(stream), BomLength(stream), FRESH, observe, cuts, untaken)
  }

  /** What is still undecided about resuming the stream. */
  ghost predicate ResumesSoFar(stream: seq<byte>, a: Assembly, resumable: bool, seen: bool, rest: seq<byte>,
                               owed: nat) {
    Lined(a, rest, owed) && (seen || Resumes(StripBom(stream), []) <==>
      resumable || Resumes(rest, WithLateLf(a, owed).event)) &&
    (seen ==> resumable)
  }

  lemma Start(stream: seq<byte>, seen: bool, observe: Observer)
    ensures Continues(stream, EMPTY, [], StripBom(stream), 0, BomLength(stream))
    ensures forall cuts, untaken ::
              Plays(stream, EMPTY, [], StripBom(stream), 0, BomLength(stream), [], observe, cuts, untaken)
    ensures ResumesSoFar(stream, EMPTY, seen, seen, StripBom(stream), 0)
  {
    hide StripBom, BomLength, Messages, Play, WithinBudget, Resumes;
    var rest := StripBom(stream);
    forall cuts, untaken ensures Plays(stream, EMPTY, [], rest, 0, BomLength(stream), [], observe, cuts, untaken) {
      NothingBefore(Play(rest, BomLength(stream), FRESH, observe, cuts, untaken));
    }
    assert [] + Messages(rest, []) == Messages(rest, []);
  }

  const EMPTY: Assembly := Assembly([], [], 0, 0, 0, Nothing)

  lemma AfterAfter(w: seq<byte>, m: seq<seq<byte>>, x: seq<byte>, n: seq<seq<byte>>, r: Effect)
    ensures After(w, m, After(x, n, r)) == After(w + x, m + n, r)
  {
    assert w + (x + r.bytes) == w + x + r.bytes && m + (n + r.messages) == m + n + r.messages;
  }

  lemma Item(stream: seq<byte>, a: Assembly, dispatched: seq<seq<byte>>, rest: seq<byte>, owed: nat, mark: nat, r: Read,
             next: seq<byte>, late: nat)
    requires Continues(stream, a, dispatched, rest, owed, mark) && Yields(rest, owed, mark, r, next, late)
    ensures var b := WithLateLf(a, owed);
            (SizeAllowed(a, owed, r.size) ==>
               Continues(stream, AfterLine(b, r.line, r.size), dispatched + Dispatched(b, r.line), next, late, 0)) &&
            (!SizeAllowed(a, owed, r.size) ==> !Fits(stream)) &&
            dispatched + Dispatched(b, r.line) <= Messages(StripBom(stream), []) &&
              dispatched <= Messages(StripBom(stream), [])
  {
    hide StripBom, BomLength, Messages, WithinBudget, SizeAllowed, AfterLine, WithLateLf, Dispatched,
      BudgetLeft, LineLength, LineEnd, Piece;
    ItemBudget(a, rest, owed, mark, r, next, late);
    ItemMessages(a, rest, owed, mark, r, next, late);
    var b := WithLateLf(a, owed);
    var sent, left := Dispatched(b, r.line), Messages(next, AfterLine(b, r.line, r.size).data);
    assert dispatched + (sent + left) == dispatched + sent + left;
  }

  lemma ItemPlays(stream: seq<byte>, a: Assembly, written: seq<byte>, rest: seq<byte>, owed: nat, mark: nat, r: Read,
                  next: seq<byte>, late: nat, dispatched: seq<seq<byte>>, observe: Observer, cuts: set<nat>,
                  untaken: nat)
    requires Plays(stream, a, written, rest, owed, mark, dispatched, observe, cuts, untaken)
    requires Yields(rest, owed, mark, r, next, late) && LateAsCut(rest, r.line, late, cuts)
    requires YieldsNext(rest, mark, untaken) && a.eventBytes <= MAX_MESSAGE_BYTES
    ensures var b := WithLateLf(a, owed);
            var sent := Dispatched(b, r.line);
            var reply := ReplyTo(sent, dispatched, observe);
            var all := Play(StripBom(stream), BomLength(stream), FRESH, observe, cuts, untaken);
            var now := written + LateWritten(a, owed) + Emitted(b, r.line, reply);
            if !SizeAllowed(a, owed, r.size) then all == Effect(written + LateWritten(a, owed), dispatched, Oversized)
            else if reply.Malformed? then all == Effect(now, dispatched + sent, Refused)
            else if reply.terminal then all == Effect(now, dispatched + sent, Answered)
            else
              Plays(stream, AfterLine(b, r.line, r.size), now, next, late, 0, dispatched + sent, observe, cuts, untaken)
  {
    hide StripBom, BomLength, Play, AfterLine, WithLateLf, Emitted, LateWritten, PlayLeft, Dispatched, LateAsCut,
      SizeAllowed, YieldsNext, Piece;
    ItemPlay(a, rest, owed, mark, r, next, late, dispatched, observe, cuts, untaken);
    var b := WithLateLf(a, owed);
    var sent := Dispatched(b, r.line);
    var reply := ReplyTo(sent, dispatched, observe);
    var onward := PlayLeft(AfterLine(b, r.line, r.size), next, late, 0, dispatched + sent, observe, cuts, untaken);
    AfterAfter(written, dispatched, LateWritten(a, owed), [],
               if !SizeAllowed(a, owed, r.size) then TOO_LARGE
               else After(Emitted(b, r.line, reply), sent, Replied(reply, onward)));
    assert dispatched + [] == dispatched;
    AfterAfter(written + LateWritten(a, owed), dispatched, Emitted(b, r.line, reply), sent, Replied(reply, onward));
    NothingAfter(written + LateWritten(a, owed), dispatched);
    NothingAfter(written + LateWritten(a, owed) + Emitted(b, r.line, reply), dispatched + sent);
  }

  lemma NothingAfter(bytes: seq<byte>, messages: seq<seq<byte>>)
    ensures forall end :: After(bytes, messages, Effect([], [], end)) == Effect(bytes, messages, end)
  {
    assert bytes + [] == bytes && messages + [] == messages;
  }

  lemma ItemDecides(stream: seq<byte>, a: Assembly, resumable: bool, seen: bool, rest: seq<byte>, owed: nat, mark: nat,
                    r: Read, next: seq<byte>, late: nat)
    requires ResumesSoFar(stream, a, resumable, seen, rest, owed) && Yields(rest, owed, mark, r, next, late)
    ensures var b := WithLateLf(a, owed);
            var id := Completes(r.line) && HasId(b.event + r.line);
            ResumesSoFar(stream, AfterLine(b, r.line, r.size), resumable || id, seen, next, late) &&
            (resumable || id ==> seen || Resumes(StripBom(stream), []))
  {
    hide StripBom, AfterLine, WithLateLf, Completes, HasId, Resumes, Lined;
    ItemResumes(a, rest, owed, mark, r, next, late);
  }

  lemma ReadOut(stream: seq<byte>, a: Assembly, dispatched: seq<seq<byte>>, mark: nat)
    requires Continues(stream, a, dispatched, [], 0, mark) && |stream| <= MAX_STREAM_BYTES
    ensures Fits(stream) && dispatched == Messages(StripBom(stream), [])
    ensures forall resumable, seen :: ResumesSoFar(stream, a, resumable, seen, [], 0) ==>
            (resumable <==> seen || Resumes(StripBom(stream), []))
  {
    hide StripBom, BomLength;
  }

  lemma PlayedOut(stream: seq<byte>, a: Assembly, written: seq<byte>, mark: nat, dispatched: seq<seq<byte>>,
                  observe: Observer, cuts: set<nat>)
    requires Plays(stream, a, written, [], 0, mark, dispatched, observe, cuts, 0) && a.eventBytes <= MAX_MESSAGE_BYTES
    ensures Play(StripBom(stream), BomLength(stream), FRESH, observe, cuts, 0) == Effect(written, dispatched, Finished)
  {
    hide StripBom, BomLength;
    NothingAfter(written, dispatched);
    NothingPlays(PartialOf(a, dispatched), mark, observe, cuts);
    hide Play;
  }

  lemma NothingPlays(s: Partial, mark: nat, observe: Observer, cuts: set<nat>)
    ensures Play([], mark, s, observe, cuts, 0) == Effect([], [], Finished)
  {
  }

  /** Where no next item comes any more, nothing else is written or observed. */
  lemma PlayedTooLong(stream: seq<byte>, a: Assembly, written: seq<byte>, rest: seq<byte>, owed: nat, mark: nat,
                      dispatched: seq<seq<byte>>, observe: Observer, cuts: set<nat>, untaken: nat)
    requires Plays(stream, a, written, rest, owed, mark, dispatched, observe, cuts, untaken) &&
             !YieldsNext(rest, mark, untaken)
    ensures Play(StripBom(stream), BomLength(stream), FRESH, observe, cuts, untaken) ==
            Effect(written, dispatched, Oversized)
  {
    hide StripBom, BomLength;
    NothingAfter(written, dispatched);
    forall s ensures Play(rest, mark, s, observe, cuts, untaken) == TOO_LARGE {
      NoNext(rest, mark, s, observe, cuts, untaken);
    }
    hide Play;
  }

  lemma NoNext(rest: seq<byte>, mark: nat, s: Partial, observe: Observer, cuts: set<nat>, untaken: nat)
    requires !YieldsNext(rest, mark, untaken)
    ensures Play(rest, mark, s, observe, cuts, untaken) == TOO_LARGE
  {
  }

  lemma TooLongOrMany(stream: seq<byte>, a: Assembly, dispatched: seq<seq<byte>>, rest: seq<byte>, owed: nat, mark: nat)
    requires Continues(stream, a, dispatched, rest, owed, mark)
    requires |stream| > MAX_STREAM_BYTES || (LineEnd(rest) + mark > MAX_MESSAGE_BYTES && rest != [])
    ensures !Fits(stream) && dispatched <= Messages(StripBom(stream), [])
    ensures forall resumable, seen :: ResumesSoFar(stream, a, resumable, seen, rest, owed) && resumable ==>
            seen || Resumes(StripBom(stream), [])
  {
    hide StripBom, BomLength, Messages, Resumes;
    if |stream| <= MAX_STREAM_BYTES {
      LineFits(rest, mark, WithLateLf(a, owed).eventBytes);
    }
  }

  lemma LineFits(rest: seq<byte>, mark: nat, used: nat)
    requires LineEnd(rest) + mark > MAX_MESSAGE_BYTES && rest != []
    ensures !WithinBudget(used, rest, mark)
  {
  }

  lemma NotAllPassed(dispatched: seq<seq<byte>>, messages: seq<seq<byte>>, observe: Observer)
    requires var n := |dispatched| - 1;
             n >= 0 && dispatched <= messages && var last := observe(dispatched[..n], dispatched[n]);
               last.Malformed? || last.terminal
    ensures !AllPassed(messages, observe)
  {
    var n := |dispatched| - 1;
    assert messages[n] == dispatched[n] && messages[..n] == dispatched[..n];
  }

  lemma NoLine(a: Assembly, size: nat, before: seq<seq<byte>>, observe: Observer)
    ensures AfterLine(a, [], size) == a && Emitted(a, [], PASSED) == [] && Dispatched(a, []) == [] && !Completes([])
    ensures ReplyTo([], before, observe) == PASSED && Passes(PASSED)
  {
  }

  lemma Observed(dispatched: seq<seq<byte>>, sent: seq<seq<byte>>, reply: Reply, observe: Observer)
    requires AllPassed(dispatched, observe) && |sent| <= 1 && reply == ReplyTo(sent, dispatched, observe)
    ensures Passes(reply) ==> AllPassed(dispatched + sent, observe)
    ensures !Passes(reply) ==> sent != [] && (dispatched + sent)[..|dispatched + sent| - 1] == dispatched &&
                               observe(dispatched, (dispatched + sent)[|dispatched + sent| - 1]) == reply
    ensures Passes(reply) <==> reply.Accepted? && !reply.terminal
  {
    var all := dispatched + sent;
    forall i | 0 <= i < |dispatched| ensures all[i] == dispatched[i] && all[..i] == dispatched[..i] {}
    if sent == [] {
      assert all == dispatched;
    } else {
      assert all[..|dispatched|] == dispatched && all[|dispatched|] == sent[0];
    }
  }

  /** The cuts that agree with what has been read so far. */
  ghost predicate Foresees(cuts: set<nat>, sofar: set<nat>, left: nat) {
    forall p :: p >= left ==> (p in cuts <==> p in sofar)
  }

  lemma StillForeseen(before: set<nat>, left: nat, source: ByteSource)
    requires source.Extends(left, before)
    ensures |source.unread| <= left
    ensures forall cuts :: Foresees(cuts, source.cuts, |source.unread|) ==> Foresees(cuts, before, left)
  {
  }

  lemma Unread(reader: SseReader)
    requires reader.Valid()
    ensures |reader.source.unread| <= |reader.Rest()| + reader.Owed() + reader.Mark()
  {
    hide SseReader.Valid;
  }

  /** All that is not read yet may still be taken in or not, as long as the limit on streams is not reached. */
  lemma UntakenSoon(reader: SseReader, cuts: set<nat>)
    requires reader.Valid() && Foresees(cuts, reader.source.cuts, |reader.source.unread|)
    ensures Untaken(|reader.source.whole|, cuts) <= |reader.source.unread|
  {
    hide NoEndIn, NoCutAfterCr, TakenIn;
    var length, left := |reader.source.whole|, |reader.source.unread|;
    assert left == length || left in cuts;
    if length > MAX_STREAM_BYTES { assert FirstCut(cuts, length - MAX_STREAM_BYTES, length) <= left; }
  }

  lemma UntakenSame(length: nat, cuts: set<nat>, sofar: set<nat>, left: nat)
    requires Foresees(cuts, sofar, left) && length > MAX_STREAM_BYTES && left < length - MAX_STREAM_BYTES
    ensures Untaken(length, cuts) == Untaken(length, sofar)
  {
    SameFirstCut(cuts, sofar, length - MAX_STREAM_BYTES, length);
  }

  lemma {:induction false} SameFirstCut(c: set<nat>, d: set<nat>, p: nat, top: nat)
    requires p <= top && forall q :: p <= q ==> (q in c <==> q in d)
    ensures FirstCut(c, p, top) == FirstCut(d, p, top)
    decreases top - p
  {
    if p < top { SameFirstCut(c, d, p + 1, top); }
  }

  /** Whatever is still to be read, this is what becomes of the response. */
  ghost predicate Concludes(stream: seq<byte>, observe: Observer, e: Effect, sofar: set<nat>, left: nat) {
    forall cuts, untaken: nat :: Foresees(cuts, sofar, left) && untaken <= left ==>
      Play(StripBom(stream), BomLength(stream), FRESH, observe, cuts, untaken) == e
  }

  /** What the loop knows: with what is still to be read, in any places, the response plays on like this. */
  ghost predicate OnCourse(stream: seq<byte>, a: Assembly, written: seq<byte>, rest: seq<byte>, owed: nat, mark: nat,
                           dispatched: seq<seq<byte>>, observe: Observer, sofar: set<nat>, left: nat) {
    forall cuts, untaken: nat :: Foresees(cuts, sofar, left) && untaken <= left ==>
      Plays(stream, a, written, rest, owed, mark, dispatched, observe, cuts, untaken)
  }

  lemma StillOnCourse(stream: seq<byte>, a: Assembly, written: seq<byte>, rest: seq<byte>, owed: nat, mark: nat,
                      dispatched: seq<seq<byte>>, observe: Observer, before: set<nat>, left: nat, source: ByteSource)
    requires OnCourse(stream, a, written, rest, owed, mark, dispatched, observe, before, left) &&
             source.Extends(left, before)
    ensures OnCourse(stream, a, written, rest, owed, mark, dispatched, observe, source.cuts, |source.unread|)
  {
    hide Plays, Foresees;
    StillForeseen(before, left, source);
  }

  /** Whatever the reads so far can go on to be, this is what becomes of the response. */
  ghost predicate Told(source: ByteSource, observe: Observer, e: Effect)
    reads source
  {
    source.Paused() && (forall cuts :: source.Tells(cuts) ==> Outcomes(source.whole, observe, cuts) == e) &&
    exists cuts :: source.Tells(cuts) && Endable(source.whole, cuts)
  }

  /** A conclusion holds of every delivery that agrees with what has been read. */
  lemma Concluded(reader: SseReader, observe: Observer, e: Effect)
    requires reader.Valid() && Concludes(reader.source.whole, observe, e, reader.source.cuts, |reader.source.unread|)
    ensures Told(reader.source, observe, e)
  {
    hide Play, SseReader.Valid, Endable;
    ReadSoFar(reader);
    EndedInTime(reader);
    forall cuts | reader.source.Tells(cuts) ensures Outcomes(reader.source.whole, observe, cuts) == e {
      UntakenSoon(reader, cuts);
    }
  }

  /** Before the limit on streams, the reads so far can go on byte by byte. */
  lemma EndedInTime(reader: SseReader)
    requires reader.Valid()
    ensures exists cuts :: reader.source.Tells(cuts) && Endable(reader.source.whole, cuts)
  {
    hide NoEndIn, NoCutAfterCr, TakenIn, MostUntaken;
    var length, left, least := |reader.source.whole|, |reader.source.unread|, LeastUntaken(reader.source.whole);
    if length <= MAX_STREAM_BYTES {
      assert reader.source.Tells(reader.source.cuts);
    } else {
      var cuts := reader.source.cuts + {least};
      assert least <= left && (least == left ==> left in reader.source.cuts);
      assert reader.source.Tells(cuts);
      assert FirstCut(cuts, least, length) == least;
    }
  }

  /** The same, when the reader gave up because the stream is too long. */
  lemma Overrun(stream: seq<byte>, a: Assembly, written: seq<byte>, rest: seq<byte>, owed: nat, mark: nat,
                dispatched: seq<seq<byte>>, observe: Observer, before: set<nat>, left: nat, source: ByteSource,
                over: nat)
    requires OnCourse(stream, a, written, rest, owed, mark, dispatched, observe, before, left) &&
             source.Extends(left, before)
    requires stream == source.whole && over <= left
    requires RunsOver(stream, source.cuts, rest, mark, over, |source.unread|)
    ensures forall cuts :: source.Tells(cuts) ==>
            Outcomes(stream, observe, cuts) == Effect(written, dispatched, Oversized)
    ensures exists cuts :: source.Tells(cuts) && Endable(stream, cuts)
  {
    hide Plays, Play, YieldsNext, MostUntaken;
    StillForeseen(before, left, source);
    forall cuts | source.Tells(cuts) ensures Outcomes(stream, observe, cuts) == Effect(written, dispatched, Oversized) {
      UntakenSame(|stream|, cuts, source.cuts, |source.unread|);
      PlayedTooLong(stream, a, written, rest, owed, mark, dispatched, observe, cuts, over);
    }
    assert source.Tells(source.cuts) && Endable(stream, source.cuts);
  }

  lemma Overran(stream: seq<byte>, a: Assembly, written: seq<byte>, rest: seq<byte>, owed: nat, mark: nat,
                dispatched: seq<seq<byte>>, observe: Observer, before: set<nat>, left: nat, source: ByteSource)
    requires OnCourse(stream, a, written, rest, owed, mark, dispatched, observe, before, left) &&
             source.Extends(left, before)
    requires stream == source.whole && source.Paused()
    requires exists over: nat :: over <= left && RunsOver(source.whole, source.cuts, rest, mark, over, |source.unread|)
    ensures Told(source, observe, Effect(written, dispatched, Oversized))
  {
    hide Plays, Play, YieldsNext, MostUntaken, OnCourse, RunsOver, ByteSource.Paused, Endable, Outcomes;
    var over: nat :| over <= left && RunsOver(source.whole, source.cuts, rest, mark, over, |source.unread|);
    Overrun(stream, a, written, rest, owed, mark, dispatched, observe, before, left, source, over);
  }

  lemma TooLongConcludes(stream: seq<byte>, a: Assembly, written: seq<byte>, rest: seq<byte>, owed: nat, mark: nat,
                         dispatched: seq<seq<byte>>, observe: Observer, sofar: set<nat>, left: nat)
    requires OnCourse(stream, a, written, rest, owed, mark, dispatched, observe, sofar, left)
    requires rest != [] && LineEnd(rest) + mark > MAX_MESSAGE_BYTES
    ensures Concludes(stream, observe, Effect(written, dispatched, Oversized), sofar, left)
  {
    hide Plays, Play, Foresees, StripBom, BomLength;
    forall cuts, untaken: nat | Foresees(cuts, sofar, left) && untaken <= left
      ensures Play(StripBom(stream), BomLength(stream), FRESH, observe, cuts, untaken) ==
              Effect(written, dispatched, Oversized)
    {
      PlayedTooLong(stream, a, written, rest, owed, mark, dispatched, observe, cuts, untaken);
    }
  }

  lemma ReadOutConcludes(stream: seq<byte>, a: Assembly, written: seq<byte>, mark: nat, dispatched: seq<seq<byte>>,
                         observe: Observer, sofar: set<nat>)
    requires OnCourse(stream, a, written, [], 0, mark, dispatched, observe, sofar, 0) &&
             a.eventBytes <= MAX_MESSAGE_BYTES
    ensures Concludes(stream, observe, Effect(written, dispatched, Finished), sofar, 0)
  {
    hide Plays, Play, Foresees, StripBom, BomLength;
    forall cuts, untaken: nat | Foresees(cuts, sofar, 0) && untaken <= 0
      ensures Play(StripBom(stream), BomLength(stream), FRESH, observe, cuts, untaken) ==
              Effect(written, dispatched, Finished)
    {
      PlayedOut(stream, a, written, mark, dispatched, observe, cuts);
    }
  }

  /** Whichever reads are still to come, the item is cut as it was read. */
  lemma ForeseesCut(rest: seq<byte>, owed: nat, mark: nat, r: Read, next: seq<byte>, late: nat, cuts: set<nat>,
                    sofar: set<nat>, left: nat)
    requires Yields(rest, owed, mark, r, next, late) && left <= |next| + late
    requires Foresees(cuts, sofar, left) && LateAsCut(rest, r.line, late, sofar)
    ensures LateAsCut(rest, r.line, late, cuts)
  {
    hide LineEnd;
  }

  lemma YieldsSooner(rest: seq<byte>, mark: nat, left: nat)
    requires YieldsNext(rest, mark, left)
    ensures forall untaken: nat :: untaken <= left ==> YieldsNext(rest, mark, untaken)
  {
    hide LineEnd;
  }

  /** Where an item leaves the run, whatever is still to be read. */
  lemma ItemCourse(stream: seq<byte>, a: Assembly, written: seq<byte>, rest: seq<byte>, owed: nat, mark: nat, r: Read,
                   next: seq<byte>, late: nat, dispatched: seq<seq<byte>>, observe: Observer, sofar: set<nat>,
                   left: nat)
    requires OnCourse(stream, a, written, rest, owed, mark, dispatched, observe, sofar, left)
    requires Yields(rest, owed, mark, r, next, late) && LateAsCut(rest, r.line, late, sofar) && left <= |next| + late
    requires YieldsNext(rest, mark, left) && a.eventBytes <= MAX_MESSAGE_BYTES
    ensures var b := WithLateLf(a, owed);
            var sent := Dispatched(b, r.line);
            var reply := ReplyTo(sent, dispatched, observe);
            var now := written + LateWritten(a, owed) + Emitted(b, r.line, reply);
            if !SizeAllowed(a, owed, r.size) then
              Concludes(stream, observe, Effect(written + LateWritten(a, owed), dispatched, Oversized), sofar, left)
            else if reply.Malformed? then
              Concludes(stream, observe, Effect(now, dispatched + sent, Refused), sofar, left)
            else if reply.terminal then
              Concludes(stream, observe, Effect(now, dispatched + sent, Answered), sofar, left)
            else
              OnCourse(stream, AfterLine(b, r.line, r.size), now, next, late, 0, dispatched + sent, observe, sofar,
                left)
  {
    hide Plays, Play, Piece, LateAsCut, StripBom, BomLength, Emitted, LateWritten, Dispatched, AfterLine, WithLateLf,
      Foresees, SizeAllowed, YieldsNext;
    YieldsSooner(rest, mark, left);
    forall cuts | Foresees(cuts, sofar, left) ensures LateAsCut(rest, r.line, late, cuts) {
      ForeseesCut(rest, owed, mark, r, next, late, cuts, sofar, left);
    }
    forall cuts, untaken: nat | Foresees(cuts, sofar, left) && untaken <= left
      ensures var b := WithLateLf(a, owed);
              var sent := Dispatched(b, r.line);
              var reply := ReplyTo(sent, dispatched, observe);
              var all := Play(StripBom(stream), BomLength(stream), FRESH, observe, cuts, untaken);
              var now := written + LateWritten(a, owed) + Emitted(b, r.line, reply);
              if !SizeAllowed(a, owed, r.size) then all == Effect(written + LateWritten(a, owed), dispatched, Oversized)
              else if reply.Malformed? then all == Effect(now, dispatched + sent, Refused)
              else if reply.terminal then all == Effect(now, dispatched + sent, Answered)
              else
                Plays(stream, AfterLine(b, r.line, r.size), now, next, late, 0, dispatched + sent, observe, cuts,
                  untaken)
    {
      ItemPlays(stream, a, written, rest, owed, mark, r, next, late, dispatched, observe, cuts, untaken);
    }
  }

  lemma AsCut(rest: seq<byte>, line: seq<byte>, late: nat, cuts: set<nat>)
    ensures LateAsCut(rest, line, late, cuts) <==> (line != [] ==> (late == 1 <==> IsCut(rest, cuts)))
  {
  }

  lemma NoneObserved(observe: Observer)
    ensures AllPassed([], observe)
  {
  }

  /**
    Forwards a response; `expects` says that a result is awaited and `seen` that an
    identifier was seen before. What is written and observed and how it ends is what `Play`
    says of the whole response and the places where reads ended. Whatever pieces it arrives
    in, the messages are those of the response, as far as it went; a response whose messages
    all pass ends normally if it fits and is refused for its size if it does not; and if no cut
    decides, everything is the same.
  */
  method Stream(source: ByteSource, observe: Observer, expects: bool, seen: bool)
    returns (written: seq<byte>, dispatched: seq<seq<byte>>, outcome: Outcome, resumable: bool)
    requires source.cuts == {} && source.unread == source.whole
    modifies source
    ensures source.Paused()
    ensures forall cuts :: source.Tells(cuts) ==>
              Outcomes(source.whole, observe, cuts) == Effect(written, dispatched, EndOf(outcome))
    ensures !Decides(source.whole, observe) ==>
              Effect(written, dispatched, EndOf(outcome)) == Outcomes(source.whole, observe, Latest(source.whole))
    ensures dispatched <= Messages(StripBom(source.whole), [])
    ensures (seen ==> resumable) && (resumable ==> seen || Resumes(StripBom(source.whole), []))
    ensures outcome.Ended? || outcome.EndedWithoutResult? ==>
              Fits(source.whole) && AllPassed(dispatched, observe) &&
              dispatched == Messages(StripBom(source.whole), []) &&
              (resumable <==> seen || Resumes(StripBom(source.whole), [])) &&
              (outcome.EndedWithoutResult? <==> expects && !resumable)
    ensures outcome.SizeExceeded? ==> !Fits(source.whole) && AllPassed(dispatched, observe)
    ensures outcome.TerminalReply? || outcome.MessageRefused? ==>
              var n := |dispatched| - 1;
              n >= 0 && AllPassed(dispatched[..n], observe) &&
              var last := observe(dispatched[..n], dispatched[n]);
              if outcome.MessageRefused? then last.Malformed? else last.Accepted? && last.terminal
    ensures AllPassed(Messages(StripBom(source.whole), []), observe) ==>
              outcome ==
                if !Fits(source.whole) then SizeExceeded
                else if expects && !seen && !Resumes(StripBom(source.whole), []) then EndedWithoutResult
                else Ended
  {
    hide Decides, Outcomes, Endable, Fits, Messages, Resumes, ByteSource.Paused;
    written, dispatched, outcome, resumable := Forward(source, observe, expects, seen);
    ToldOf(source, observe, Effect(written, dispatched, EndOf(outcome)));
  }

  /** If nothing is decided by where reads end, what the reads tell is what holds of every delivery. */
  lemma ToldOf(source: ByteSource, observe: Observer, e: Effect)
    requires Told(source, observe, e)
    ensures !Decides(source.whole, observe) ==> e == Outcomes(source.whole, observe, Latest(source.whole))
  {
    hide Outcomes, Decides, Endable;
    OutcomesIff(source.whole, observe);
  }

  /** How a response ends, and what was observed of it. */
  ghost predicate Verdict(stream: seq<byte>, observe: Observer, expects: bool, seen: bool, dispatched: seq<seq<byte>>,
                          outcome: Outcome, resumable: bool) {
    dispatched <= Messages(StripBom(stream), []) &&
    (seen ==> resumable) && (resumable ==> seen || Resumes(StripBom(stream), [])) &&
    (outcome.Ended? || outcome.EndedWithoutResult? ==>
       Fits(stream) && AllPassed(dispatched, observe) && dispatched == Messages(StripBom(stream), []) &&
       (resumable <==> seen || Resumes(StripBom(stream), [])) &&
       (outcome.EndedWithoutResult? <==> expects && !resumable)) &&
    (outcome.SizeExceeded? ==> !Fits(stream) && AllPassed(dispatched, observe)) &&
    (outcome.TerminalReply? || outcome.MessageRefused? ==>
       var n := |dispatched| - 1;
       n >= 0 && AllPassed(dispatched[..n], observe) &&
       var last := observe(dispatched[..n], dispatched[n]);
       if outcome.MessageRefused? then last.Malformed? else last.Accepted? && last.terminal) &&
    (AllPassed(Messages(StripBom(stream), []), observe) ==>
       outcome ==
         if !Fits(stream) then SizeExceeded
         else if expects && !seen && !Resumes(StripBom(stream), []) then EndedWithoutResult
         else Ended)
  }

  lemma EndedVerdict(stream: seq<byte>, observe: Observer, expects: bool, seen: bool, a: Assembly,
                     dispatched: seq<seq<byte>>, mark: nat, resumable: bool)
    requires Continues(stream, a, dispatched, [], 0, mark) && |stream| <= MAX_STREAM_BYTES &&
             AllPassed(dispatched, observe)
    requires ResumesSoFar(stream, a, resumable, seen, [], 0)
    ensures Verdict(stream, observe, expects, seen, dispatched,
                    if expects && !resumable then EndedWithoutResult else Ended, resumable)
  {
    hide Continues, ResumesSoFar, Messages, Resumes, AllPassed, StripBom;
    ReadOut(stream, a, dispatched, mark);
    assert seen ==> resumable by { SeenStays(stream, a, resumable, seen, [], 0); }
  }

  lemma SeenStays(stream: seq<byte>, a: Assembly, resumable: bool, seen: bool, rest: seq<byte>, owed: nat)
    requires ResumesSoFar(stream, a, resumable, seen, rest, owed)
    ensures (seen ==> resumable) && (resumable ==> seen || Resumes(StripBom(stream), []))
  {
    hide Resumes, StripBom, Lined;
  }

  lemma RefusedVerdict(stream: seq<byte>, observe: Observer, expects: bool, seen: bool, a: Assembly, rest: seq<byte>,
                       owed: nat, dispatched: seq<seq<byte>>, resumable: bool)
    requires !Fits(stream) && dispatched <= Messages(StripBom(stream), []) && AllPassed(dispatched, observe)
    requires ResumesSoFar(stream, a, resumable, seen, rest, owed)
    ensures Verdict(stream, observe, expects, seen, dispatched, SizeExceeded, resumable)
  {
    hide ResumesSoFar, Messages, Resumes, AllPassed, StripBom, Fits;
    SeenStays(stream, a, resumable, seen, rest, owed);
  }

  lemma RepliedVerdict(stream: seq<byte>, observe: Observer, expects: bool, seen: bool, a: Assembly, rest: seq<byte>,
                       owed: nat, before: seq<seq<byte>>, sent: seq<seq<byte>>, reply: Reply, resumable: bool)
    requires AllPassed(before, observe) && |sent| <= 1 && reply == ReplyTo(sent, before, observe) && !Passes(reply)
    requires before + sent <= Messages(StripBom(stream), []) && ResumesSoFar(stream, a, resumable, seen, rest, owed)
    ensures Verdict(stream, observe, expects, seen, before + sent,
                    if reply.Malformed? then MessageRefused else TerminalReply, resumable)
  {
    hide ResumesSoFar, Messages, Resumes, AllPassed, StripBom, Fits;
    SeenStays(stream, a, resumable, seen, rest, owed);
    Observed(before, sent, reply, observe);
    NotAllPassed(before + sent, Messages(StripBom(stream), []), observe);
  }

  /** The loop of `Stream`. */
  method Forward(source: ByteSource, observe: Observer, expects: bool, seen: bool)
    returns (written: seq<byte>, dispatched: seq<seq<byte>>, outcome: Outcome, resumable: bool)
    requires source.cuts == {} && source.unread == source.whole
    modifies source
    ensures Told(source, observe, Effect(written, dispatched, EndOf(outcome)))
    ensures Verdict(source.whole, observe, expects, seen, dispatched, outcome, resumable)
  {
    hide *;
    ghost var stream := source.whole;
    var reader := new SseReader(source);
    written, dispatched, resumable := [], [], seen;
    var a := EMPTY;
    Start(stream, seen, observe);
    AtStart(stream, observe, source.cuts, |source.unread|);
    EndsAre();
    NoneObserved(observe);
    while true
      invariant reader.Valid() && reader.source == source && fresh(reader) && reader.StreamLength() == |stream|
      invariant Continues(stream, a, dispatched, reader.Rest(), reader.Owed(), reader.Mark())
      invariant OnCourse(stream, a, written, reader.Rest(), reader.Owed(), reader.Mark(), dispatched, observe,
                source.cuts, |source.unread|)
      invariant ResumesSoFar(stream, a, resumable, seen, reader.Rest(), reader.Owed())
      invariant AllPassed(dispatched, observe)
      decreases |reader.Rest()| + reader.Owed()
    {
      ghost var rest, owed, mark, cuts, left := reader.Rest(), reader.Owed(), reader.Mark(), source.cuts,
        |source.unread|;
      var r := reader.Next();
      InBudget(stream, a, dispatched, rest, owed, mark);
      if r.StreamTooLong? {
        TooLongOrMany(stream, a, dispatched, rest, owed, mark);
        RefusedVerdict(stream, observe, expects, seen, a, rest, owed, dispatched, resumable);
        Overran(stream, a, written, rest, owed, mark, dispatched, observe, cuts, left, source);
        return written, dispatched, SizeExceeded, resumable;
      }
      StillOnCourse(stream, a, written, rest, owed, mark, dispatched, observe, cuts, left, source);
      ReadSoFar(reader);
      if r.End? {
        EndedVerdict(stream, observe, expects, seen, a, dispatched, mark, resumable);
        ReadOutConcludes(stream, a, written, mark, dispatched, observe, source.cuts);
        Concluded(reader, observe, Effect(written, dispatched, Finished));
        return written, dispatched, if expects && !resumable then EndedWithoutResult else Ended, resumable;
      }
      if r.LineTooLong? {
        TooLongOrMany(stream, a, dispatched, rest, owed, mark);
        RefusedVerdict(stream, observe, expects, seen, a, rest, owed, dispatched, resumable);
        TooLongConcludes(stream, a, written, rest, owed, mark, dispatched, observe, source.cuts, |source.unread|);
        Concluded(reader, observe, Effect(written, dispatched, Oversized));
        return written, dispatched, SizeExceeded, resumable;
      }
      Item(stream, a, dispatched, rest, owed, mark, r, reader.Rest(), reader.Owed());
      ItemDecides(stream, a, resumable, seen, rest, owed, mark, r, reader.Rest(), reader.Owed());
      Unread(reader);
      ghost var next, late := reader.Rest(), reader.Owed();
      AsCut(rest, r.line, late, source.cuts);
      ItemCourse(stream, a, written, rest, owed, mark, r, next, late, dispatched, observe, source.cuts,
        |source.unread|);
      LinesYielded(rest, owed, mark, r, reader.Rest(), reader.Owed());
      NoLine(WithLateLf(a, owed), r.size, dispatched, observe);
      var ok, b, lf := CheckSize(a, r.prefix, r.size);
      written := written + lf;
      if !ok {
        RefusedVerdict(stream, observe, expects, seen, a, rest, owed, dispatched, resumable);
        Concluded(reader, observe, Effect(written, dispatched, Oversized));
        return written, dispatched, SizeExceeded, resumable;
      }
      a := b;
      if r.line != [] {
        var output, sent, reply, id;
        a, output, sent, reply, id := AddLine(b, r.line, r.size, dispatched, observe);
        Observed(dispatched, sent, reply, observe);
        resumable := resumable || id;
        if !reply.Accepted? || reply.terminal {
          RepliedVerdict(stream, observe, expects, seen, a, next, late, dispatched, sent, reply, resumable);
        }
        dispatched := dispatched + sent;
        written := written + output;
        if reply.Malformed? {
          Concluded(reader, observe, Effect(written, dispatched, Refused));
          return written, dispatched, MessageRefused, resumable;
        }
        if reply.terminal {
          Concluded(reader, observe, Effect(written, dispatched, Answered));
          return written, dispatched, TerminalReply, resumable;
        }
      } else {
        assert written == written + Emitted(b, r.line, PASSED) && dispatched == dispatched + Dispatched(b, r.line);
      }
    }
  }

  lemma EndsAre()
    ensures EndOf(Ended) == EndOf(EndedWithoutResult) == Finished && EndOf(TerminalReply) == Answered
    ensures EndOf(SizeExceeded) == Oversized && EndOf(MessageRefused) == Refused
  {
  }

  lemma AtStart(stream: seq<byte>, observe: Observer, cuts: set<nat>, left: nat)
    requires forall cuts, untaken ::
               Plays(stream, EMPTY, [], StripBom(stream), 0, BomLength(stream), [], observe, cuts, untaken)
    ensures OnCourse(stream, EMPTY, [], StripBom(stream), 0, BomLength(stream), [], observe, cuts, left)
  {
    hide Plays;
  }

  lemma InBudget(stream: seq<byte>, a: Assembly, dispatched: seq<seq<byte>>, rest: seq<byte>, owed: nat, mark: nat)
    requires Continues(stream, a, dispatched, rest, owed, mark)
    ensures a.eventBytes <= MAX_MESSAGE_BYTES
  {
  }

  lemma ReadSoFar(reader: SseReader)
    requires reader.Valid()
    ensures reader.source.Paused()
  {
    hide ByteSource.Paused;
  }

  // ----- deliveries that differ ---------------------------------------------------------------

  /**
    A delivery that pauses at every place from `untaken` on, and at `p` not: reads end there
    and, before the limit on streams, nowhere else.
  */
  ghost predicate Paces(stream: seq<byte>, untaken: nat, p: nat) {
    LeastUntaken(stream) <= untaken <= MostUntaken(stream) &&
    (p == 0 || (untaken == LeastUntaken(stream) < p < |stream| &&
      !LongRun(stream, |stream| - p - 1, MAX_MESSAGE_BYTES)))
  }

  function Paced(stream: seq<byte>, untaken: nat, p: nat): set<nat> {
    if p == 0 then UpTo(|stream|, untaken) else UpTo(|stream|, untaken) - {p}
  }

  /** Where nothing but pauses ended a read before the limit on streams. */
  lemma EndsAsPaced(source: ByteSource, untaken: nat, p: nat, q: nat)
    requires source.Paused() && Paces(source.whole, untaken, p) && source.stops == Paced(source.whole, untaken, p)
    requires q in source.cuts && q >= LeastUntaken(source.whole)
    ensures q in source.stops || q == 0
    decreases |source.whole| - q
  {
    hide LongRun, MostUntaken, Excused, AskedForNoMore;
    if q != 0 && q !in source.stops {
      var k := Excuse(source, q);
      var next := q + k;
      if next < |source.whole| { EndsAsPaced(source, untaken, p, next); }
      NoExcuse(source.whole, source.stops, source.cuts, untaken, p, q, k);
    }
  }

  lemma Excuse(source: ByteSource, q: nat) returns (k: nat)
    requires source.Paused() && q in source.cuts && q >= LeastUntaken(source.whole) && q != 0 && q !in source.stops
    ensures AskedForNoMore(source.whole, source.stops, source.cuts, q, k) && k > 0
    ensures q + k == |source.whole| || q + k in source.cuts
  {
    hide LongRun;
    assert Excused(source.whole, source.stops, source.cuts, q);
    k :| AskedForNoMore(source.whole, source.stops, source.cuts, q, k);
  }

  lemma NoExcuse(whole: seq<byte>, stops: set<nat>, cuts: set<nat>, untaken: nat, p: nat, q: nat, k: nat)
    requires Paces(whole, untaken, p) && stops == Paced(whole, untaken, p) && LeastUntaken(whole) <= q < |whole| &&
             q != 0
    requires q !in stops && (q + k in stops || q + k == |whole|)
    ensures !AskedForNoMore(whole, stops, cuts, q, k)
  {
    hide LongRun, MostUntaken;
    if q == p && untaken <= q {
      assert q + 1 in stops || q + 1 == |whole|;
    } else {
      assert q < untaken;
      Untold(whole, untaken);
      assert untaken in stops;
      if q + k == untaken { EarlyEnd(whole, untaken, q, k); }
    }
  }

  lemma Untold(whole: seq<byte>, untaken: nat)
    requires LeastUntaken(whole) < untaken <= MostUntaken(whole)
    ensures untaken < |whole|
  {
  }

  /** The last read within the limit is not followed by another one that does not reach it. */
  lemma EarlyEnd(whole: seq<byte>, untaken: nat, q: nat, k: nat)
    requires LeastUntaken(whole) <= q < untaken <= MostUntaken(whole) && q + k == untaken
    ensures k != MAX_READ && !LongRun(whole, |whole| - untaken, MAX_MESSAGE_BYTES + 1 - k)
  {
    hide LineEnd;
    var end := LAST_LINE + LineEnd(whole[LAST_LINE..]);
    assert whole[LAST_LINE..][LineEnd(whole[LAST_LINE..])] == whole[end];
    assert Terminator(whole[end]);
  }

  /** What a response comes to when it is delivered so. */
  method Delivered(stream: seq<byte>, untaken: nat, p: nat, observe: Observer) returns (e: Effect)
    requires Paces(stream, untaken, p)
    ensures e == Outcomes(stream, observe, Paced(stream, untaken, p))
  {
    hide *;
    var source := new ByteSource(stream, Paced(stream, untaken, p));
    var written, dispatched, outcome, resumable := Stream(source, observe, false, false);
    e := Effect(written, dispatched, EndOf(outcome));
    ToldAsPaced(source, untaken, p, observe, e);
  }

  lemma ToldAsPaced(source: ByteSource, untaken: nat, p: nat, observe: Observer, e: Effect)
    requires source.Paused() && Paces(source.whole, untaken, p) && source.stops == Paced(source.whole, untaken, p)
    requires forall cuts :: source.Tells(cuts) ==> Outcomes(source.whole, observe, cuts) == e
    ensures Outcomes(source.whole, observe, Paced(source.whole, untaken, p)) == e
  {
    hide Outcomes, Excused, MostUntaken, LongRun;
    var least := LeastUntaken(source.whole);
    var told := (set q | q in source.stops && q >= least) + (set q | q in source.cuts && q < least);
    forall q | q >= |source.unread| && q >= least ensures q in source.cuts <==> q in source.stops {
      if q in source.cuts { EndsAsPaced(source, untaken, p, q); }
    }
    assert source.Tells(told);
    SameOutcomes(source.whole, observe, told, source.stops);
  }

  /** Cuts beyond the limit on streams do not matter. */
  lemma SameOutcomes(stream: seq<byte>, observe: Observer, c: set<nat>, d: set<nat>)
    requires forall q :: q >= LeastUntaken(stream) ==> (q in c <==> q in d)
    ensures Outcomes(stream, observe, c) == Outcomes(stream, observe, d)
  {
    hide Play;
    if |stream| > MAX_STREAM_BYTES { SameFirstCut(c, d, |stream| - MAX_STREAM_BYTES, |stream|); }
    PlayLocal(StripBom(stream), BomLength(stream), FRESH, observe, c, d, Untaken(|stream|, c));
  }

  /**
    Where something is decided by the reads, it is so in fact: for every response, whether it
    fits or is refused, of any size, two deliveries of its bytes come to different things.
  */
  method TwoDeliveries(stream: seq<byte>, observe: Observer)
    returns (one: Effect, other: Effect, ghost c: set<nat>, ghost d: set<nat>)
    requires Decides(stream, observe)
    ensures Endable(stream, c) && Endable(stream, d)
    ensures one == Outcomes(stream, observe, c) && other == Outcomes(stream, observe, d) && one != other
  {
    hide *;
    var rest, mark, w := StripBom(stream), BomLength(stream), WindowOf(stream);
    DecidesIs(stream, observe);
    var p, stop := Place(rest, mark, FRESH, observe, w), Stop(rest, mark, FRESH, observe, w);
    c, d := Differing(stream, observe);
    DeliveriesPace(stream, observe);
    one := Delivered(stream, stop, 0, observe);
    other := Delivered(stream, w.least, p, observe);
  }

  lemma DecidesIs(stream: seq<byte>, observe: Observer)
    requires Decides(stream, observe)
    ensures CutDecides(StripBom(stream), BomLength(stream), FRESH, observe, WindowOf(stream))
    ensures WindowOf(stream).least == LeastUntaken(stream)
  {
    hide CutDecides;
  }

  lemma DeliveriesPace(stream: seq<byte>, observe: Observer)
    requires Decides(stream, observe)
    ensures var rest, mark, w := StripBom(stream), BomLength(stream), WindowOf(stream);
            var p, stop := Place(rest, mark, FRESH, observe, w), Stop(rest, mark, FRESH, observe, w);
            Paces(stream, stop, 0) && Paces(stream, w.least, p) &&
            Paced(stream, stop, 0) == UpTo(|stream|, stop) && Paced(stream, w.least, p) == UpTo(|stream|, w.least) - {p}
  {
    hide CutDecides, Place, StopDecides, LongRun, LineEnd, MostUntaken;
    LatestIs(stream);
    var rest, mark, w := StripBom(stream), BomLength(stream), WindowOf(stream);
    assert AtLine(stream, rest, mark);
    PlaceIsFree(stream, rest, mark, FRESH, observe, w);
    if Place(rest, mark, FRESH, observe, w) == 0 { PlaceZero(rest, mark, FRESH, observe, w); }
  }

  /** The answer to request 1, as a result with no contents: {"jsonrpc":"2.0","id":1,"result":{}} */
  const ANSWER: seq<byte> := [123, 34, 106, 115, 111, 110, 114, 112, 99, 34, 58, 34, 50, 46, 48, 34, 44, 34, 105, 100,
    34, 58, 49, 44, 34, 114, 101, 115, 117, 108, 116, 34, 58, 123, 125, 125]

  /** One event that holds the answer, with lines ending in CR LF. */
  const ANSWERED: seq<byte> := DATA + ANSWER + [CR, LF, CR, LF]

  /** The observer of a request: it passes every message, and the answer ends the response. */
  const AWAITS: Observer := (before, message) => Accepted(None, message == ANSWER)

  /** The usual response to a request: its last LF is forwarded or not, as the reads happen to end. */
  lemma AnsweredDecides()
    ensures Fits(ANSWERED) && Decides(ANSWERED, AWAITS)
    ensures Outcomes(ANSWERED, AWAITS, {}) == Effect(ANSWERED, [ANSWER], Answered)
    ensures Outcomes(ANSWERED, AWAITS, {1}) == Effect(ANSWERED[..|ANSWERED| - 1], [ANSWER], Answered)
  {
    AnswerLine();
    AnswerBlank();
    hide LineEnd, LineLength, Play, WithField, ByLine, Least, DecidesHere, GoesOn, Onward;
    var s, blank, t := ANSWERED, [CR, LF], Partial(|ANSWERED| - 2, ANSWERED[..|ANSWERED| - 2], [ANSWER], []);
    assert StripBom(s) == s && BomLength(s) == 0;
    PlayByLine(s, 0, FRESH, AWAITS, {}, 0);
    PlayByLine(s, 0, FRESH, AWAITS, {1}, 0);
    PlayByLine(blank, 0, t, AWAITS, {}, 0);
    PlayByLine(blank, 0, t, AWAITS, {1}, 0);
    assert CutDecides(blank, 0, t, AWAITS, TO_END);
    FittingAnswer();
  }

  /** The line with the answer is a field, and leaves the answer as data. */
  lemma AnswerLine()
    ensures var s, t := ANSWERED, Partial(|ANSWERED| - 2, ANSWERED[..|ANSWERED| - 2], [ANSWER], []);
            LineEnd(s) == |s| - 4 && LineLength(s) == |s| - 2 && s[LineLength(s)..] == [CR, LF] && s[0] != COLON &&
            Least(s, 0, 0) <= MAX_MESSAGE_BYTES && !Breaks(s, 0, 0) && Onward(s, 0, FRESH) == t &&
            GoesOn(s, 0, FRESH, AWAITS) && !DecidesHere(s, 0, FRESH, AWAITS, TO_END) && Yielded(s, 0, 0) &&
            forall cut, lost, tail :: ByLine(s, 0, FRESH, AWAITS, cut, lost, tail) == tail
  {
    var s := ANSWERED;
    var e := |s| - 4;
    assert s[e] == CR && s[e + 1] == LF;
    assert forall i :: 0 <= i < e ==> s[i] == (DATA + ANSWER)[i];
    LineEndIs(s, e);
    LengthFrom(s, e);
    var content := s[..e];
    assert content == DATA + ANSWER && content[5..] == ANSWER && ANSWER[0] == 123;
    assert DataValue(content) == ANSWER && [] + [ANSWER] == [ANSWER] && [] + s[..e + 2] == s[..e + 2];
    hide LineEnd, LineLength;
  }

  /** The blank line completes the event that ends the response. */
  lemma AnswerBlank()
    ensures var blank, t := [CR, LF], Partial(|ANSWERED| - 2, ANSWERED[..|ANSWERED| - 2], [ANSWER], []);
            LineEnd(blank) == 0 && LineLength(blank) == 2 && Least(blank, 0, t.used) <= MAX_MESSAGE_BYTES &&
            DecidesHere(blank, 0, t, AWAITS, TO_END) && Yielded(blank, 0, 0) && IsCut(blank, {1}) &&
            !IsCut(blank, {}) &&
            forall lost, tail ::
              ByLine(blank, 0, t, AWAITS, false, lost, tail) == Effect(ANSWERED, [ANSWER], Answered) &&
              ByLine(blank, 0, t, AWAITS, true, lost, tail) == Effect(ANSWERED[..|ANSWERED| - 1], [ANSWER], Answered)
  {
    var blank: seq<byte> := [CR, LF];
    LineEndIs(blank, 0);
    LengthFrom(blank, 0);
    assert JoinLines([ANSWER]) == ANSWER && ANSWER[0] == 123;
    assert MessageOf([ANSWER]) == [ANSWER] && AWAITS([], ANSWER) == Accepted(None, true);
    assert blank[..0] + [CR] == [CR] && blank[..2] == blank && blank[2..] == [];
    assert ANSWERED[..|ANSWERED| - 2] + [CR] == ANSWERED[..|ANSWERED| - 1];
    assert ANSWERED[..|ANSWERED| - 2] + [CR, LF] == ANSWERED;
    hide LineEnd, LineLength, JoinLines;
  }

  lemma FittingAnswer()
    requires LineEnd(ANSWERED) == |ANSWERED| - 4 && LineLength(ANSWERED) == |ANSWERED| - 2
    requires ANSWERED[LineLength(ANSWERED)..] == [CR, LF] && LineEnd([CR, LF]) == 0 && LineLength([CR, LF]) == 2
    ensures WithinBudget(0, ANSWERED, 0)
  {
    hide LineEnd, LineLength;
    var blank: seq<byte> := [CR, LF];
    assert blank[2..] == [] && WithinBudget(|ANSWERED| - 2, blank, 0);
  }
}

/**
  What a stream of server-sent events means: its size verdict, its messages, and what
  becomes of it when reads end in given places (`Play`). How much of that depends on the
  places is the subject of `SseCuts`.
*/
module SseEvents {
  import opened Wrappers
  import opened SseLines

  const COLON: byte := 58
  const SPACE: byte := 32
  const DATA: seq<byte> := [100, 97, 116, 97, 58]
  const ID: seq<byte> := [105, 100, 58]

  // ----- sizes and messages -----------------------------------------------------------------

  /** Every event and comment fits the limit, when `used` bytes of the current event came before. */
  function WithinBudget(used: nat, rest: seq<byte>, mark: nat): bool
    decreases |rest|
  {
    if rest == [] then true
    else
      var wire := LineLength(rest) + mark;
      var next := rest[LineLength(rest)..];
      used + wire <= MAX_MESSAGE_BYTES &&
      if rest[0] == COLON then WithinBudget(used, next, 0)
      else if LineEnd(rest) > 0 then WithinBudget(used + wire, next, 0)
      else WithinBudget(0, next, 0)
  }

  /** The verdict on the size of a whole stream. */
  predicate Fits(stream: seq<byte>) {
    |stream| <= MAX_STREAM_BYTES && WithinBudget(0, StripBom(stream), BomLength(stream))
  }

  function JoinLines(data: seq<seq<byte>>): seq<byte> {
    if data == [] then [] else if |data| == 1 then data[0] else JoinLines(data[..|data| - 1]) + [LF] + data[|data| - 1]
  }

  function DataValue(content: seq<byte>): seq<byte>
    requires DATA <= content
  {
    if [SPACE] <= content[5..] then content[6..] else content[5..]
  }

  function WithData(data: seq<seq<byte>>, content: seq<byte>): seq<seq<byte>> {
    if DATA <= content then data + [DataValue(content)] else data
  }

  /** The message of a complete event, if it has data. */
  function MessageOf(data: seq<seq<byte>>): seq<seq<byte>> { if JoinLines(data) != [] then [JoinLines(data)] else [] }

  /** The data of each dispatched event, in order; events without data are not dispatched. */
  function Messages(rest: seq<byte>, data: seq<seq<byte>>): seq<seq<byte>>
    decreases |rest|
  {
    if rest == [] then []
    else
      var content, next := rest[..LineEnd(rest)], rest[LineLength(rest)..];
      if rest[0] == COLON then Messages(next, data)
      else if content != [] then Messages(next, WithData(data, content))
      else MessageOf(data) + Messages(next, [])
  }

  // ----- the observer -------------------------------------------------------------------------

  /**
    What the observer makes of one message: it refuses it, or accepts it as it is or
    rewritten, and possibly as the terminal response that ends the stream.
  */
  datatype Reply = Malformed | Accepted(rewritten: Option<seq<byte>>, terminal: bool)

  const PASSED: Reply := Accepted(None, false)

  /** The observer's answer may depend on the messages before. */
  type Observer = (seq<seq<byte>>, seq<byte>) -> Reply

  predicate Passes(r: Reply) { r.Accepted? && !r.terminal }

  ghost predicate AllPassed(messages: seq<seq<byte>>, observe: Observer) {
    forall i :: 0 <= i < |messages| ==> Passes(observe(messages[..i], messages[i]))
  }

  function ReplyTo(sent: seq<seq<byte>>, before: seq<seq<byte>>, observe: Observer): Reply {
    if sent == [] then PASSED else observe(before, sent[0])
  }

  // ----- the bytes that are written -----------------------------------------------------------

  /** The lines of an event that carry neither data nor nothing. */
  function Metadata(event: seq<byte>): seq<byte> {
    if event == [] then []
    else
      var content, line := event[..LineEnd(event)], event[..LineLength(event)];
      (if content != [] && !(DATA <= content) then line else []) + Metadata(event[LineLength(event)..])
  }

  /** An event as it is written: unchanged, or with its data replaced. */
  function Rendered(event: seq<byte>, rewritten: Option<seq<byte>>): seq<byte> {
    if rewritten.None? then event else Metadata(event) + DATA + [SPACE] + rewritten.value + [LF, LF]
  }

  predicate White(b: byte) { b == SPACE || 9 <= b <= 13 }

  /** Some line of the event gives it an identifier, so that the stream can be resumed after it. */
  function HasId(event: seq<byte>): bool {
    if event == [] then false else IdLine(event[..LineEnd(event)]) || HasId(event[LineLength(event)..])
  }

  predicate IdLine(content: seq<byte>) { ID <= content && exists i :: 3 <= i < |content| && !White(content[i]) }

  /** Some complete event of the stream has an identifier. */
  function Resumes(rest: seq<byte>, event: seq<byte>): bool
    decreases |rest|
  {
    if rest == [] then false
    else
      var line, next := rest[..LineLength(rest)], rest[LineLength(rest)..];
      if rest[0] == COLON then Resumes(next, event)
      else if LineEnd(rest) > 0 then Resumes(next, event + line)
      else HasId(event + line) || Resumes(next, [])
  }

  /** What has arrived of the first line when it is handed on: all of it, or all but a late LF. */
  function OnTime(rest: seq<byte>, cuts: set<nat>): seq<byte> {
    if IsCut(rest, cuts) then rest[..LineEnd(rest) + 1] else rest[..LineLength(rest)]
  }

  // ----- what becomes of a response -----------------------------------------------------------

  /** How a response ends: read to its end, answered, refused by the observer, or too large. */
  datatype End = Finished | Answered | Refused | Oversized

  /** The bytes written to the client, the messages handed to the observer, and the end. */
  datatype Effect = Effect(bytes: seq<byte>, messages: seq<seq<byte>>, end: End)

  const TOO_LARGE: Effect := Effect([], [], Oversized)

  function After(bytes: seq<byte>, messages: seq<seq<byte>>, r: Effect): Effect {
    Effect(bytes + r.bytes, messages + r.messages, r.end)
  }

  /** The event that is being read: its counted size, its lines, its data, and the messages before it. */
  datatype Partial = Partial(used: nat, event: seq<byte>, data: seq<seq<byte>>, before: seq<seq<byte>>)

  /**
    What becomes of the rest of a response if reads end at `cuts` and the last `untaken`
    bytes are never taken in. Comments are written at once, events when they are complete, as
    the observer rewrote them. Sizes are checked as the lines arrive; the LF of a CR LF that is
    cut arrives with the next item.
  */
  function Play(rest: seq<byte>, mark: nat, s: Partial, observe: Observer, cuts: set<nat>, untaken: nat): Effect
    decreases |rest|, 0
  {
    if rest == [] then Effect([], [], if untaken == 0 then Finished else Oversized)
    else if !Yielded(rest, mark, untaken) then TOO_LARGE
    else
      var cut, next := IsCut(rest, cuts), rest[LineLength(rest)..];
      var size := s.used + |OnTime(rest, cuts)| + mark;
      if size > MAX_MESSAGE_BYTES then TOO_LARGE
      else if rest[0] == COLON then
        After(OnTime(rest, cuts), [], Rejoin(cut, size, next, s, observe, cuts, untaken))
      else if LineEnd(rest) > 0 then
        var t := WithField(rest, s, size + if cut then 1 else 0);
        if t.used > MAX_MESSAGE_BYTES then TOO_LARGE else Play(next, 0, t, observe, cuts, untaken)
      else
        var sent := MessageOf(s.data);
        match ReplyTo(sent, s.before, observe)
        case Malformed => Effect([], sent, Refused)
        case Accepted(rewritten, terminal) =>
          After(Rendered(s.event + OnTime(rest, cuts), rewritten), sent,
                if terminal then Effect([], [], Answered)
                else Rejoin(cut, size, next, Partial(0, [], [], s.before + sent), observe, cuts, untaken))
  }

  /** After a line that was written: if it was cut, its LF is counted and written when the next item arrives. */
  function Rejoin(cut: bool, size: nat, next: seq<byte>, s: Partial, observe: Observer, cuts: set<nat>, untaken: nat)
    : Effect
    decreases |next|, 1
  {
    if !cut then Play(next, 0, s, observe, cuts, untaken)
    else if !YieldsNext(next, 0, untaken) || size + 1 > MAX_MESSAGE_BYTES then TOO_LARGE
    else After([LF], [], Play(next, 0, s, observe, cuts, untaken))
  }

  function WithField(rest: seq<byte>, s: Partial, used: nat): Partial {
    Partial(used, s.event + rest[..LineLength(rest)], WithData(s.data, rest[..LineEnd(rest)]), s.before)
  }

  const FRESH: Partial := Partial(0, [], [], [])

  /** What becomes of a whole response. */
  function Outcomes(stream: seq<byte>, observe: Observer, cuts: set<nat>): Effect {
    Play(StripBom(stream), BomLength(stream), FRESH, observe, cuts, Untaken(|stream|, cuts))
  }

  /** The bytes forwarded while no message is rewritten and none ends the stream. */
  function Forwarded(rest: seq<byte>, event: seq<byte>): seq<byte>
    decreases |rest|
  {
    if rest == [] then []
    else
      var line, next := rest[..LineLength(rest)], rest[LineLength(rest)..];
      if rest[0] == COLON then line + Forwarded(next, event)
      else if LineEnd(rest) > 0 then Forwarded(next, event + line)
      else event + line + Forwarded(next, [])
  }

  /** Every reply that is given leaves the message as it is. */
  predicate Verbatim(messages: seq<seq<byte>>, before: seq<seq<byte>>, observe: Observer) {
    messages == [] ||
    var reply := observe(before, messages[0]);
    (reply.Accepted? ==> reply.rewritten.None?) &&
      (Passes(reply) ==> Verbatim(messages[1..], before + [messages[0]], observe))
  }

  /** Every reply passes its message. */
  predicate Passing(messages: seq<seq<byte>>, before: seq<seq<byte>>, observe: Observer) {
    messages == [] || (Passes(observe(before, messages[0])) && Passing(messages[1..], before + [messages[0]], observe))
  }

  lemma {:induction false} AllPassedPassing(messages: seq<seq<byte>>, before: seq<seq<byte>>, observe: Observer)
    requires forall i :: 0 <= i < |messages| ==> Passes(observe(before + messages[..i], messages[i]))
    ensures Passing(messages, before, observe)
  {
    if messages != [] {
      assert before + messages[..0] == before;
      var rest := messages[1..];
      forall i | 0 <= i < |rest| ensures Passes(observe(before + [messages[0]] + rest[..i], rest[i])) {
        assert before + [messages[0]] + rest[..i] == before + messages[..i + 1] && rest[i] == messages[i + 1];
      }
      AllPassedPassing(rest, before + [messages[0]], observe);
    }
  }

  // ----- late line feeds ----------------------------------------------------------------------

  /** Bytes up to a line end, or none. */
  predicate Whole(event: seq<byte>) { event == [] || Terminator(event[|event| - 1]) }

  /** A complete line ends in its terminator, and so does an event it is added to. */
  lemma WholeLine(rest: seq<byte>, event: seq<byte>)
    requires rest != [] && LineLength(rest) < |rest|
    ensures Whole(event + rest[..LineLength(rest)])
  {
  }

  lemma FirstLineOf(event: seq<byte>, more: seq<byte>)
    requires event != [] && Whole(event) && more != [] && more[0] == CR
    ensures LineEnd(event + more) == LineEnd(event) && LineLength(event + more) == LineLength(event)
    ensures (event + more)[..LineEnd(event)] == event[..LineEnd(event)]
    ensures (event + more)[..LineLength(event)] == event[..LineLength(event)]
    ensures (event + more)[LineLength(event)..] == event[LineLength(event)..] + more &&
            Whole(event[LineLength(event)..])
  {
    hide LineLength, LineEnd;
    var all := event + more;
    FirstEndStays(event, more);
    LengthFrom(event, LineEnd(event));
    LengthFrom(all, LineEnd(event));
    assert forall i :: 0 <= i < |event| ==> all[i] == event[i];
    assert all[|event|] == CR;
  }

  /** Whether the blank line's LF is there makes no difference to an event's other lines. */
  lemma {:induction false} LateLfIgnored(event: seq<byte>)
    requires Whole(event)
    ensures Metadata(event + [CR]) == Metadata(event + [CR, LF]) && HasId(event + [CR]) == HasId(event + [CR, LF])
  {
    if event == [] {
      BlankIgnored([CR]);
      BlankIgnored([CR, LF]);
      assert event + [CR] == [CR] && event + [CR, LF] == [CR, LF];
    } else {
      LateLfIgnored(event[LineLength(event)..]);
      FirstLineOf(event, [CR]);
      FirstLineOf(event, [CR, LF]);
      SameFirstLine(event, event + [CR]);
      SameFirstLine(event, event + [CR, LF]);
    }
  }

  lemma BlankIgnored(line: seq<byte>)
    requires line == [CR] || line == [CR, LF]
    ensures Metadata(line) == [] && !HasId(line)
  {
    LineEndIs(line, 0);
    assert LineLength(line) == |line|;
    assert line[|line|..] == [];
  }

  lemma SameFirstLine(event: seq<byte>, all: seq<byte>)
    requires event != [] && all != [] && LineEnd(all) == LineEnd(event) && LineLength(all) == LineLength(event)
    requires all[..LineEnd(event)] == event[..LineEnd(event)] && all[..LineLength(event)] == event[..LineLength(event)]
    ensures var content, line := event[..LineEnd(event)], event[..LineLength(event)];
            Metadata(all) == (if content != [] &&
              !(DATA <= content) then line else []) + Metadata(all[LineLength(event)..])
    ensures HasId(all) == (IdLine(event[..LineEnd(event)]) || HasId(all[LineLength(event)..]))
  {
  }

  lemma WholeNext(rest: seq<byte>, event: seq<byte>)
    requires rest != []
    ensures rest[LineLength(rest)..] == [] || Whole(event + rest[..LineLength(rest)])
  {
    hide LineLength, Whole;
    if LineLength(rest) < |rest| { WholeLine(rest, event); }
  }

  lemma NothingWhole()
    ensures Whole([])
  {
  }

  lemma Grouped(x: seq<byte>, y: seq<byte>, z: seq<byte>)
    ensures x + (y + z) == (x + y) + z
  {
  }
}

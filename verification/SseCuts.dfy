/**
  How far what becomes of a response depends on where reads end. `CutDecides` is a condition
  on the response alone; a response has it exactly if some cut makes a difference.
*/
module SseCuts {
  import opened Wrappers
  import opened SseLines
  import opened SseEvents

  /** Where a line may be cut, if the last `untaken` bytes are not taken in: strictly inside what is left. */
  ghost predicate SameCuts(c: set<nat>, d: set<nat>, untaken: nat, left: nat) {
    forall p :: 0 < p < left && untaken <= p ==> (p in c <==> p in d)
  }

  lemma SameFirst(rest: seq<byte>, mark: nat, c: set<nat>, d: set<nat>, untaken: nat)
    requires SameCuts(c, d, untaken, |rest|) && Yielded(rest, mark, untaken)
    ensures OnTime(rest, c) == OnTime(rest, d) && IsCut(rest, c) == IsCut(rest, d)
  {
    hide LineEnd;
  }

  lemma SameCutsNext(rest: seq<byte>, c: set<nat>, d: set<nat>, untaken: nat)
    requires SameCuts(c, d, untaken, |rest|)
    ensures SameCuts(c, d, untaken, |rest[LineLength(rest)..]|)
  {
  }

  /** Only cuts in what is left and taken in matter. */
  lemma {:induction false} PlayLocal(rest: seq<byte>, mark: nat, s: Partial, observe: Observer, c: set<nat>,
                                     d: set<nat>, untaken: nat)
    requires SameCuts(c, d, untaken, |rest|)
    ensures Play(rest, mark, s, observe, c, untaken) == Play(rest, mark, s, observe, d, untaken)
    decreases |rest|
  {
    hide OnTime, Rendered, JoinLines, SameCuts, LineEnd, IsCut, Yielded, YieldsNext, WithField;
    if rest != [] && Yielded(rest, mark, untaken) {
      var next := rest[LineLength(rest)..];
      SameFirst(rest, mark, c, d, untaken);
      SameCutsNext(rest, c, d, untaken);
      var size := s.used + |OnTime(rest, c)| + mark;
      PlayLocal(next, 0, s, observe, c, d, untaken);
      PlayLocal(next, 0, WithField(rest, s, size + if IsCut(rest, c) then 1 else 0), observe, c, d, untaken);
      PlayLocal(next, 0, Partial(0, [], [], s.before + MessageOf(s.data)), observe, c, d, untaken);
    }
  }

  // ----- the condition ------------------------------------------------------------------------

  /** How many bytes of a stream may be left untaken: none, or, of one that is too long, any number between these. */
  datatype Window = Window(least: nat, most: nat)

  const TO_END: Window := Window(0, 0)

  function WindowOf(stream: seq<byte>): Window { Window(LeastUntaken(stream), MostUntaken(stream)) }

  /** A window of some stream. */
  predicate Proper(w: Window) { w.least <= w.most && (w.least == 0 ==> w.most == 0) }

  /** The reads go to the end, or the last of them ends within the window. */
  predicate Within(w: Window, cuts: set<nat>, untaken: nat) {
    w.least <= untaken <= w.most && (untaken > 0 ==> untaken in cuts)
  }

  /** The size counted for the first line before a late LF. */
  function Least(rest: seq<byte>, mark: nat, used: nat): nat {
    used + (if EndsInCrLf(rest) then LineEnd(rest) + 1 else LineLength(rest)) + mark
  }

  /** The first line alone is within the limit, but not with its LF. */
  predicate Breaks(rest: seq<byte>, mark: nat, used: nat) {
    EndsInCrLf(rest) && Least(rest, mark, used) == MAX_MESSAGE_BYTES
  }

  /** The place between the CR and the LF of the first line. */
  function Inside(rest: seq<byte>): nat
    requires LineEnd(rest) < |rest|
  {
    |rest| - LineEnd(rest) - 1
  }

  /**
    What becomes of a response is decided at the first line. The last read may end before the
    line is taken in or after it was written or observed; or the line may be cut before its LF,
    which alone breaks the limit, or is lost because no line comes after it, or is written once
    more after a rewritten event, or not at all after the event of the terminal response.
  */
  predicate DecidesHere(rest: seq<byte>, mark: nat, s: Partial, observe: Observer, w: Window)
    requires rest != []
  {
    if !Yielded(rest, mark, w.most) then rest[0] == COLON || LineEnd(rest) == 0
    else
      EndsInCrLf(rest) && Inside(rest) > w.least &&
      var next := rest[LineLength(rest)..];
      if rest[0] == COLON then Breaks(rest, mark, s.used) || !YieldsNext(next, 0, w.most)
      else if LineEnd(rest) > 0 then false
      else
        Breaks(rest, mark, s.used) ||
        match ReplyTo(MessageOf(s.data), s.before, observe)
        case Malformed => false
        case Accepted(rewritten, terminal) =>
          if terminal then rewritten.None?
          else if rewritten.None? then !YieldsNext(next, 0, w.most)
          else YieldsNext(next, 0, w.least)
  }

  /** The event being read after the first line, which is within the limit. */
  function Onward(rest: seq<byte>, mark: nat, s: Partial): Partial
    requires rest != []
  {
    if rest[0] == COLON then s
    else if LineEnd(rest) > 0 then WithField(rest, s, s.used + LineLength(rest) + mark)
    else Partial(0, [], [], s.before + MessageOf(s.data))
  }

  /** The response is read on after the first line, however that is cut. */
  predicate GoesOn(rest: seq<byte>, mark: nat, s: Partial, observe: Observer)
    requires rest != []
  {
    !Breaks(rest, mark, s.used) &&
    (rest[0] != COLON && LineEnd(rest) == 0 ==> Passes(ReplyTo(MessageOf(s.data), s.before, observe)))
  }

  /** Where reads end decides what becomes of a response, if no limit is reached before. */
  predicate CutDecides(rest: seq<byte>, mark: nat, s: Partial, observe: Observer, w: Window)
    decreases |rest|
  {
    rest != [] && Yielded(rest, mark, w.least) && Least(rest, mark, s.used) <= MAX_MESSAGE_BYTES &&
    (DecidesHere(rest, mark, s, observe, w) ||
     (GoesOn(rest, mark, s, observe) && CutDecides(rest[LineLength(rest)..], 0, Onward(rest, mark, s), observe, w)))
  }

  /** The line is within the limit if it is cut before its LF, and not if it is not cut. */
  predicate BreaksHere(rest: seq<byte>, mark: nat, s: Partial, w: Window) {
    Breaks(rest, mark, s.used) && Inside(rest) > w.least
  }

  /** The first place at which a cut makes a difference, or 0 if it is the end of the last read that does. */
  function Place(rest: seq<byte>, mark: nat, s: Partial, observe: Observer, w: Window): (p: nat)
    requires CutDecides(rest, mark, s, observe, w)
    ensures p < |rest| && (p == 0 || p > w.least)
    decreases |rest|
  {
    if !DecidesHere(rest, mark, s, observe, w) then
      Place(rest[LineLength(rest)..], 0, Onward(rest, mark, s), observe, w)
    else if !Yielded(rest, mark, w.most) && !BreaksHere(rest, mark, s, w) then 0
    else Inside(rest)
  }

  /** The earliest end of the last read makes the difference, not only the cut. */
  predicate StopDecides(rest: seq<byte>, mark: nat, s: Partial, observe: Observer, w: Window)
    requires CutDecides(rest, mark, s, observe, w)
    decreases |rest|
  {
    if !DecidesHere(rest, mark, s, observe, w) then
      StopDecides(rest[LineLength(rest)..], 0, Onward(rest, mark, s), observe, w)
    else if BreaksHere(rest, mark, s, w) then false
    else if !Yielded(rest, mark, w.most) then true
    else
      (rest[0] == COLON ||
       match ReplyTo(MessageOf(s.data), s.before, observe)
       case Malformed => false
       case Accepted(rewritten, terminal) => !terminal && rewritten.None?)
  }

  function Stop(rest: seq<byte>, mark: nat, s: Partial, observe: Observer, w: Window): nat
    requires CutDecides(rest, mark, s, observe, w)
  {
    if StopDecides(rest, mark, s, observe, w) then w.most else w.least
  }

  // ----- one line -----------------------------------------------------------------------------

  /** What is there of the first line when it is handed on, and what its late LF adds to the bytes. */
  function Front(rest: seq<byte>, cut: bool): seq<byte> {
    if cut then rest[..LineEnd(rest)] + [CR] else rest[..LineLength(rest)]
  }

  /** After a line that was written; `lost` says that no line comes after it any more. */
  function Rejoined(cut: bool, breaks: bool, lost: bool, tail: Effect): Effect {
    if !cut then tail else if lost || breaks then TOO_LARGE else After([LF], [], tail)
  }

  /** What becomes of a response, given what becomes of what is left after the first line. */
  function ByLine(rest: seq<byte>, mark: nat, s: Partial, observe: Observer, cut: bool, lost: bool,
                  tail: Effect): Effect
    requires rest != []
  {
    var breaks := Breaks(rest, mark, s.used);
    if breaks && !cut then TOO_LARGE
    else if rest[0] == COLON then After(Front(rest, cut), [], Rejoined(cut, breaks, lost, tail))
    else if LineEnd(rest) > 0 then if breaks then TOO_LARGE else tail
    else
      var sent := MessageOf(s.data);
      match ReplyTo(sent, s.before, observe)
      case Malformed => Effect([], sent, Refused)
      case Accepted(rewritten, terminal) =>
        After(Rendered(s.event + Front(rest, cut), rewritten), sent,
              if terminal then Effect([], [], Answered) else Rejoined(cut, breaks, lost, tail))
  }

  function Lost(rest: seq<byte>, untaken: nat): bool { !YieldsNext(rest[LineLength(rest)..], 0, untaken) }

  lemma FrontIs(rest: seq<byte>, cuts: set<nat>)
    ensures OnTime(rest, cuts) == Front(rest, IsCut(rest, cuts)) &&
            |OnTime(rest, cuts)| == LineLength(rest) - if IsCut(rest, cuts) then 1 else 0
    ensures EndsInCrLf(rest) ==> rest[..LineLength(rest)] == rest[..LineEnd(rest)] + [CR] + [LF]
  {
    hide LineEnd;
    if EndsInCrLf(rest) { LengthFrom(rest, LineEnd(rest)); }
  }

  /** `Play` in these terms, for a line that is within the limit. */
  lemma PlayByLine(rest: seq<byte>, mark: nat, s: Partial, observe: Observer, cuts: set<nat>, untaken: nat)
    requires rest != [] && Yielded(rest, mark, untaken) && Least(rest, mark, s.used) <= MAX_MESSAGE_BYTES
    ensures Play(rest, mark, s, observe, cuts, untaken) ==
            ByLine(rest, mark, s, observe, IsCut(rest, cuts), Lost(rest, untaken),
                   Play(rest[LineLength(rest)..], 0, Onward(rest, mark, s), observe, cuts, untaken))
  {
    hide LineEnd, LineLength, Front, OnTime, Rendered, JoinLines, YieldsNext, Yielded, WithData, IsCut;
    FrontIs(rest, cuts);
    SizeOf(rest, mark, s.used, cuts);
  }

  lemma SizeOf(rest: seq<byte>, mark: nat, used: nat, cuts: set<nat>)
    requires Least(rest, mark, used) <= MAX_MESSAGE_BYTES
    ensures var size := used + |OnTime(rest, cuts)| + mark;
            IsCut(rest, cuts) ==> size <= MAX_MESSAGE_BYTES &&
                                  (size + 1 > MAX_MESSAGE_BYTES <==> Breaks(rest, mark, used))
    ensures var size := used + |OnTime(rest, cuts)| + mark;
            !IsCut(rest, cuts) ==> size == used + LineLength(rest) + mark &&
                                   (size > MAX_MESSAGE_BYTES <==> Breaks(rest, mark, used))
    ensures used + LineLength(rest) + mark > MAX_MESSAGE_BYTES <==> Breaks(rest, mark, used)
    ensures used + |OnTime(rest, cuts)| + mark + (if IsCut(rest, cuts) then 1 else 0) == used + LineLength(rest) + mark
  {
    hide LineEnd;
    FrontIs(rest, cuts);
  }

  /** A line that does not come, or is too large even without its LF, ends everything. */
  lemma PlayStops(rest: seq<byte>, mark: nat, s: Partial, observe: Observer, cuts: set<nat>, untaken: nat)
    requires rest != []
    requires !Yielded(rest, mark, untaken) || Least(rest, mark, s.used) > MAX_MESSAGE_BYTES
    ensures Play(rest, mark, s, observe, cuts, untaken) == TOO_LARGE
  {
    hide LineEnd, OnTime, Yielded;
    FrontIs(rest, cuts);
    LeastFront(rest);
  }

  lemma LeastFront(rest: seq<byte>)
    ensures EndsInCrLf(rest) ==> LineLength(rest) == LineEnd(rest) + 2
    ensures forall cuts :: IsCut(rest, cuts) ==> EndsInCrLf(rest)
  {
  }

  lemma RenderedSize(event: seq<byte>, rewritten: Option<seq<byte>>)
    ensures event != [] ==> Rendered(event, rewritten) != []
    ensures Whole(event) && rewritten.Some? ==>
            Rendered(event + [CR], rewritten) == Rendered(event + [CR, LF], rewritten)
  {
    hide Metadata;
    if Whole(event) { LateLfIgnored(event); }
  }

  lemma BlankFronts(rest: seq<byte>)
    requires EndsInCrLf(rest) && LineEnd(rest) == 0
    ensures Front(rest, true) == [CR] && Front(rest, false) == [CR, LF]
  {
    FrontIs(rest, {});
    assert rest[..0] + [CR] == [CR];
  }

  /** Where nothing is decided, a cut of the first line makes no difference. */
  lemma SameByLine(rest: seq<byte>, mark: nat, s: Partial, observe: Observer, w: Window, untaken: nat, tail: Effect)
    requires EndsInCrLf(rest) && Yielded(rest, mark, w.most) && !DecidesHere(rest, mark, s, observe, w) &&
             Whole(s.event)
    requires Inside(rest) > w.least && w.least <= untaken <= w.most && (Lost(rest, untaken) ==> tail == TOO_LARGE)
    ensures ByLine(rest, mark, s, observe, true, Lost(rest, untaken), tail) ==
            ByLine(rest, mark, s, observe, false, Lost(rest, untaken), tail)
  {
    hide LineEnd, LineLength, Front, Rendered, JoinLines, Whole, Yielded, YieldsNext;
    FrontIs(rest, {});
    LastByte(rest);
    YieldsMore(rest[LineLength(rest)..], 0, w.least, untaken, w.most);
    if rest[0] == COLON {
      Grouped(Front(rest, true), [LF], tail.bytes);
    } else if LineEnd(rest) == 0 {
      BlankFronts(rest);
      var reply := ReplyTo(MessageOf(s.data), s.before, observe);
      if reply.Accepted? {
        RenderedSize(s.event, reply.rewritten);
        VerbatimIs(s.event, tail.bytes);
      }
    }
  }

  lemma YieldsMore(rest: seq<byte>, mark: nat, least: nat, untaken: nat, most: nat)
    requires least <= untaken <= most
    ensures YieldsNext(rest, mark, most) ==> YieldsNext(rest, mark, untaken)
    ensures YieldsNext(rest, mark, untaken) ==> YieldsNext(rest, mark, least)
  {
    hide LineEnd;
  }

  lemma LastByte(rest: seq<byte>)
    requires EndsInCrLf(rest)
    ensures Front(rest, false) == Front(rest, true) + [LF] && |Front(rest, true)| > 0
  {
    FrontIs(rest, {});
  }

  lemma VerbatimIs(event: seq<byte>, more: seq<byte>)
    ensures forall e :: Rendered(e, None) == e
    ensures (event + [CR]) + ([LF] + more) == (event + [CR, LF]) + more
  {
  }

  /** Where the cut decides, the first line makes a difference. */
  lemma OtherByLine(rest: seq<byte>, mark: nat, s: Partial, observe: Observer, w: Window, stop: nat, tail: Effect,
                    other: Effect)
    requires rest != [] && DecidesHere(rest, mark, s, observe, w) && Whole(s.event) && Yielded(rest, mark, w.most)
    requires CutDecides(rest, mark, s, observe, w) && stop == Stop(rest, mark, s, observe, w)
    requires !Breaks(rest, mark, s.used)
    requires !StopDecides(rest, mark, s, observe, w) ==> tail == other
    ensures ByLine(rest, mark, s, observe, true, Lost(rest, stop), tail) !=
            ByLine(rest, mark, s, observe, false, Lost(rest, w.least), other)
  {
    hide LineEnd, LineLength, Front, Rendered, JoinLines, Whole, Yielded, YieldsNext;
    LastByte(rest);
    if rest[0] != COLON {
      BlankFronts(rest);
      var reply := ReplyTo(MessageOf(s.data), s.before, observe);
      if reply.Accepted? {
        RenderedSize(s.event, reply.rewritten);
        RenderedSize(s.event + [CR], reply.rewritten);
        VerbatimIs(s.event, tail.bytes);
        VerbatimIs(s.event, other.bytes);
        var cut := ByLine(rest, mark, s, observe, true, Lost(rest, stop), tail).bytes;
        var uncut := ByLine(rest, mark, s, observe, false, Lost(rest, w.least), other).bytes;
        if reply.rewritten.Some? {
          assert |cut| == |uncut| + 1;
        } else {
          assert |cut| == |s.event| + 1 && |uncut| >= |s.event| + 2;
        }
      }
    } else {
      assert |ByLine(rest, mark, s, observe, true, Lost(rest, stop), tail).bytes| == |Front(rest, true)|;
    }
  }

  /** Where the end of the last read decides, the first line makes a difference. */
  lemma SomethingByLine(rest: seq<byte>, mark: nat, s: Partial, observe: Observer, cut: bool, lost: bool, tail: Effect)
    requires rest != [] && (rest[0] == COLON || LineEnd(rest) == 0) && (Breaks(rest, mark, s.used) ==> cut) &&
             (cut ==> EndsInCrLf(rest))
    ensures ByLine(rest, mark, s, observe, cut, lost, tail) != TOO_LARGE
  {
    hide LineEnd, LineLength, Rendered, JoinLines, Breaks;
    FrontSome(rest, cut);
    if rest[0] != COLON {
      var reply := ReplyTo(MessageOf(s.data), s.before, observe);
      if reply.Accepted? { RenderedSize(s.event + Front(rest, cut), reply.rewritten); }
    }
  }

  lemma FrontSome(rest: seq<byte>, cut: bool)
    requires rest != []
    ensures Front(rest, cut) != []
  {
  }

  /** What differs later makes a difference, if the response goes on. */
  lemma OtherTail(rest: seq<byte>, mark: nat, s: Partial, observe: Observer, cut: bool, tail: Effect, other: Effect)
    requires rest != [] && GoesOn(rest, mark, s, observe) && tail != other
    ensures ByLine(rest, mark, s, observe, cut, false, tail) != ByLine(rest, mark, s, observe, cut, false, other)
  {
    hide LineEnd, LineLength, Front, Rendered, JoinLines;
    forall bytes, messages ensures After(bytes, messages, tail) != After(bytes, messages, other) {
      AfterDiffers(bytes, messages, tail, other);
    }
    assert Rejoined(cut, false, false, tail) != Rejoined(cut, false, false, other);
    forall bytes, messages
      ensures After(bytes, messages, Rejoined(cut, false, false, tail)) !=
              After(bytes, messages, Rejoined(cut, false, false, other))
    {
      AfterDiffers(bytes, messages, Rejoined(cut, false, false, tail), Rejoined(cut, false, false, other));
    }
  }

  lemma AfterDiffers(bytes: seq<byte>, messages: seq<seq<byte>>, r: Effect, t: Effect)
    requires r != t
    ensures After(bytes, messages, r) != After(bytes, messages, t)
  {
    assert (bytes + r.bytes)[|bytes|..] == r.bytes && (bytes + t.bytes)[|bytes|..] == t.bytes;
    assert (messages + r.messages)[|messages|..] == r.messages && (messages + t.messages)[|messages|..] == t.messages;
  }

  // ----- the theorem --------------------------------------------------------------------------

  lemma WholeOnward(rest: seq<byte>, mark: nat, s: Partial)
    requires rest != [] && Whole(s.event)
    ensures rest[LineLength(rest)..] == [] || Whole(Onward(rest, mark, s).event)
  {
    hide LineEnd, LineLength, Whole, JoinLines;
    WholeNext(rest, s.event);
    NothingWhole();
  }

  /** Where the next line does not come, nothing else does. */
  lemma LostStops(rest: seq<byte>, s: Partial, observe: Observer, cuts: set<nat>, untaken: nat)
    requires Lost(rest, untaken)
    ensures Play(rest[LineLength(rest)..], 0, s, observe, cuts, untaken) == TOO_LARGE
  {
    hide LineEnd, LineLength, Yielded;
    var next := rest[LineLength(rest)..];
    if next != [] { PlayStops(next, 0, s, observe, cuts, untaken); }
  }

  /** A line that is not taken in is not followed by one that is. */
  lemma LostLater(rest: seq<byte>, mark: nat, least: nat, untaken: nat)
    requires Yielded(rest, mark, least) && !Yielded(rest, mark, untaken)
    ensures Lost(rest, untaken)
  {
    hide LineEnd;
  }

  /** If the LF of the first line can be taken in, nothing forces a cut before it; otherwise it is always cut. */
  lemma AlwaysCut(rest: seq<byte>, mark: nat, w: Window, cuts: set<nat>, untaken: nat)
    requires Proper(w) && Within(w, cuts, untaken) && Yielded(rest, mark, w.most) && EndsInCrLf(rest) &&
             Inside(rest) <= w.least
    ensures IsCut(rest, cuts)
  {
    hide LineEnd;
  }

  lemma CutInCrLf(rest: seq<byte>, cuts: set<nat>)
    ensures IsCut(rest, cuts) ==> EndsInCrLf(rest)
  {
  }

  /** A response that nothing decides comes to the same wherever reads end. */
  lemma {:induction false} Unaffected(rest: seq<byte>, mark: nat, s: Partial, observe: Observer, w: Window,
                                      cuts: set<nat>, untaken: nat)
    requires Proper(w) && Within(w, cuts, untaken) && (rest == [] || Whole(s.event)) &&
             !CutDecides(rest, mark, s, observe, w)
    ensures Play(rest, mark, s, observe, cuts, untaken) == Play(rest, mark, s, observe, {w.least}, w.least)
    decreases |rest|
  {
    hide LineEnd, LineLength, Whole, JoinLines, Rendered, OnTime, IsCut, ByLine, DecidesHere, GoesOn, Play, Onward,
      Least, Lost, Yielded;
    YieldsMore(rest, mark, w.least, untaken, w.most);
    if rest == [] {
      NothingToPlay(mark, s, observe, cuts, untaken);
      NothingToPlay(mark, s, observe, {w.least}, w.least);
    } else if !Yielded(rest, mark, w.least) || Least(rest, mark, s.used) > MAX_MESSAGE_BYTES {
      PlayStops(rest, mark, s, observe, cuts, untaken);
      PlayStops(rest, mark, s, observe, {w.least}, w.least);
    } else {
      var next, t := rest[LineLength(rest)..], Onward(rest, mark, s);
      WholeOnward(rest, mark, s);
      if GoesOn(rest, mark, s, observe) { Unaffected(next, 0, t, observe, w, cuts, untaken); }
      if Yielded(rest, mark, w.most) {
        UnaffectedLine(rest, mark, s, observe, w, cuts, untaken);
      } else {
        UnaffectedField(rest, mark, s, observe, w, cuts, untaken);
      }
    }
  }

  lemma NothingToPlay(mark: nat, s: Partial, observe: Observer, cuts: set<nat>, untaken: nat)
    ensures Play([], mark, s, observe, cuts, untaken) == Effect([], [], if untaken == 0 then Finished else Oversized)
  {
  }

  lemma UnaffectedLine(rest: seq<byte>, mark: nat, s: Partial, observe: Observer, w: Window, cuts: set<nat>,
                       untaken: nat)
    requires Proper(w) && Within(w, cuts, untaken) && rest != [] && Whole(s.event)
    requires Yielded(rest, mark, w.most) && Least(rest, mark, s.used) <= MAX_MESSAGE_BYTES &&
             !DecidesHere(rest, mark, s, observe, w)
    requires GoesOn(rest, mark, s, observe) ==>
               Play(rest[LineLength(rest)..], 0, Onward(rest, mark, s), observe, cuts, untaken) ==
               Play(rest[LineLength(rest)..], 0, Onward(rest, mark, s), observe, {w.least}, w.least)
    ensures Play(rest, mark, s, observe, cuts, untaken) == Play(rest, mark, s, observe, {w.least}, w.least)
  {
    hide LineEnd, LineLength, Whole, JoinLines, Rendered, OnTime, IsCut, ByLine, DecidesHere, GoesOn, Play, Onward,
      Least, Lost, Yielded;
    var next, t, fixed := rest[LineLength(rest)..], Onward(rest, mark, s), {w.least};
    YieldsMore(rest, mark, w.least, untaken, w.most);
    PlayByLine(rest, mark, s, observe, cuts, untaken);
    PlayByLine(rest, mark, s, observe, fixed, w.least);
    CutInCrLf(rest, cuts);
    CutInCrLf(rest, fixed);
    var tail, other := Play(next, 0, t, observe, cuts, untaken), Play(next, 0, t, observe, fixed, w.least);
    if Lost(rest, untaken) { LostStops(rest, t, observe, cuts, untaken); }
    if Lost(rest, w.least) { LostStops(rest, t, observe, fixed, w.least); }
    if EndsInCrLf(rest) && Inside(rest) <= w.least {
      AlwaysCut(rest, mark, w, cuts, untaken);
      AlwaysCut(rest, mark, w, fixed, w.least);
      LostAtEnd(rest, mark, w, untaken);
    } else if EndsInCrLf(rest) {
      SameByLine(rest, mark, s, observe, w, untaken, tail);
      SameByLine(rest, mark, s, observe, w, w.least, other);
      Uncut(rest, mark, s, observe, Lost(rest, untaken), Lost(rest, w.least), tail);
      if !GoesOn(rest, mark, s, observe) { Ends(rest, mark, s, observe, w, false, Lost(rest, w.least), tail, other); }
    } else {
      Uncut(rest, mark, s, observe, Lost(rest, untaken), Lost(rest, w.least), tail);
      if !GoesOn(rest, mark, s, observe) { Ends(rest, mark, s, observe, w, false, Lost(rest, w.least), tail, other); }
    }
  }

  lemma LostAtEnd(rest: seq<byte>, mark: nat, w: Window, untaken: nat)
    requires w.least <= untaken <= w.most && Yielded(rest, mark, w.most) && EndsInCrLf(rest) && Inside(rest) <= w.least
    ensures Lost(rest, untaken) && untaken == w.least
  {
    hide LineEnd;
  }

  lemma Uncut(rest: seq<byte>, mark: nat, s: Partial, observe: Observer, lost: bool, otherwise: bool, tail: Effect)
    requires rest != []
    ensures ByLine(rest, mark, s, observe, false, lost, tail) == ByLine(rest, mark, s, observe, false, otherwise, tail)
  {
    hide LineEnd, LineLength, Front, Rendered, JoinLines;
  }

  /** A field writes nothing, so that it makes no difference whether it is taken in. */
  lemma UnaffectedField(rest: seq<byte>, mark: nat, s: Partial, observe: Observer, w: Window, cuts: set<nat>,
                        untaken: nat)
    requires Proper(w) && Within(w, cuts, untaken) && rest != [] && Yielded(rest, mark, w.least)
    requires !Yielded(rest, mark, w.most) && Least(rest, mark, s.used) <= MAX_MESSAGE_BYTES &&
             !DecidesHere(rest, mark, s, observe, w)
    requires GoesOn(rest, mark, s, observe) ==>
               Play(rest[LineLength(rest)..], 0, Onward(rest, mark, s), observe, cuts, untaken) ==
               Play(rest[LineLength(rest)..], 0, Onward(rest, mark, s), observe, {w.least}, w.least)
    ensures Play(rest, mark, s, observe, cuts, untaken) == Play(rest, mark, s, observe, {w.least}, w.least)
  {
    FieldPlays(rest, mark, s, observe, w, cuts, untaken);
    FieldPlays(rest, mark, s, observe, w, {w.least}, w.least);
    hide LineEnd, LineLength, Whole, JoinLines, Rendered, OnTime, IsCut, Play, Onward, Least, Yielded;
  }

  lemma FieldPlays(rest: seq<byte>, mark: nat, s: Partial, observe: Observer, w: Window, cuts: set<nat>, untaken: nat)
    requires rest != [] && rest[0] != COLON && LineEnd(rest) > 0 && Yielded(rest, mark, w.least)
    requires Least(rest, mark, s.used) <= MAX_MESSAGE_BYTES
    ensures Play(rest, mark, s, observe, cuts, untaken) ==
            if Breaks(rest, mark, s.used) then TOO_LARGE
            else Play(rest[LineLength(rest)..], 0, Onward(rest, mark, s), observe, cuts, untaken)
  {
    hide LineEnd, LineLength, JoinLines, Rendered, OnTime, IsCut, Play, Onward, Least, Yielded, Lost, Breaks;
    if Yielded(rest, mark, untaken) {
      PlayByLine(rest, mark, s, observe, cuts, untaken);
    } else {
      PlayStops(rest, mark, s, observe, cuts, untaken);
      LostLater(rest, mark, w.least, untaken);
      LostStops(rest, Onward(rest, mark, s), observe, cuts, untaken);
    }
  }

  /** Where the response does not go on, what would follow does not matter. */
  lemma Ends(rest: seq<byte>, mark: nat, s: Partial, observe: Observer, w: Window, cut: bool, lost: bool, tail: Effect,
             other: Effect)
    requires rest != [] && !GoesOn(rest, mark, s, observe)
    ensures !cut ==> ByLine(rest, mark, s, observe, cut, lost, tail) == ByLine(rest, mark, s, observe, cut, lost, other)
  {
    hide LineEnd, LineLength, Front, Rendered, JoinLines;
  }

  /** Whatever other cuts there are, the first deciding place and the end of the last read make a difference. */
  lemma {:induction false} Decided(rest: seq<byte>, mark: nat, s: Partial, observe: Observer, w: Window, c: set<nat>)
    requires Proper(w) && Whole(s.event) && CutDecides(rest, mark, s, observe, w) && (w.least > 0 ==> w.least in c)
    ensures var p, stop := Place(rest, mark, s, observe, w), Stop(rest, mark, s, observe, w);
            Play(rest, mark, s, observe, c + {p}, stop) != Play(rest, mark, s, observe, c - {p}, w.least)
    decreases |rest|
  {
    hide LineEnd, LineLength, Whole, JoinLines, Rendered, OnTime, IsCut, ByLine, DecidesHere, GoesOn, Play, Onward,
      Least, Lost, Yielded;
    if DecidesHere(rest, mark, s, observe, w) {
      DecidedHere(rest, mark, s, observe, w, c);
    } else {
      WholeOnward(rest, mark, s);
      Decided(rest[LineLength(rest)..], 0, Onward(rest, mark, s), observe, w, c);
      DecidedLater(rest, mark, s, observe, w, c);
    }
  }

  lemma DecidedLater(rest: seq<byte>, mark: nat, s: Partial, observe: Observer, w: Window, c: set<nat>)
    requires Proper(w) && CutDecides(rest, mark, s, observe, w) && !DecidesHere(rest, mark, s, observe, w)
    requires var p, stop := Place(rest, mark, s, observe, w), Stop(rest, mark, s, observe, w);
             Play(rest[LineLength(rest)..], 0, Onward(rest, mark, s), observe, c + {p}, stop) !=
             Play(rest[LineLength(rest)..], 0, Onward(rest, mark, s), observe, c - {p}, w.least)
    ensures var p, stop := Place(rest, mark, s, observe, w), Stop(rest, mark, s, observe, w);
            Play(rest, mark, s, observe, c + {p}, stop) != Play(rest, mark, s, observe, c - {p}, w.least)
  {
    var p, stop := Place(rest, mark, s, observe, w), Stop(rest, mark, s, observe, w);
    NotCutHere(rest, c, p);
    if !Yielded(rest, mark, w.most) {
      hide LineEnd, LineLength, JoinLines, Rendered, OnTime, IsCut, ByLine, Play, Onward, Least, Lost, Yielded;
      FieldPlays(rest, mark, s, observe, w, c + {p}, stop);
      FieldPlays(rest, mark, s, observe, w, c - {p}, w.least);
    } else {
      NotLost(rest, mark, s, observe, w, c - {p}, stop);
      hide LineEnd, LineLength, JoinLines, Rendered, OnTime, IsCut, ByLine, DecidesHere, GoesOn, Play, Onward, Least,
        Lost, Yielded;
      YieldsMore(rest, mark, w.least, stop, w.most);
      var next, t, cut := rest[LineLength(rest)..], Onward(rest, mark, s), IsCut(rest, c - {p});
      var tail, other := Play(next, 0, t, observe, c + {p}, stop), Play(next, 0, t, observe, c - {p}, w.least);
      PlayByLine(rest, mark, s, observe, c + {p}, stop);
      PlayByLine(rest, mark, s, observe, c - {p}, w.least);
      OtherTail(rest, mark, s, observe, cut, tail, other);
      if !cut || (rest[0] != COLON && LineEnd(rest) > 0) {
        Uncared(rest, mark, s, observe, cut, Lost(rest, stop), tail);
        Uncared(rest, mark, s, observe, cut, Lost(rest, w.least), other);
      }
    }
  }

  lemma Uncared(rest: seq<byte>, mark: nat, s: Partial, observe: Observer, cut: bool, lost: bool, tail: Effect)
    requires rest != [] && (!cut || (rest[0] != COLON && LineEnd(rest) > 0))
    ensures ByLine(rest, mark, s, observe, cut, lost, tail) == ByLine(rest, mark, s, observe, cut, false, tail)
  {
    hide LineEnd, LineLength, Front, Rendered, JoinLines;
  }

  /** A line that was written, cut, and is not decided here, is not the last one. */
  lemma NotLost(rest: seq<byte>, mark: nat, s: Partial, observe: Observer, w: Window, c: set<nat>, stop: nat)
    requires Proper(w) && CutDecides(rest, mark, s, observe, w) && !DecidesHere(rest, mark, s, observe, w)
    requires w.least <= stop <= w.most && Yielded(rest, mark, w.most)
    ensures IsCut(rest, c) && (rest[0] == COLON || LineEnd(rest) == 0) ==> !Lost(rest, stop) && !Lost(rest, w.least)
  {
    hide LineEnd, LineLength, JoinLines, Least, Onward;
    CutInCrLf(rest, c);
    YieldsMore(rest[LineLength(rest)..], 0, w.least, stop, w.most);
    if EndsInCrLf(rest) && Inside(rest) <= w.least { LostAtEnd(rest, mark, w, w.least); }
  }

  lemma NotCutHere(rest: seq<byte>, c: set<nat>, p: nat)
    requires p == 0 || p < |rest[LineLength(rest)..]|
    ensures IsCut(rest, c + {p}) == IsCut(rest, c - {p})
  {
    hide LineEnd;
  }

  lemma CutHere(rest: seq<byte>, c: set<nat>, least: nat)
    requires EndsInCrLf(rest)
    ensures var p := Inside(rest);
            IsCut(rest, c + {p}) && !IsCut(rest, c - {p}) &&
              SameCuts(c + {p}, c - {p}, least, |rest[LineLength(rest)..]|)
  {
    hide LineEnd;
  }

  lemma DecidedHere(rest: seq<byte>, mark: nat, s: Partial, observe: Observer, w: Window, c: set<nat>)
    requires Proper(w) && Whole(s.event) && CutDecides(rest, mark, s, observe, w) &&
             DecidesHere(rest, mark, s, observe, w)
    requires w.least > 0 ==> w.least in c
    ensures var p, stop := Place(rest, mark, s, observe, w), Stop(rest, mark, s, observe, w);
            Play(rest, mark, s, observe, c + {p}, stop) != Play(rest, mark, s, observe, c - {p}, w.least)
  {
    var p, stop := Place(rest, mark, s, observe, w), Stop(rest, mark, s, observe, w);
    if BreaksHere(rest, mark, s, w) {
      CutHere(rest, c, w.least);
      StopHere(rest, mark, s, observe, w, c + {p});
      BrokenHere(rest, mark, s, observe, w, c - {p});
      hide *;
    } else if Yielded(rest, mark, w.most) {
      CutHere(rest, c, w.least);
      hide LineEnd, LineLength, Whole, JoinLines, Rendered, OnTime, IsCut, ByLine, GoesOn, Play, Onward, Least, Lost,
        Yielded;
      var next, t := rest[LineLength(rest)..], Onward(rest, mark, s);
      YieldsMore(rest, mark, w.least, stop, w.most);
      PlayByLine(rest, mark, s, observe, c + {p}, stop);
      PlayByLine(rest, mark, s, observe, c - {p}, w.least);
      if stop == w.least { PlayLocal(next, 0, t, observe, c + {p}, c - {p}, w.least); }
      OtherByLine(rest, mark, s, observe, w, stop, Play(next, 0, t, observe, c + {p}, stop),
                  Play(next, 0, t, observe, c - {p}, w.least));
    } else {
      if Breaks(rest, mark, s.used) { CutAtEnd(rest, mark, w, c - {p}); }
      StopHere(rest, mark, s, observe, w, c - {p});
      PlayStops(rest, mark, s, observe, c + {p}, w.most);
      hide *;
    }
  }

  lemma CutAtEnd(rest: seq<byte>, mark: nat, w: Window, c: set<nat>)
    requires Yielded(rest, mark, w.least) && EndsInCrLf(rest) && Inside(rest) <= w.least && w.least in c
    ensures IsCut(rest, c)
  {
    hide LineEnd;
  }

  lemma BrokenHere(rest: seq<byte>, mark: nat, s: Partial, observe: Observer, w: Window, c: set<nat>)
    requires rest != [] && Yielded(rest, mark, w.least) && Least(rest, mark, s.used) <= MAX_MESSAGE_BYTES
    requires Breaks(rest, mark, s.used) && !IsCut(rest, c)
    ensures Play(rest, mark, s, observe, c, w.least) == TOO_LARGE
  {
    hide LineEnd, LineLength, JoinLines, Rendered, OnTime, IsCut, Play, Onward, Least, Lost, Yielded, Breaks;
    PlayByLine(rest, mark, s, observe, c, w.least);
  }

  lemma StopHere(rest: seq<byte>, mark: nat, s: Partial, observe: Observer, w: Window, c: set<nat>)
    requires CutDecides(rest, mark, s, observe, w) && (rest[0] == COLON || LineEnd(rest) == 0)
    requires !Breaks(rest, mark, s.used) || IsCut(rest, c)
    ensures Play(rest, mark, s, observe, c, w.least) != TOO_LARGE
  {
    hide LineEnd, LineLength, JoinLines, Rendered, OnTime, ByLine, DecidesHere, GoesOn, Play, Onward, Least, Lost,
      Yielded;
    PlayByLine(rest, mark, s, observe, c, w.least);
    SomethingByLine(rest, mark, s, observe, IsCut(rest, c), Lost(rest, w.least),
                    Play(rest[LineLength(rest)..], 0, Onward(rest, mark, s), observe, c, w.least));
  }

  // ----- the theorem --------------------------------------------------------------------------

  /** Cuts that the reads of this response can have made: the last read within the limit is not too early. */
  ghost predicate Endable(stream: seq<byte>, cuts: set<nat>) {
    Untaken(|stream|, cuts) <= MostUntaken(stream) && (Untaken(|stream|, cuts) > 0 ==> Untaken(|stream|, cuts) in cuts)
  }

  predicate Decides(stream: seq<byte>, observe: Observer) {
    CutDecides(StripBom(stream), BomLength(stream), FRESH, observe, WindowOf(stream))
  }

  /** Reads that end where a delivery byte by byte lets the last one end. */
  function Latest(stream: seq<byte>): set<nat> { {LeastUntaken(stream)} }

  lemma LatestIs(stream: seq<byte>)
    ensures Proper(WindowOf(stream)) && Endable(stream, Latest(stream)) &&
            Untaken(|stream|, Latest(stream)) == LeastUntaken(stream)
    ensures forall cuts :: Endable(stream, cuts) ==> Within(WindowOf(stream), cuts, Untaken(|stream|, cuts))
  {
    hide LineEnd;
  }

  /**
    For every response, whether it fits or is refused, of any size: what is written, what is
    observed and how it ends are the same wherever reads end, exactly if nothing is decided by
    that.
  */
  lemma OutcomesIff(stream: seq<byte>, observe: Observer)
    ensures (forall c :: Endable(stream, c) ==>
                           Outcomes(stream, observe, c) == Outcomes(stream, observe, Latest(stream))) <==>
            !Decides(stream, observe)
  {
    hide Play, CutDecides, LineEnd, MostUntaken;
    LatestIs(stream);
    NothingWhole();
    if Decides(stream, observe) {
      var c, d := Differing(stream, observe);
    } else {
      forall c | Endable(stream, c) ensures Outcomes(stream, observe, c) == Outcomes(stream, observe, Latest(stream)) {
        Unaffected(StripBom(stream), BomLength(stream), FRESH, observe, WindowOf(stream), c, Untaken(|stream|, c));
      }
    }
  }

  /** All places within a response of this length. */
  function Everywhere(length: nat): (r: set<nat>)
    ensures forall p: nat :: p in r <==> p < length
  {
    if length == 0 then {} else Everywhere(length - 1) + {length - 1}
  }

  /** All those at which reads end if the last one within the limit leaves so many bytes untaken. */
  function UpTo(length: nat, untaken: nat): (r: set<nat>)
    ensures forall p: nat :: p in r <==> untaken <= p < length
  {
    set p | p in Everywhere(length) && untaken <= p
  }

  /** Two ways to read a response that differ. */
  lemma Differing(stream: seq<byte>, observe: Observer) returns (c: set<nat>, d: set<nat>)
    requires Decides(stream, observe)
    ensures var rest, mark, w := StripBom(stream), BomLength(stream), WindowOf(stream);
            var p, stop := Place(rest, mark, FRESH, observe, w), Stop(rest, mark, FRESH, observe, w);
            p < |stream| && c == UpTo(|stream|, stop) && d == UpTo(|stream|, w.least) - {p}
    ensures Endable(stream, c) && Endable(stream, d) && Outcomes(stream, observe, c) != Outcomes(stream, observe, d)
  {
    hide Play, CutDecides, LineEnd, MostUntaken, Place, StopDecides;
    LatestIs(stream);
    NothingWhole();
    var rest, mark, w := StripBom(stream), BomLength(stream), WindowOf(stream);
    var p, stop := Place(rest, mark, FRESH, observe, w), Stop(rest, mark, FRESH, observe, w);
    var all := Everywhere(|stream|);
    c, d := UpTo(|stream|, stop), UpTo(|stream|, w.least) - {p};
    assert |stream| > 0;
    Decided(rest, mark, FRESH, observe, w, all + {w.least});
    EndsAt(stream, c, stop);
    EndsAt(stream, d, w.least);
    PlayLocal(rest, mark, FRESH, observe, c, all + {w.least} + {p}, stop);
    PlayLocal(rest, mark, FRESH, observe, d, all + {w.least} - {p}, w.least);
  }

  /** It is only the end of the last read that matters if there is a choice. */
  lemma {:induction false} PlaceZero(rest: seq<byte>, mark: nat, s: Partial, observe: Observer, w: Window)
    requires Proper(w) && CutDecides(rest, mark, s, observe, w) && Place(rest, mark, s, observe, w) == 0
    ensures w.least > 0
    decreases |rest|
  {
    hide LineEnd, Least, GoesOn, Onward, JoinLines;
    if !DecidesHere(rest, mark, s, observe, w) {
      PlaceZero(rest[LineLength(rest)..], 0, Onward(rest, mark, s), observe, w);
    }
  }

  lemma EndsAt(stream: seq<byte>, c: set<nat>, untaken: nat)
    requires LeastUntaken(stream) <= untaken <= MostUntaken(stream) && (untaken > 0 ==> untaken in c)
    requires forall p :: p in c ==> untaken <= p
    ensures Untaken(|stream|, c) == untaken && Endable(stream, c)
  {
    hide LineEnd, MostUntaken;
  }

  // ----- responses that fit -------------------------------------------------------------------

  /**
    Some event's bytes depend on whether its blank line is cut: a rewritten event gains a
    byte if its LF is late, and the event of the terminal response, if it is not rewritten,
    loses one.
  */
  predicate CutShows(rest: seq<byte>, data: seq<seq<byte>>, before: seq<seq<byte>>, observe: Observer)
    decreases |rest|
  {
    rest != [] &&
    var next := rest[LineLength(rest)..];
    if rest[0] == COLON then CutShows(next, data, before, observe)
    else if LineEnd(rest) > 0 then CutShows(next, WithData(data, rest[..LineEnd(rest)]), before, observe)
    else
      match ReplyTo(MessageOf(data), before, observe)
      case Malformed => false
      case Accepted(rewritten, terminal) =>
        (EndsInCrLf(rest) && terminal == rewritten.None?) ||
        (!terminal && CutShows(next, [], before + MessageOf(data), observe))
  }

  /** Within the limits only those events matter. */
  lemma {:induction false} FittingDecides(rest: seq<byte>, mark: nat, s: Partial, observe: Observer)
    requires WithinBudget(s.used, rest, mark)
    ensures CutDecides(rest, mark, s, observe, TO_END) <==> CutShows(rest, s.data, s.before, observe)
    decreases |rest|
  {
    hide LineEnd, LineLength, JoinLines;
    if rest != [] {
      var next, t := rest[LineLength(rest)..], Onward(rest, mark, s);
      LineLengths(rest);
      FittingNext(rest, mark, s);
      FittingDecides(next, 0, t, observe);
    }
  }

  lemma LineLengths(rest: seq<byte>)
    ensures LineEnd(rest) <= LineLength(rest) && (EndsInCrLf(rest) ==> LineLength(rest) == LineEnd(rest) + 2)
  {
  }

  lemma FittingNext(rest: seq<byte>, mark: nat, s: Partial)
    requires rest != [] && WithinBudget(s.used, rest, mark)
    ensures s.used + LineLength(rest) + mark <= MAX_MESSAGE_BYTES
    ensures WithinBudget(Onward(rest, mark, s).used, rest[LineLength(rest)..], 0) && Yielded(rest, mark, 0) &&
            !Lost(rest, 0)
  {
    hide LineEnd, LineLength, JoinLines;
    FirstFits(s.used, rest, mark);
    FirstFits(Onward(rest, mark, s).used, rest[LineLength(rest)..], 0);
  }

  lemma FirstFits(used: nat, next: seq<byte>, mark: nat)
    requires WithinBudget(used, next, mark)
    ensures YieldsNext(next, mark, 0)
  {
    hide LineEnd, LineLength;
  }

  /** Of a response that fits, how it is cut can only matter for the bytes, and only at such an event. */
  lemma FittingIff(stream: seq<byte>, observe: Observer)
    requires Fits(stream)
    ensures (forall c :: Outcomes(stream, observe, c) == Outcomes(stream, observe, Latest(stream))) <==>
            !CutShows(StripBom(stream), [], [], observe)
  {
    hide CutDecides, CutShows, Outcomes, WithinBudget;
    OutcomesIff(stream, observe);
    FittingDecides(StripBom(stream), BomLength(stream), FRESH, observe);
    forall c ensures Endable(stream, c) {}
  }

  // ----- responses passed on unchanged --------------------------------------------------------

  /** These bytes, as far as it went; all of them if it was finished. */
  predicate Keeps(r: Effect, all: seq<byte>) { r.bytes <= all && (r.end.Finished? ==> r.bytes == all) }

  lemma AfterKeeps(bytes: seq<byte>, messages: seq<seq<byte>>, r: Effect, all: seq<byte>)
    requires Keeps(r, all)
    ensures Keeps(After(bytes, messages, r), bytes + all)
  {
  }

  lemma RejoinKeeps(cut: bool, size: nat, next: seq<byte>, s: Partial, observe: Observer, cuts: set<nat>, untaken: nat,
                    all: seq<byte>)
    requires Keeps(Play(next, 0, s, observe, cuts, untaken), all)
    ensures Keeps(Rejoin(cut, size, next, s, observe, cuts, untaken), (if cut then [LF] else []) + all)
  {
    hide Play, YieldsNext;
    AfterKeeps([LF], [], Play(next, 0, s, observe, cuts, untaken), all);
    assert [] + all == all;
  }

  /** Without rewriting the bytes written are the stream's own, as far as limits and replies let them through. */
  lemma {:induction false} VerbatimForwards(rest: seq<byte>, mark: nat, s: Partial, observe: Observer, cuts: set<nat>,
                                            untaken: nat)
    requires Verbatim(Messages(rest, s.data), s.before, observe)
    ensures Keeps(Play(rest, mark, s, observe, cuts, untaken), Forwarded(rest, s.event))
    decreases |rest|
  {
    hide OnTime, JoinLines, LineLength, LineEnd, WithData, Yielded, YieldsNext, IsCut, Messages, Verbatim, Keeps,
      Rejoin, Rendered;
    NoneKept(Forwarded(rest, s.event));
    if rest != [] {
      var next, cut := rest[LineLength(rest)..], IsCut(rest, cuts);
      var front := OnTime(rest, cuts);
      var size := s.used + |front| + mark;
      VerbatimNext(rest, s, observe);
      OnTimeThenLf(rest, cuts);
      if rest[0] == COLON {
        VerbatimForwards(next, 0, s, observe, cuts, untaken);
        WrittenKeeps(front, [], cut, size, next, s, observe, cuts, untaken, Forwarded(next, s.event));
      } else if LineEnd(rest) > 0 {
        VerbatimForwards(next, 0, WithField(rest, s, size + if cut then 1 else 0), observe, cuts, untaken);
      } else {
        var sent := MessageOf(s.data);
        var reply, t := ReplyTo(sent, s.before, observe), Partial(0, [], [], s.before + sent);
        if reply.Accepted? {
          Unrendered(s.event + front);
          Grouped(s.event, front, if cut then [LF] else []);
          if reply.terminal {
            AnsweredKeeps(s.event + front, sent, if cut then [LF] else [], Forwarded(next, []));
          } else {
            VerbatimForwards(next, 0, t, observe, cuts, untaken);
            WrittenKeeps(s.event + front, sent, cut, size, next, t, observe, cuts, untaken, Forwarded(next, []));
          }
        }
      }
    }
  }

  lemma NoneKept(all: seq<byte>)
    ensures forall messages, end: End :: !end.Finished? ==> Keeps(Effect([], messages, end), all)
    ensures all == [] ==> forall messages, end: End :: Keeps(Effect([], messages, end), all)
  {
  }

  lemma Unrendered(event: seq<byte>)
    ensures Rendered(event, None) == event
  {
  }

  lemma AnsweredKeeps(bytes: seq<byte>, sent: seq<seq<byte>>, lf: seq<byte>, all: seq<byte>)
    ensures Keeps(After(bytes, sent, Effect([], [], Answered)), (bytes + lf) + all)
  {
  }

  lemma WrittenKeeps(bytes: seq<byte>, sent: seq<seq<byte>>, cut: bool, size: nat, next: seq<byte>, s: Partial,
                     observe: Observer, cuts: set<nat>, untaken: nat, all: seq<byte>)
    requires Keeps(Play(next, 0, s, observe, cuts, untaken), all)
    ensures Keeps(After(bytes, sent, Rejoin(cut, size, next, s, observe, cuts, untaken)),
                  (bytes + if cut then [LF] else []) + all)
  {
    hide Play, Rejoin, Keeps;
    var lf: seq<byte> := if cut then [LF] else [];
    RejoinKeeps(cut, size, next, s, observe, cuts, untaken, all);
    AfterKeeps(bytes, sent, Rejoin(cut, size, next, s, observe, cuts, untaken), lf + all);
    Grouped(bytes, lf, all);
  }

  lemma VerbatimNext(rest: seq<byte>, s: Partial, observe: Observer)
    requires rest != [] && Verbatim(Messages(rest, s.data), s.before, observe)
    ensures var next, sent := rest[LineLength(rest)..], MessageOf(s.data);
            var reply := ReplyTo(sent, s.before, observe);
            if rest[0] == COLON then Verbatim(Messages(next, s.data), s.before, observe)
            else if LineEnd(rest) > 0 then
              Verbatim(Messages(next, WithData(s.data, rest[..LineEnd(rest)])), s.before, observe)
            else
              (reply.Accepted? ==> reply.rewritten.None?) &&
              (Passes(reply) ==> Verbatim(Messages(next, []), s.before + sent, observe))
  {
    hide LineLength, LineEnd, WithData, JoinLines;
    var next, sent := rest[LineLength(rest)..], MessageOf(s.data);
    if sent == [] {
      assert s.before + sent == s.before && sent + Messages(next, []) == Messages(next, []);
    } else {
      assert (sent + Messages(next, []))[1..] == Messages(next, []) && s.before + [sent[0]] == s.before + sent;
    }
  }

  lemma OnTimeThenLf(rest: seq<byte>, cuts: set<nat>)
    ensures OnTime(rest, cuts) + (if IsCut(rest, cuts) then [LF] else []) == rest[..LineLength(rest)]
  {
    hide LineEnd;
    FrontIs(rest, cuts);
  }

  /** A response of which every message passes as it is is forwarded byte for byte, if it fits, however it is cut. */
  lemma PassedUnchanged(stream: seq<byte>, observe: Observer, cuts: set<nat>)
    requires Fits(stream) && AllPassed(Messages(StripBom(stream), []), observe)
    requires Verbatim(Messages(StripBom(stream), []), [], observe)
    ensures Outcomes(stream, observe, cuts) ==
            Effect(Forwarded(StripBom(stream), []), Messages(StripBom(stream), []), Finished)
  {
    hide Play, Forwarded, Messages, WithinBudget;
    var rest := StripBom(stream);
    var messages := Messages(rest, []);
    forall i | 0 <= i < |messages| ensures Passes(observe([] + messages[..i], messages[i])) {
      assert [] + messages[..i] == messages[..i];
    }
    AllPassedPassing(messages, [], observe);
    FittingPasses(rest, BomLength(stream), FRESH, observe, cuts);
    VerbatimForwards(rest, BomLength(stream), FRESH, observe, cuts, 0);
  }

  /** A response that fits and whose messages pass is read to its end, and all its messages are observed. */
  lemma {:induction false} FittingPasses(rest: seq<byte>, mark: nat, s: Partial, observe: Observer, cuts: set<nat>)
    requires WithinBudget(s.used, rest, mark) && Passing(Messages(rest, s.data), s.before, observe)
    ensures var r := Play(rest, mark, s, observe, cuts, 0); r.end == Finished && r.messages == Messages(rest, s.data)
    decreases |rest|
  {
    hide LineEnd, LineLength, JoinLines, Rendered, OnTime, IsCut, Front, Lost;
    if rest != [] {
      var next, t := rest[LineLength(rest)..], Onward(rest, mark, s);
      LineLengths(rest);
      FittingNext(rest, mark, s);
      PlayByLine(rest, mark, s, observe, cuts, 0);
      var sent := MessageOf(s.data);
      assert sent == [] ==> s.before + sent == s.before && sent + Messages(next, []) == Messages(next, []);
      assert sent != [] ==> (sent + Messages(next, []))[1..] == Messages(next, []) &&
                            s.before + [sent[0]] == s.before + sent;
      FittingPasses(next, 0, t, observe, cuts);
      hide Play;
    }
  }

  // ----- where a response can be cut ----------------------------------------------------------

  /** The rest of a stream, at the beginning of a line. */
  ghost predicate AtLine(whole: seq<byte>, rest: seq<byte>, mark: nat) {
    |rest| + mark <= |whole| && rest == whole[|whole| - |rest|..] &&
    (|rest| + mark == |whole| || (mark == 0 && Terminator(whole[|whole| - |rest| - 1])))
  }

  /** No reader is forced to stop at the first deciding place: the line there is not long enough. */
  lemma {:induction false} PlaceIsFree(whole: seq<byte>, rest: seq<byte>, mark: nat, s: Partial, observe: Observer,
                                       w: Window)
    requires AtLine(whole, rest, mark) && CutDecides(rest, mark, s, observe, w)
    ensures var p := Place(rest, mark, s, observe, w);
            p > 0 ==> p < |whole| && !LongRun(whole, |whole| - p - 1, MAX_MESSAGE_BYTES)
    decreases |rest|
  {
    hide LineEnd, DecidesHere, GoesOn, JoinLines, WithField, Terminator, Yielded;
    if DecidesHere(rest, mark, s, observe, w) {
      if Place(rest, mark, s, observe, w) > 0 { HereIsFree(whole, rest, mark, s, observe, w); }
    } else {
      NextAtLine(whole, rest, mark);
      PlaceIsFree(whole, rest[LineLength(rest)..], 0, Onward(rest, mark, s), observe, w);
    }
  }

  lemma HereIsFree(whole: seq<byte>, rest: seq<byte>, mark: nat, s: Partial, observe: Observer, w: Window)
    requires AtLine(whole, rest, mark) && CutDecides(rest, mark, s, observe, w) &&
             DecidesHere(rest, mark, s, observe, w)
    requires Place(rest, mark, s, observe, w) > 0
    ensures var p := Inside(rest); p < |whole| && !LongRun(whole, |whole| - p - 1, MAX_MESSAGE_BYTES)
  {
    hide LineEnd, YieldsNext;
    var at := |whole| - |rest| + LineEnd(rest);
    assert EndsInCrLf(rest) && LineEnd(rest) + mark < MAX_MESSAGE_BYTES;
    if at >= MAX_MESSAGE_BYTES { assert Terminator(whole[at - LineEnd(rest) - 1]); }
  }

  lemma NextAtLine(whole: seq<byte>, rest: seq<byte>, mark: nat)
    requires AtLine(whole, rest, mark) && rest[LineLength(rest)..] != []
    ensures AtLine(whole, rest[LineLength(rest)..], 0)
  {
    hide LineEnd;
    var n := LineLength(rest);
    LengthFrom(rest, LineEnd(rest));
    assert whole[|whole| - |rest[n..]| - 1] == rest[n - 1];
  }

  // ----- refused responses --------------------------------------------------------------------

  function Xs(n: nat): seq<byte> { seq(n, i => 120 as byte) }

  /** A comment that is within the limit up to its CR, and one byte too long with its LF. */
  const LONG_COMMENT: seq<byte> := [COLON] + Xs(MAX_MESSAGE_BYTES - 2) + [CR, LF]

  /**
    Nothing is rewritten and nothing answers, yet a cut decides: the comment is forwarded up to its
    CR, or not at all.
  */
  lemma LongCommentDecides(observe: Observer)
    ensures !Fits(LONG_COMMENT) && !CutShows(StripBom(LONG_COMMENT), [], [], observe) && Decides(LONG_COMMENT, observe)
    ensures Outcomes(LONG_COMMENT, observe, {0}) == TOO_LARGE
    ensures Outcomes(LONG_COMMENT, observe, {0, 1}) == Effect(LONG_COMMENT[..MAX_MESSAGE_BYTES], [], Oversized)
  {
    var s := LONG_COMMENT;
    var e := MAX_MESSAGE_BYTES - 1;
    assert |s| == e + 2 && s[0] == COLON && s[e] == CR && s[e + 1] == LF && forall i :: 0 < i < e ==> s[i] == 120;
    LineEndIs(s, e);
    LengthFrom(s, e);
    assert s[e + 2..] == [] && s[..e] + [CR] == s[..e + 1];
    hide LineEnd, LineLength;
    assert Breaks(s, 0, 0) && IsCut(s, {0, 1}) && !IsCut(s, {0}) && Yielded(s, 0, 0);
    PlayByLine(s, 0, FRESH, observe, {0}, 0);
    PlayByLine(s, 0, FRESH, observe, {0, 1}, 0);
    assert !WithinBudget(0, s, 0);
    assert !CutShows([], [], [], observe);
  }

  /** A comment, and a line that is too long. */
  const LOST_LF: seq<byte> := [COLON, CR, LF] + Xs(MAX_MESSAGE_BYTES + 1)

  /** The LF of a comment is lost if it is late and the next line is too long. */
  lemma LostLfDecides(observe: Observer)
    ensures Decides(LOST_LF, observe)
    ensures Outcomes(LOST_LF, observe, {0}) == Effect([COLON, CR, LF], [], Oversized)
    ensures Outcomes(LOST_LF, observe, {0, |LOST_LF| - 2}) == Effect([COLON, CR], [], Oversized)
  {
    var s, next := LOST_LF, Xs(MAX_MESSAGE_BYTES + 1);
    assert s[0] == COLON && s[1] == CR && s[2] == LF && s[3..] == next && s[..1] + [CR] == [COLON, CR] &&
      s[..3] == [COLON, CR, LF];
    LineEndIs(s, 1);
    LengthFrom(s, 1);
    LineEndIs(next, |next|);
    hide LineEnd, LineLength;
    assert Lost(s, 0) && IsCut(s, {0, |s| - 2}) && !IsCut(s, {0}) && Yielded(s, 0, 0);
    PlayByLine(s, 0, FRESH, observe, {0}, 0);
    PlayByLine(s, 0, FRESH, observe, {0, |s| - 2}, 0);
    LostStops(s, FRESH, observe, {0}, 0);
  }

  // ----- responses beyond the limit on streams ------------------------------------------------

  /** Empty comments, one after the other. */
  function Comments(n: nat): (r: seq<byte>)
    ensures |r| == 2 * n
  {
    if n == 0 then [] else [COLON, LF] + Comments(n - 1)
  }

  lemma {:induction false} CommentsAt(n: nat, i: nat)
    requires i < 2 * n
    ensures Comments(n)[i] == if i % 2 == 0 then COLON else LF
  {
    if i >= 2 { CommentsAt(n - 1, i - 2); }
  }

  lemma {:induction false} CommentsDecide(n: nat, s: Partial, observe: Observer, w: Window)
    requires w.least + 2 <= w.most && w.least + 1 < 2 * n && s.used == 0
    ensures CutDecides(Comments(n), 0, s, observe, w)
  {
    var rest := Comments(n);
    LineEndIs(rest, 1);
    LengthFrom(rest, 1);
    assert rest[2..] == Comments(n - 1);
    hide LineEnd, LineLength;
    if Yielded(rest, 0, w.most) { CommentsDecide(n - 1, s, observe, w); }
  }

  /** How many comments are forwarded of a response that is too long depends on where its last read ends. */
  lemma ManyCommentsDecide(n: nat, observe: Observer)
    requires 2 * n == MAX_STREAM_BYTES + 2
    ensures |Comments(n)| > MAX_STREAM_BYTES && Decides(Comments(n), observe)
  {
    var stream := Comments(n);
    CommentsAt(n, 0);
    CommentsAt(n, LAST_LINE);
    CommentsAt(n, LAST_LINE + 1);
    CommentsWindow(stream);
    CommentsDecide(n, FRESH, observe, WindowOf(stream));
    hide Comments, CutDecides, MostUntaken;
  }

  lemma CommentsWindow(stream: seq<byte>)
    requires |stream| == MAX_STREAM_BYTES + 2 && stream[0] == COLON
    requires stream[LAST_LINE] == LF || stream[LAST_LINE + 1] == LF
    ensures WindowOf(stream).least == 2 && WindowOf(stream).most >= 4
    ensures StripBom(stream) == stream && BomLength(stream) == 0
  {
    var tail := stream[LAST_LINE..];
    assert tail[0] == stream[LAST_LINE] && tail[1] == stream[LAST_LINE + 1];
    assert LineEnd(tail) <= 1;
    hide LineEnd;
  }
}

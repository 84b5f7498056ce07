/**
  What a client reads from what is forwarded to it. Field lines and comments are forwarded
  apart, so a field line that ends in CR and a blank line that is LF are forwarded as one line
  end if only comments stood between them. Where that does not happen, the client reads
  exactly the messages that the observer passed on.
*/
module SseClient {
  import opened Wrappers
  import opened SseLines
  import opened SseEvents
  import opened SseData

  /** The data a reader still holds at the end, for an event that no blank line has closed. */
  function Left(rest: seq<byte>, data: seq<seq<byte>>): seq<seq<byte>>
    decreases |rest|
  {
    if rest == [] then data
    else
      var content, next := rest[..LineEnd(rest)], rest[LineLength(rest)..];
      if content == [] then Left(next, []) else Left(next, WithData(data, content))
  }

  /** A reader goes on with the second part where it was after the first. */
  lemma {:induction false} ReadsOn(a: seq<byte>, b: seq<byte>, h: seq<seq<byte>>)
    requires Whole(a) && Separate(a, b)
    ensures Messages(a + b, h) == Messages(a, h) + Messages(b, Left(a, h))
    ensures Left(a + b, h) == Left(b, Left(a, h))
    decreases |a|
  {
    if b == [] {
      assert a + b == a && Messages(a, h) + [] == Messages(a, h);
    } else if a == [] {
      assert a + b == b && [] + Messages(b, h) == Messages(b, h);
    } else {
      LineBefore(a, b);
      FirstByte(a, b);
      hide LineEnd, LineLength, Terminator, Whole, Separate, MessageOf, WithData;
      var content, next := a[..LineEnd(a)], a[LineLength(a)..];
      ReadsOn(next, b, if content == [] then [] else if a[0] == COLON then h else WithData(h, content));
      if content == [] { Regroup(MessageOf(h), Messages(next, []), Messages(b, Left(next, []))); }
      if a[0] == COLON { CommentCarriesNothing(h, content); }
    }
  }

  lemma FirstByte(a: seq<byte>, b: seq<byte>)
    requires a != []
    ensures (a + b)[0] == a[0]
  {
  }

  lemma CommentCarriesNothing(h: seq<seq<byte>>, content: seq<byte>)
    ensures content != [] && content[0] == COLON ==> WithData(h, content) == h
    ensures content == [] ==> WithData(h, content) == h
  {
  }

  // ----- an event that is being put together --------------------------------------------------

  /** The event's lines are whole, none is blank, and they carry the event's data. */
  ghost predicate Gathered(s: Partial) {
    Whole(s.event) && (s.event != [] ==> !Terminator(s.event[0])) &&
    forall h :: Messages(s.event, h) == [] && Left(s.event, h) == h + s.data
  }

  lemma FreshGathered(before: seq<seq<byte>>)
    ensures Gathered(Partial(0, [], [], before))
  {
    forall h ensures Messages([], h) == [] && Left([], h) == h + [] { assert h + [] == h; }
  }

  /** One line read alone. */
  lemma LineReads(rest: seq<byte>, h: seq<seq<byte>>)
    requires rest != []
    ensures var content, line := rest[..LineEnd(rest)], rest[..LineLength(rest)];
            line != [] && Messages(line, h) == (if content == [] then MessageOf(h) else []) &&
            Left(line, h) == (if content == [] then [] else WithData(h, content))
  {
    var content, line := rest[..LineEnd(rest)], rest[..LineLength(rest)];
    FirstLineEnds2(rest);
    assert line[..LineEnd(line)] == content && line[LineLength(line)..] == [];
    hide LineEnd, LineLength, MessageOf, WithData;
    if content != [] && line[0] == COLON { CommentCarriesNothing(h, content); }
    assert Messages([], []) == [] && MessageOf(h) + [] == MessageOf(h);
  }

  lemma FirstLineEnds2(rest: seq<byte>)
    requires rest != []
    ensures var line := rest[..LineLength(rest)];
            line != [] && LineEnd(line) == LineEnd(rest) && LineLength(line) == |line|
  {
    hide LineEnd, LineLength;
    var e, line := LineEnd(rest), rest[..LineLength(rest)];
    if e < |rest| {
      LengthFrom(rest, e);
      LineEndIs(line, e);
      LengthFrom(line, e);
    } else {
      WithoutEnd(rest);
    }
  }

  lemma MoreData(h: seq<seq<byte>>, d: seq<seq<byte>>, content: seq<byte>)
    ensures WithData(h + d, content) == h + WithData(d, content)
  {
    hide DataValue;
    if DATA <= content { Regroup(h, d, [DataValue(content)]); }
  }

  /** A field line that ends is one more line of the event. */
  lemma FieldGathered(rest: seq<byte>, s: Partial, used: nat)
    requires Gathered(s) && rest != [] && rest[0] != COLON && LineEnd(rest) > 0 && LineEnd(rest) < |rest|
    ensures Gathered(WithField(rest, s, used))
  {
    hide LineEnd, LineLength, Terminator, WithData, Messages, Left, Whole;
    var content, line := rest[..LineEnd(rest)], rest[..LineLength(rest)];
    LineIsWhole(rest);
    LineAdded(s.event, line);
    forall h
      ensures Messages(s.event + line, h) == [] && Left(s.event + line, h) == h + WithData(s.data, content)
    {
      ReadsOn(s.event, line, h);
      LineReads(rest, h + s.data);
      MoreData(h, s.data, content);
    }
  }

  lemma LineAdded(event: seq<byte>, line: seq<byte>)
    requires line != [] && Whole(line) && !Terminator(line[0]) && (event != [] ==> !Terminator(event[0]))
    ensures Separate(event, line) && Whole(event + line) && !Terminator((event + line)[0])
  {
    assert (event + line)[|event + line| - 1] == line[|line| - 1];
  }

  lemma LineIsWhole(rest: seq<byte>)
    requires rest != []
    ensures var line := rest[..LineLength(rest)];
            line != [] && line[0] == rest[0] && (LineEnd(rest) < |rest| ==> Whole(line) && Whole([] + line)) &&
            (LineEnd(rest) > 0 ==> !Terminator(line[0]))
  {
    hide LineEnd, LineLength;
    if LineEnd(rest) < |rest| { LengthFrom(rest, LineEnd(rest)); }
  }

  // ----- an event that is closed --------------------------------------------------------------

  predicate IsBlank(b: seq<byte>) { b == [CR] || b == [LF] || b == [CR, LF] }

  /** The blank line is taken for the rest of the line end before it. */
  predicate Fused(event: seq<byte>, blank: seq<byte>) { !Separate(event, blank) && blank == [LF] }

  lemma MergedFirst(a: seq<byte>)
    requires a != [] && a[|a| - 1] == CR
    ensures var next, all := a[LineLength(a)..], a + [LF];
            all[..LineEnd(all)] == a[..LineEnd(a)] && all[0] == a[0] &&
            (if next == [] then all[LineLength(all)..] == []
             else all[LineLength(all)..] == next + [LF] && next[|next| - 1] == CR)
  {
    var next, all := a[LineLength(a)..], a + [LF];
    LineEndWithin(a);
    hide LineEnd, LineLength;
    FirstEndStays(a, [LF]);
    LengthFrom(a, LineEnd(a));
    LengthFrom(all, LineEnd(a));
    assert forall i :: 0 <= i < |a| ==> all[i] == a[i];
    assert all[..LineEnd(a)] == a[..LineEnd(a)];
    if next == [] {
      assert all[LineLength(all)..] == [];
    } else {
      assert all[LineLength(all)..] == next + [LF];
    }
  }

  lemma {:induction false} MergedReads(a: seq<byte>, h: seq<seq<byte>>)
    requires a != [] && a[|a| - 1] == CR
    ensures Messages(a + [LF], h) == Messages(a, h) && Left(a + [LF], h) == Left(a, h)
    decreases |a|
  {
    hide LineEnd, LineLength, MessageOf, WithData;
    var next, content := a[LineLength(a)..], a[..LineEnd(a)];
    MergedFirst(a);
    CommentCarriesNothing(h, content);
    if next != [] {
      MergedReads(next, if content == [] then [] else if a[0] == COLON then h else WithData(h, content));
    }
  }

  lemma BlankReadsAlone(b: seq<byte>, h: seq<seq<byte>>)
    requires IsBlank(b)
    ensures Messages(b, h) == MessageOf(h) && Left(b, h) == []
  {
    BlankReads(b, [], h);
    assert b + [] == b && MessageOf(h) + Messages([], []) == MessageOf(h);
    LineEndIs(b, 0);
    LengthFrom(b, 0);
    hide LineEnd, LineLength;
    assert b[..0] == [] && b[|b|..] == [];
  }

  /** An event that is forwarded as it is. */
  lemma ClosedReads(s: Partial, b: seq<byte>, h: seq<seq<byte>>)
    requires Gathered(s) && IsBlank(b)
    ensures Messages(s.event + b, h) == (if Fused(s.event, b) then [] else MessageOf(h + s.data))
    ensures Left(s.event + b, h) == (if Fused(s.event, b) then h + s.data else [])
  {
    hide MessageOf;
    if Fused(s.event, b) {
      MergedReads(s.event, h);
    } else {
      ReadsOn(s.event, b, h);
      BlankReadsAlone(b, h + s.data);
      assert [] + MessageOf(h + s.data) == MessageOf(h + s.data);
    }
  }

  lemma {:induction false} MetadataReads(event: seq<byte>, h: seq<seq<byte>>)
    requires Whole(event)
    ensures Messages(Metadata(event), h) == [] && Left(Metadata(event), h) == h
    decreases |event|
  {
    if event != [] {
      hide LineEnd, LineLength, Terminator, Whole, Metadata, WithData, SplitLines;
      var content, line, rest := event[..LineEnd(event)], event[..LineLength(event)], event[LineLength(event)..];
      FirstLineWhole(event);
      MetadataFirst(event);
      MetadataReads(rest, h);
      if content != [] && !(DATA <= content) {
        MetadataAreFields(rest);
        KeptSeparate(line, Metadata(rest));
        ReadsOn(line, Metadata(rest), h);
        LineReads(event, h);
        NoData(h, content);
      } else {
        assert [] + Metadata(rest) == Metadata(rest);
      }
    }
  }

  lemma NoData(h: seq<seq<byte>>, content: seq<byte>)
    requires !(DATA <= content)
    ensures WithData(h, content) == h
  {
  }

  lemma KeptSeparate(line: seq<byte>, more: seq<byte>)
    requires Kept(more)
    ensures Separate(line, more)
  {
  }

  /** An event that is forwarded rewritten. */
  lemma RewrittenReads(event: seq<byte>, m: seq<byte>, h: seq<seq<byte>>)
    requires Whole(event) && Plain(m)
    ensures Messages(Rendered(event, Some(m)), h) == MessageOf(h + [m]) && Left(Rendered(event, Some(m)), h) == []
  {
    hide Messages, Left, Whole, Rendered, Metadata, MessageOf, WithData, Separate;
    var line := DATA + [SPACE] + m;
    RenderedIs(event, m);
    MetadataReads(event, h);
    MetadataAreFields(event);
    DataSeparate(Metadata(event), line + [LF] + [LF]);
    ReadsOn(Metadata(event), line + [LF] + [LF], h);
    DataLineReads(m, h);
  }

  lemma DataSeparate(a: seq<byte>, b: seq<byte>)
    requires DATA <= b[..|b|]
    ensures Separate(a, b)
  {
    assert b != [] && b[0] == DATA[0];
  }

  lemma DataLineReads(m: seq<byte>, h: seq<seq<byte>>)
    requires Plain(m)
    ensures var s := DATA + [SPACE] + m + [LF] + [LF];
            DATA <= s && Messages(s, h) == MessageOf(h + [m]) && Left(s, h) == []
  {
    hide MessageOf, LineEnd, LineLength, WithData, DataValue;
    var line := DATA + [SPACE] + m;
    var s := line + [LF] + [LF];
    DataLinePlain(m);
    FirstLine(line, [LF], [LF]);
    assert line == DATA + ([SPACE] + m);
    ValueGiven(line, m, h);
    assert s[0] == DATA[0];
    BlankReadsAlone([LF], h + [m]);
  }

  lemma ValueGiven(line: seq<byte>, m: seq<byte>, h: seq<seq<byte>>)
    requires line == DATA + [SPACE] + m
    ensures WithData(h, line) == h + [m]
  {
    assert line == DATA + ([SPACE] + m);
    SameValue(line);
    CarriesOne(line, m, ValueOn(line));
  }

  // ----- whole responses ----------------------------------------------------------------------

  /** Messages are rewritten as JSON texts, which are not empty and on one line. */
  ghost predicate WritesTexts(observe: Observer) {
    forall before, m :: observe(before, m).Accepted? && observe(before, m).rewritten.Some? ==>
      observe(before, m).rewritten.value != [] && Plain(observe(before, m).rewritten.value)
  }

  /** The messages that the observer passes on, rewritten or not. */
  function PassedOn(messages: seq<seq<byte>>, before: seq<seq<byte>>, observe: Observer): seq<seq<byte>> {
    if messages == [] then []
    else
      match observe(before, messages[0])
      case Malformed => []
      case Accepted(rewritten, _) =>
        [if rewritten.Some? then rewritten.value else messages[0]] +
        PassedOn(messages[1..], before + [messages[0]], observe)
  }

  /** Some event with data is forwarded as it is and fused with its blank line, before the response ends. */
  predicate Fuses(rest: seq<byte>, s: Partial, observe: Observer)
    decreases |rest|
  {
    rest != [] &&
    var next := rest[LineLength(rest)..];
    if rest[0] == COLON then Fuses(next, s, observe)
    else if LineEnd(rest) > 0 then Fuses(next, WithField(rest, s, 0), observe)
    else
      match ReplyTo(MessageOf(s.data), s.before, observe)
      case Malformed => false
      case Accepted(rewritten, terminal) =>
        (rewritten.None? && s.data != [] && Fused(s.event, rest[..LineLength(rest)])) ||
        (!terminal && Fuses(next, Partial(0, [], [], s.before + MessageOf(s.data)), observe))
  }

  lemma {:induction false} UsedDoesNotMatter(rest: seq<byte>, s: Partial, used: nat, observe: Observer)
    ensures Fuses(rest, s, observe) == Fuses(rest, s.(used := used), observe)
    decreases |rest|
  {
    hide LineEnd, LineLength, JoinLines, Separate;
    if rest != [] {
      var next := rest[LineLength(rest)..];
      if rest[0] == COLON {
        UsedDoesNotMatter(next, s, used, observe);
      } else if LineEnd(rest) > 0 {
        assert WithField(rest, s, 0) == WithField(rest, s.(used := used), 0);
      }
    }
  }

  /** An LF comes first only if it is a blank line of its own. */
  lemma {:induction false} StartsLikeStream(rest: seq<byte>, mark: nat, s: Partial, observe: Observer, cuts: set<nat>,
                                            untaken: nat)
    requires Whole(s.event) && (s.event != [] ==> !Terminator(s.event[0]))
    ensures var bytes := Play(rest, mark, s, observe, cuts, untaken).bytes;
            bytes != [] && bytes[0] == LF ==> s.event == [] && rest != [] && rest[0] == LF
    decreases |rest|
  {
    hide LineEnd, LineLength, JoinLines, Yielded, YieldsNext, Messages, Rendered, OnTime, Terminator, Whole, IsCut;
    if rest != [] {
      OnTimeStarts(rest, cuts);
      var next := rest[LineLength(rest)..];
      if rest[0] != COLON && LineEnd(rest) > 0 {
        if next == [] {
          hide Rejoin;
        } else {
          LineIsWhole(rest);
          LineGoesOn(rest);
          LineAdded(s.event, rest[..LineLength(rest)]);
          forall used: nat { StartsLikeStream(next, 0, WithField(rest, s, used), observe, cuts, untaken); }
        }
      } else if rest[0] != COLON && ReplyTo(MessageOf(s.data), s.before, observe).Accepted? {
        RenderedStarts(s.event, OnTime(rest, cuts), ReplyTo(MessageOf(s.data), s.before, observe));
      }
    }
  }

  lemma LineGoesOn(rest: seq<byte>)
    requires rest != [] && rest[LineLength(rest)..] != []
    ensures LineEnd(rest) < |rest|
  {
  }

  lemma OnTimeStarts(rest: seq<byte>, cuts: set<nat>)
    requires rest != []
    ensures OnTime(rest, cuts) != [] && OnTime(rest, cuts)[0] == rest[0]
    ensures LineEnd(rest) == 0 ==> IsBlank(OnTime(rest, cuts)) && IsBlank(rest[..LineLength(rest)])
  {
    hide LineEnd;
    if LineEnd(rest) < |rest| { LengthFrom(rest, LineEnd(rest)); }
  }

  lemma RenderedStarts(event: seq<byte>, b: seq<byte>, reply: Reply)
    requires Whole(event) && (event != [] ==> !Terminator(event[0])) && IsBlank(b) && reply.Accepted?
    ensures var r := Rendered(event + b, reply.rewritten); r != [] && (r[0] == LF ==> event == [] && b[0] == LF)
  {
    assert Whole(event + b) by { assert (event + b)[|event + b| - 1] == b[|b| - 1]; }
    assert (event + b)[0] == if event == [] then b[0] else event[0];
    MetadataAreFields(event + b);
    hide Metadata;
  }

  /** What is read of this: these messages, and nothing held. */
  ghost predicate ReadAs(bytes: seq<byte>, messages: seq<seq<byte>>) {
    Messages(bytes, []) == messages && Left(bytes, []) == []
  }

  /** A chunk that is read on its own, and what is forwarded after it. */
  lemma Chunk(chunk: seq<byte>, messages: seq<seq<byte>>, more: seq<byte>, later: seq<seq<byte>>)
    requires Whole(chunk) && Separate(chunk, more) && ReadAs(chunk, messages) && ReadAs(more, later)
    ensures ReadAs(chunk + more, messages + later)
  {
    ReadsOn(chunk, more, []);
  }

  lemma CommentAlone(content: seq<byte>, eol: seq<byte>)
    requires Plain(content) && content != [] && content[0] == COLON && IsEol(eol)
    ensures ReadAs(content + eol, [])
  {
    hide LineEnd, LineLength, Plain, IsEol;
    var s := content + eol;
    FirstLine(content, eol, []);
    assert content + eol + [] == s && s[0] == content[0];
    CommentCarriesNothing([], content);
    assert Messages(s, []) == Messages(s[LineLength(s)..], []) == [];
    assert Left(s, []) == Left(s[LineLength(s)..], WithData([], s[..LineEnd(s)])) == [];
  }

  lemma CommentReads(rest: seq<byte>, cuts: set<nat>)
    requires rest != [] && rest[0] == COLON
    ensures ReadAs(rest[..LineLength(rest)], []) && ReadAs(OnTime(rest, cuts), [])
  {
    var content := rest[..LineEnd(rest)];
    assert content != [] && content[0] == COLON && Plain(content);
    hide LineEnd, Plain;
    LineReads(rest, []);
    CommentCarriesNothing([], content);
    if LineEnd(rest) < |rest| {
      LengthFrom(rest, LineEnd(rest));
      CommentAlone(content, [rest[LineEnd(rest)]]);
      assert rest[..LineEnd(rest) + 1] == content + [rest[LineEnd(rest)]];
    }
  }

  /** After a line that ends in CR alone the stream does not go on with an LF. */
  lemma NoLfAfterCr(rest: seq<byte>)
    requires rest != [] && LineEnd(rest) < |rest|
    ensures var line, next := rest[..LineLength(rest)], rest[LineLength(rest)..];
            Whole(line) && (next != [] && next[0] == LF ==> line[|line| - 1] != CR)
  {
    hide LineEnd;
    LengthFrom(rest, LineEnd(rest));
  }

  /** After a chunk that was written: nothing more, or its late LF and what follows, or only what follows. */
  lemma RejoinReads(cut: bool, size: nat, next: seq<byte>, s: Partial, observe: Observer, cuts: set<nat>, untaken: nat,
                    chunk: seq<byte>, messages: seq<seq<byte>>)
    requires ReadAs(chunk, messages) && (cut ==> ReadAs(chunk + [LF], messages))
    requires var r := Play(next, 0, s, observe, cuts, untaken);
             ReadAs(r.bytes, PassedOn(r.messages, s.before, observe)) &&
             (!cut && r.bytes != [] ==> Whole(chunk) && Separate(chunk, r.bytes))
    ensures var j := Rejoin(cut, size, next, s, observe, cuts, untaken);
            ReadAs(chunk + j.bytes, messages + PassedOn(j.messages, s.before, observe))
  {
    hide ReadAs, Play, Whole, Separate, YieldsNext;
    var r := Play(next, 0, s, observe, cuts, untaken);
    assert chunk + [] == chunk && messages + [] == messages && PassedOn([], s.before, observe) == [];
    if !cut {
      if r.bytes != [] { Chunk(chunk, messages, r.bytes, PassedOn(r.messages, s.before, observe)); }
      else { NothingRead(PassedOn(r.messages, s.before, observe)); }
    } else {
      LfIsWhole(chunk, r.bytes);
      Chunk(chunk + [LF], messages, r.bytes, PassedOn(r.messages, s.before, observe));
      Regroup(chunk, [LF], r.bytes);
      assert [] + r.messages == r.messages;
    }
  }

  lemma NothingRead(messages: seq<seq<byte>>)
    ensures ReadAs([], messages) ==> messages == []
  {
  }

  lemma LfIsWhole(chunk: seq<byte>, more: seq<byte>)
    ensures Whole(chunk + [LF]) && Separate(chunk + [LF], more)
  {
  }

  lemma FreshReads()
    ensures ReadAs([], [])
  {
  }

  /** What is read of a completed event, with or without its late LF. */
  lemma EventChunk(rest: seq<byte>, s: Partial, observe: Observer, cuts: set<nat>)
    requires Gathered(s) && WritesTexts(observe) && rest != [] && rest[0] != COLON && LineEnd(rest) == 0
    requires ReplyTo(MessageOf(s.data), s.before, observe).Accepted? && !Fuses(rest, s, observe)
    ensures var reply := ReplyTo(MessageOf(s.data), s.before, observe);
            var chunk := Rendered(s.event + OnTime(rest, cuts), reply.rewritten);
            var passed := PassedOn(MessageOf(s.data), s.before, observe);
            ReadAs(chunk, passed) && Whole(chunk) && (IsCut(rest, cuts) ==> ReadAs(chunk + [LF], passed))
  {
    OnTimeStarts(rest, cuts);
    var reply := ReplyTo(MessageOf(s.data), s.before, observe);
    var b := OnTime(rest, cuts);
    BlankPieces(rest, cuts);
    PassedOne(s.data, s.before, observe);
    if reply.rewritten.None? {
      hide Messages, Left, Rendered, LineEnd, LineLength, JoinLines;
      NotFused(rest, s, observe, cuts);
      AsItIs(s, b);
      assert Rendered(s.event + b, None) == s.event + b;
      if IsCut(rest, cuts) {
        AsItIs(s, [CR, LF]);
        assert s.event + [CR] + [LF] == s.event + [CR, LF];
      }
    } else {
      var m := reply.rewritten.value;
      hide LineEnd, LineLength;
      Rewritten(s.event + b, m);
    }
  }

  lemma BlankPieces(rest: seq<byte>, cuts: set<nat>)
    requires rest != [] && LineEnd(rest) == 0
    ensures IsBlank(OnTime(rest, cuts)) && IsBlank(rest[..LineLength(rest)])
    ensures if IsCut(rest, cuts) then OnTime(rest, cuts) == [CR] && rest[..LineLength(rest)] == [CR, LF]
            else OnTime(rest, cuts) == rest[..LineLength(rest)]
  {
    hide LineEnd;
    LengthFrom(rest, 0);
  }

  /** One event's message is passed on as it is or as it was rewritten. */
  lemma PassedOne(data: seq<seq<byte>>, before: seq<seq<byte>>, observe: Observer)
    requires ReplyTo(MessageOf(data), before, observe).Accepted?
    ensures var reply := ReplyTo(MessageOf(data), before, observe);
            PassedOn(MessageOf(data), before, observe) ==
              (if reply.rewritten.Some? then [reply.rewritten.value] else MessageOf(data))
    ensures MessageOf(data) == [] ==> ReplyTo(MessageOf(data), before, observe) == PASSED
  {
    hide JoinLines;
    var sent := MessageOf(data);
    if sent != [] { assert sent[1..] == []; }
  }

  lemma NotFused(rest: seq<byte>, s: Partial, observe: Observer, cuts: set<nat>)
    requires rest != [] && rest[0] != COLON && LineEnd(rest) == 0 && !Fuses(rest, s, observe)
    requires ReplyTo(MessageOf(s.data), s.before, observe).Accepted?
    requires ReplyTo(MessageOf(s.data), s.before, observe).rewritten.None?
    ensures s.data == [] || !Fused(s.event, OnTime(rest, cuts))
  {
    BlankPieces(rest, cuts);
    hide LineEnd, LineLength, JoinLines, OnTime;
  }

  lemma AsItIs(s: Partial, b: seq<byte>)
    requires Gathered(s) && IsBlank(b) && (s.data == [] || !Fused(s.event, b))
    ensures ReadAs(s.event + b, MessageOf(s.data)) && Whole(s.event + b)
  {
    ClosedReads(s, b, []);
    assert [] + s.data == s.data;
    hide Messages, Left;
    assert (s.event + b)[|s.event + b| - 1] == b[|b| - 1];
    if s.data == [] { assert MessageOf([]) == []; }
  }

  lemma Rewritten(event: seq<byte>, m: seq<byte>)
    requires Whole(event) && Plain(m) && m != []
    ensures var chunk := Rendered(event, Some(m));
            ReadAs(chunk, [m]) && Whole(chunk) && ReadAs(chunk + [LF], [m])
  {
    hide Messages, Left, Metadata;
    var chunk := Rendered(event, Some(m));
    RewrittenReads(event, m, []);
    JoinedOne(m);
    assert [] + [m] == [m];
    assert chunk[|chunk| - 1] == LF;
    BlankReadsAlone([LF], []);
    assert MessageOf([]) == [] && [m] + [] == [m];
    hide Rendered;
    LfSeparate(chunk, [LF]);
    Chunk(chunk, [m], [LF], []);
  }

  lemma JoinedOne(m: seq<byte>)
    requires m != []
    ensures MessageOf([m]) == [m]
  {
  }

  lemma LfSeparate(chunk: seq<byte>, more: seq<byte>)
    requires chunk != [] && chunk[|chunk| - 1] == LF
    ensures Separate(chunk, more) && Whole(chunk)
  {
  }

  /** Unless an event with data is fused the client reads exactly what was passed on, however the response is cut. */
  lemma {:induction false} ClientReads(rest: seq<byte>, mark: nat, s: Partial, observe: Observer, cuts: set<nat>,
                                       untaken: nat)
    requires Gathered(s) && WritesTexts(observe) && !Fuses(rest, s, observe)
    ensures var r := Play(rest, mark, s, observe, cuts, untaken);
            ReadAs(r.bytes, PassedOn(r.messages, s.before, observe))
    decreases |rest|
  {
    hide LineEnd, LineLength, JoinLines, Yielded, YieldsNext, Rendered, OnTime, IsCut, Gathered, WritesTexts, ReadAs,
      Rejoin;
    FreshReads();
    if rest != [] {
      var next := rest[LineLength(rest)..];
      if rest[0] == COLON {
        ClientReads(next, 0, s, observe, cuts, untaken);
        CommentPlays(rest, mark, s, observe, cuts, untaken);
      } else if LineEnd(rest) > 0 {
        if next != [] {
          LineGoesOn(rest);
          var used := s.used + |OnTime(rest, cuts)| + mark + if IsCut(rest, cuts) then 1 else 0;
          FieldGathered(rest, s, used);
          UsedDoesNotMatter(next, WithField(rest, s, 0), used, observe);
          ClientReads(next, 0, WithField(rest, s, used), observe, cuts, untaken);
        }
      } else if ReplyTo(MessageOf(s.data), s.before, observe).Malformed? {
        MalformedReads(s, observe);
      } else {
        var sent := MessageOf(s.data);
        FreshGathered(s.before + sent);
        if !ReplyTo(sent, s.before, observe).terminal {
          ClientReads(next, 0, Partial(0, [], [], s.before + sent), observe, cuts, untaken);
        }
        EventPlays(rest, mark, s, observe, cuts, untaken);
      }
    }
  }

  lemma MalformedReads(s: Partial, observe: Observer)
    requires ReplyTo(MessageOf(s.data), s.before, observe).Malformed?
    ensures PassedOn(MessageOf(s.data), s.before, observe) == []
  {
    hide JoinLines;
  }

  lemma CommentPlays(rest: seq<byte>, mark: nat, s: Partial, observe: Observer, cuts: set<nat>, untaken: nat)
    requires Gathered(s) && rest != [] && rest[0] == COLON
    requires var r := Play(rest[LineLength(rest)..], 0, s, observe, cuts, untaken);
             ReadAs(r.bytes, PassedOn(r.messages, s.before, observe))
    ensures var r := Play(rest, mark, s, observe, cuts, untaken);
            ReadAs(r.bytes, PassedOn(r.messages, s.before, observe))
  {
    hide LineEnd, LineLength, JoinLines, Yielded, YieldsNext, OnTime, IsCut, ReadAs, Rejoin, Separate;
    FreshReads();
    var next := rest[LineLength(rest)..];
    var size := s.used + |OnTime(rest, cuts)| + mark;
    if Yielded(rest, mark, untaken) && size <= MAX_MESSAGE_BYTES {
      CommentReads(rest, cuts);
      LinePieces(rest, cuts);
      var r := Play(next, 0, s, observe, cuts, untaken);
      if r.bytes != [] && !IsCut(rest, cuts) {
        PlayedApart(rest, s, observe, cuts, untaken);
      }
      RejoinReads(IsCut(rest, cuts), size, next, s, observe, cuts, untaken, OnTime(rest, cuts), []);
      hide Play;
      var j := Rejoin(IsCut(rest, cuts), size, next, s, observe, cuts, untaken);
      assert [] + j.messages == j.messages;
      assert [] + PassedOn(j.messages, s.before, observe) == PassedOn(j.messages, s.before, observe);
    }
  }

  lemma LinePieces(rest: seq<byte>, cuts: set<nat>)
    requires rest != []
    ensures if IsCut(rest, cuts) then OnTime(rest, cuts) + [LF] == rest[..LineLength(rest)]
            else OnTime(rest, cuts) == rest[..LineLength(rest)]
  {
    hide LineEnd;
    if LineEnd(rest) < |rest| { LengthFrom(rest, LineEnd(rest)); }
  }

  /** What follows a whole line stays apart from it. */
  lemma PlayedApart(rest: seq<byte>, s: Partial, observe: Observer, cuts: set<nat>, untaken: nat)
    requires rest != [] && (s.event != [] ==> !Terminator(s.event[0])) && Whole(s.event)
    requires Play(rest[LineLength(rest)..], 0, s, observe, cuts, untaken).bytes != []
    ensures var line := rest[..LineLength(rest)];
            Whole(line) && Separate(line, Play(rest[LineLength(rest)..], 0, s, observe, cuts, untaken).bytes)
  {
    var next := rest[LineLength(rest)..];
    StartsLikeStream(next, 0, s, observe, cuts, untaken);
    NothingPlayed(next, s, observe, cuts, untaken);
    LineGoesOn(rest);
    NoLfAfterCr(rest);
    hide Play, LineEnd, LineLength;
  }

  lemma NothingPlayed(next: seq<byte>, s: Partial, observe: Observer, cuts: set<nat>, untaken: nat)
    ensures next == [] ==> Play(next, 0, s, observe, cuts, untaken).bytes == []
  {
  }

  lemma EventPlays(rest: seq<byte>, mark: nat, s: Partial, observe: Observer, cuts: set<nat>, untaken: nat)
    requires Gathered(s) && WritesTexts(observe) && !Fuses(rest, s, observe)
    requires rest != [] && rest[0] != COLON && LineEnd(rest) == 0
    requires ReplyTo(MessageOf(s.data), s.before, observe).Accepted?
    requires ReplyTo(MessageOf(s.data), s.before, observe).terminal ||
             var t := Partial(0, [], [], s.before + MessageOf(s.data));
             var r := Play(rest[LineLength(rest)..], 0, t, observe, cuts, untaken);
             ReadAs(r.bytes, PassedOn(r.messages, t.before, observe))
    ensures var r := Play(rest, mark, s, observe, cuts, untaken);
            ReadAs(r.bytes, PassedOn(r.messages, s.before, observe))
  {
    hide LineEnd, LineLength, JoinLines, Yielded, YieldsNext, Rendered, OnTime, IsCut, Gathered, WritesTexts, ReadAs,
      Rejoin, Separate, Whole, Fuses;
    FreshReads();
    var next, sent := rest[LineLength(rest)..], MessageOf(s.data);
    var reply := ReplyTo(sent, s.before, observe);
    var size := s.used + |OnTime(rest, cuts)| + mark;
    if Yielded(rest, mark, untaken) && size <= MAX_MESSAGE_BYTES {
      EventChunk(rest, s, observe, cuts);
      var chunk := Rendered(s.event + OnTime(rest, cuts), reply.rewritten);
      var passed := PassedOn(sent, s.before, observe);
      if reply.terminal {
        assert chunk + [] == chunk && sent + [] == sent;
      } else {
        var t := Partial(0, [], [], s.before + sent);
        var r := Play(next, 0, t, observe, cuts, untaken);
        if !IsCut(rest, cuts) && r.bytes != [] { EventApart(rest, s, reply.rewritten, t, observe, cuts, untaken); }
        RejoinReads(IsCut(rest, cuts), size, next, t, observe, cuts, untaken, chunk, passed);
        var j := Rejoin(IsCut(rest, cuts), size, next, t, observe, cuts, untaken);
        PassedMore(s.data, j.messages, s.before, observe);
      }
    }
  }

  lemma EventApart(rest: seq<byte>, s: Partial, rewritten: Option<seq<byte>>, t: Partial, observe: Observer,
                   cuts: set<nat>, untaken: nat)
    requires rest != [] && LineEnd(rest) == 0 && !IsCut(rest, cuts) && t.event == []
    requires Play(rest[LineLength(rest)..], 0, t, observe, cuts, untaken).bytes != []
    ensures Separate(Rendered(s.event + OnTime(rest, cuts), rewritten),
                     Play(rest[LineLength(rest)..], 0, t, observe, cuts, untaken).bytes)
  {
    LinePieces(rest, cuts);
    PlayedApart(rest, t, observe, cuts, untaken);
    hide Play, LineEnd, LineLength, OnTime, Metadata;
    var chunk := Rendered(s.event + OnTime(rest, cuts), rewritten);
    LastStays(s.event, OnTime(rest, cuts), rewritten);
  }

  lemma LastStays(event: seq<byte>, b: seq<byte>, rewritten: Option<seq<byte>>)
    ensures var chunk := Rendered(event + b, rewritten);
            b != [] && chunk != [] && chunk[|chunk| - 1] == CR ==> rewritten.None? && b[|b| - 1] == CR
  {
    hide Metadata;
  }

  lemma PassedMore(data: seq<seq<byte>>, more: seq<seq<byte>>, before: seq<seq<byte>>, observe: Observer)
    requires ReplyTo(MessageOf(data), before, observe).Accepted?
    ensures PassedOn(MessageOf(data) + more, before, observe) ==
            PassedOn(MessageOf(data), before, observe) + PassedOn(more, before + MessageOf(data), observe)
  {
    hide JoinLines;
    var sent := MessageOf(data);
    if sent == [] {
      assert sent + more == more && before + sent == before && [] + PassedOn(more, before, observe) ==
        PassedOn(more, before, observe);
    } else {
      assert (sent + more)[1..] == more && sent[1..] == [];
    }
  }

  /** The same of a whole response, of any size and end. */
  lemma ClientSees(stream: seq<byte>, observe: Observer, cuts: set<nat>)
    requires WritesTexts(observe) && !Fuses(StripBom(stream), FRESH, observe)
    ensures var e := Outcomes(stream, observe, cuts); ReadAs(e.bytes, PassedOn(e.messages, [], observe))
  {
    hide Play, Fuses, ReadAs, WritesTexts, Gathered;
    FreshGathered([]);
    ClientReads(StripBom(stream), BomLength(stream), FRESH, observe, cuts, Untaken(|stream|, cuts));
  }

  // ----- exactly when -------------------------------------------------------------------------

  /** What a client has read whenever the response has come this far, without cuts. */
  ghost predicate UpToDate(rest: seq<byte>, observe: Observer) {
    var r := Play(rest, 0, FRESH, observe, {}, 0);
    ReadAs(r.bytes, PassedOn(r.messages, [], observe))
  }

  /** The first line of a part of the stream is the stream's first line, or the part is no longer. */
  lemma PrefixLine(p: seq<byte>, rest: seq<byte>)
    requires p != [] && p <= rest
    ensures LineLength(p) <= LineLength(rest) && p[0] == rest[0]
    ensures p[LineLength(p)..] != [] ==>
              LineEnd(p) == LineEnd(rest) && LineLength(p) == LineLength(rest) &&
              p[..LineEnd(p)] == rest[..LineEnd(p)] && p[..LineLength(p)] == rest[..LineLength(p)] &&
              p[LineLength(p)..] <= rest[LineLength(p)..]
    ensures LineEnd(p) == 0 ==> LineEnd(rest) == 0
  {
    hide LineEnd, LineLength;
    var more := rest[|p|..];
    assert rest == p + more;
    if LineEnd(p) < |p| {
      FirstEndStays(p, more);
      LengthFrom(p, LineEnd(p));
      LengthFrom(rest, LineEnd(p));
      assert forall i :: 0 <= i < |p| ==> rest[i] == p[i];
    } else {
      WithoutEnd(p);
      LineEndAhead(p, more);
    }
  }

  /** A part fuses only what the whole fuses. */
  lemma {:induction false} PartFuses(p: seq<byte>, rest: seq<byte>, s: Partial, observe: Observer)
    requires p <= rest && Fuses(p, s, observe)
    ensures Fuses(rest, s, observe)
    decreases |p|
  {
    hide LineEnd, LineLength, JoinLines, Separate, WithField;
    PrefixLine(p, rest);
    var next := p[LineLength(p)..];
    if next != [] {
      var after := rest[LineLength(rest)..];
      if p[0] == COLON {
        PartFuses(next, after, s, observe);
      } else if LineEnd(p) > 0 {
        SameField(p, rest, s);
        PartFuses(next, after, WithField(p, s, 0), observe);
      } else if ReplyTo(MessageOf(s.data), s.before, observe).Accepted? {
        var t := Partial(0, [], [], s.before + MessageOf(s.data));
        if Fuses(next, t, observe) { PartFuses(next, after, t, observe); }
      }
    } else {
      LfAlone(p, rest);
    }
  }

  lemma SameField(p: seq<byte>, rest: seq<byte>, s: Partial)
    requires p != [] && p <= rest && p[LineLength(p)..] != []
    ensures rest != [] && WithField(p, s, 0) == WithField(rest, s, 0)
  {
    PrefixLine(p, rest);
    hide LineEnd, LineLength, WithData;
  }

  lemma LfAlone(p: seq<byte>, rest: seq<byte>)
    requires p != [] && p <= rest
    ensures p[..LineLength(p)] == [LF] ==> rest[..LineLength(rest)] == [LF] && LineEnd(p) == LineEnd(rest) == 0
  {
    if p[..LineLength(p)] == [LF] {
      assert p[0] == p[..LineLength(p)][0] == LF;
      LineEndIs(p, 0);
      LineEndIs(rest, 0);
      hide LineEnd;
      LengthFrom(rest, 0);
    }
  }

  /** The first line and part of what follows it. */
  lemma LineThenPart(rest: seq<byte>, n: nat)
    requires rest != [] && 1 <= n <= |rest[LineLength(rest)..]|
    ensures var p, next := rest[..LineLength(rest) + n], rest[LineLength(rest)..];
            p != [] && p[0] == rest[0] && LineEnd(p) == LineEnd(rest) && LineLength(p) == LineLength(rest) &&
            p[..LineEnd(p)] == rest[..LineEnd(rest)] && p[..LineLength(p)] == rest[..LineLength(rest)] &&
            p[LineLength(p)..] == next[..n]
  {
    var p := rest[..LineLength(rest) + n];
    LineGoesOn(rest);
    hide LineEnd, LineLength;
    LengthFrom(rest, LineEnd(rest));
    LineEndIs(p, LineEnd(rest));
    LengthFrom(p, LineEnd(rest));
  }

  /** How one line is played without cuts, within the limits. */
  lemma PlaysLine(p: seq<byte>, mark: nat, s: Partial, observe: Observer)
    requires p != [] && s.used + LineLength(p) + mark <= MAX_MESSAGE_BYTES
    ensures var line, next := p[..LineLength(p)], p[LineLength(p)..];
            var r := Play(p, mark, s, observe, {}, 0);
            if p[0] == COLON then r == After(line, [], Play(next, 0, s, observe, {}, 0))
            else if LineEnd(p) > 0 then
              r == Play(next, 0, WithField(p, s, s.used + LineLength(p) + mark), observe, {}, 0)
            else
              match ReplyTo(MessageOf(s.data), s.before, observe)
              case Malformed => true
              case Accepted(rewritten, terminal) =>
                r.bytes == Rendered(s.event + line, rewritten) +
                           if terminal then []
                           else Play(next, 0, Partial(0, [], [], s.before + MessageOf(s.data)), observe, {}, 0).bytes
  {
    hide LineEnd, LineLength, JoinLines, Rendered, WithData;
    assert OnTime(p, {}) == p[..LineLength(p)] && Yielded(p, mark, 0) && !IsCut(p, {});
    if p[0] != COLON && LineEnd(p) == 0 && ReplyTo(MessageOf(s.data), s.before, observe).Accepted? {
      var t := Partial(0, [], [], s.before + MessageOf(s.data));
      var size := s.used + LineLength(p) + mark;
      assert Rejoin(false, size, p[LineLength(p)..], t, observe, {}, 0) ==
             Play(p[LineLength(p)..], 0, t, observe, {}, 0);
    }
  }

  lemma ChunkLeft(s: Partial, b: seq<byte>, rewritten: Option<seq<byte>>)
    requires Gathered(s) && IsBlank(b) && (rewritten.None? ==> s.data == [] || !Fused(s.event, b))
    requires rewritten.Some? ==> rewritten.value != [] && Plain(rewritten.value)
    ensures Whole(Rendered(s.event + b, rewritten)) && Left(Rendered(s.event + b, rewritten), []) == []
  {
    hide Messages, Left, Metadata;
    if rewritten.None? {
      AsItIs(s, b);
    } else {
      assert Whole(s.event + b) by { assert (s.event + b)[|s.event + b| - 1] == b[|b| - 1]; }
      Rewritten(s.event + b, rewritten.value);
    }
  }

  /** Where an event is fused, a client that has been sent this far still holds its data. */
  lemma {:induction false} FusedPart(rest: seq<byte>, mark: nat, s: Partial, observe: Observer) returns (n: nat)
    requires Gathered(s) && WritesTexts(observe) && Fuses(rest, s, observe) && WithinBudget(s.used, rest, mark)
    ensures 1 <= n <= |rest| && Left(Play(rest[..n], mark, s, observe, {}, 0).bytes, []) != []
    decreases |rest|
  {
    hide LineEnd, LineLength, JoinLines, Rendered, Gathered, WritesTexts, Left, Play, WithField, Separate;
    var line, next := rest[..LineLength(rest)], rest[LineLength(rest)..];
    if rest[0] == COLON {
      var k := FusedPart(next, 0, s, observe);
      n := LineLength(rest) + k;
      LineThenPart(rest, k);
      PlaysLine(rest[..n], mark, s, observe);
      CommentLeft(rest[..n], s, observe);
    } else if LineEnd(rest) > 0 {
      var used := s.used + LineLength(rest) + mark;
      FusesGoesOn(next, WithField(rest, s, 0), observe);
      LineGoesOn(rest);
      FieldGathered(rest, s, used);
      UsedDoesNotMatter(next, WithField(rest, s, 0), used, observe);
      FieldIs(rest, s, used);
      var k := FusedPart(next, 0, WithField(rest, s, used), observe);
      n := LineLength(rest) + k;
      LineThenPart(rest, k);
      PlaysLine(rest[..n], mark, s, observe);
      SameFieldUsed(rest[..n], rest, s, used);
    } else {
      n := FusedBlank(rest, mark, s, observe);
    }
  }

  lemma FusesGoesOn(next: seq<byte>, s: Partial, observe: Observer)
    requires Fuses(next, s, observe)
    ensures next != []
  {
  }

  lemma FieldIs(rest: seq<byte>, s: Partial, used: nat)
    requires rest != []
    ensures WithField(rest, s, used).used == used && WithField(rest, s, used) == WithField(rest, s, 0).(used := used)
  {
  }

  lemma SameFieldUsed(p: seq<byte>, rest: seq<byte>, s: Partial, used: nat)
    requires p != [] && rest != [] && p[..LineLength(p)] == rest[..LineLength(rest)]
    requires p[..LineEnd(p)] == rest[..LineEnd(rest)]
    ensures WithField(p, s, used) == WithField(rest, s, used)
  {
  }

  lemma CommentLeft(p: seq<byte>, s: Partial, observe: Observer)
    requires Gathered(s) && p != [] && p[0] == COLON
    requires Left(Play(p[LineLength(p)..], 0, s, observe, {}, 0).bytes, []) != []
    ensures Left(p[..LineLength(p)] + Play(p[LineLength(p)..], 0, s, observe, {}, 0).bytes, []) != []
  {
    hide LineEnd, LineLength, Play, Messages, Separate, Whole;
    var more := Play(p[LineLength(p)..], 0, s, observe, {}, 0).bytes;
    PlayedApart(p, s, observe, {}, 0);
    CommentReads(p, {});
    ReadsOn(p[..LineLength(p)], more, []);
  }

  lemma {:induction false} FusedBlank(rest: seq<byte>, mark: nat, s: Partial, observe: Observer) returns (n: nat)
    requires Gathered(s) && WritesTexts(observe) && Fuses(rest, s, observe) && WithinBudget(s.used, rest, mark)
    requires rest != [] && rest[0] != COLON && LineEnd(rest) == 0
    ensures 1 <= n <= |rest| && Left(Play(rest[..n], mark, s, observe, {}, 0).bytes, []) != []
    decreases |rest|, 0
  {
    hide LineEnd, LineLength, JoinLines, Gathered, WritesTexts, Left, Play, Separate, WithinBudget, Rendered, Fuses,
      OnTime;
    var line, next := rest[..LineLength(rest)], rest[LineLength(rest)..];
    BlankPieces(rest, {});
    BlankFits(rest, mark, s);
    BlankFuses(rest, s, observe);
    var reply := ReplyTo(MessageOf(s.data), s.before, observe);
    if reply.rewritten.None? && s.data != [] && Fused(s.event, line) {
      n := 1;
      LfAloneIs(rest);
      PlaysLine(rest[..1], mark, s, observe);
      ClosedReads(s, line, []);
      var t := Partial(0, [], [], s.before + MessageOf(s.data));
      NothingPlayed([], t, observe, {}, 0);
      RenderedPlain(s.event + line);
      assert [] + s.data == s.data && s.event + line + [] == s.event + line;
      assert rest[..1][..1] == line && rest[..1][1..] == [];
    } else {
      var t := Partial(0, [], [], s.before + MessageOf(s.data));
      FreshGathered(s.before + MessageOf(s.data));
      var k := FusedPart(next, 0, t, observe);
      n := LineLength(rest) + k;
      LineThenPart(rest, k);
      PlaysLine(rest[..n], mark, s, observe);
      TextWritten(s, observe);
      ChunkLeft(s, line, reply.rewritten);
      EventLeft(rest[..n], s, reply.rewritten, t, observe);
    }
  }

  lemma RenderedPlain(event: seq<byte>)
    ensures Rendered(event, None) == event
  {
  }

  lemma BlankFits(rest: seq<byte>, mark: nat, s: Partial)
    requires rest != [] && rest[0] != COLON && LineEnd(rest) == 0 && WithinBudget(s.used, rest, mark)
    ensures var size := s.used + LineLength(rest) + mark; size <= MAX_MESSAGE_BYTES && s.used + 1 + mark <= size
    ensures WithinBudget(0, rest[LineLength(rest)..], 0)
  {
    hide LineEnd, LineLength;
  }

  lemma BlankFuses(rest: seq<byte>, s: Partial, observe: Observer)
    requires rest != [] && rest[0] != COLON && LineEnd(rest) == 0 && Fuses(rest, s, observe)
    ensures var reply := ReplyTo(MessageOf(s.data), s.before, observe);
            reply.Accepted? &&
            (!(reply.rewritten.None? && s.data != [] && Fused(s.event, rest[..LineLength(rest)])) ==>
               !reply.terminal &&
               Fuses(rest[LineLength(rest)..], Partial(0, [], [], s.before + MessageOf(s.data)), observe))
  {
  }

  lemma LfAloneIs(rest: seq<byte>)
    requires rest != [] && rest[..LineLength(rest)] == [LF] && LineEnd(rest) == 0
    ensures rest[..1] == [LF] && LineEnd([LF]) == 0 && LineLength([LF]) == 1
  {
    LineEndIs([LF], 0);
    hide LineEnd;
    LengthFrom([LF], 0);
  }

  lemma TextWritten(s: Partial, observe: Observer)
    requires WritesTexts(observe)
    ensures var reply := ReplyTo(MessageOf(s.data), s.before, observe);
            reply.Accepted? && reply.rewritten.Some? ==> reply.rewritten.value != [] && Plain(reply.rewritten.value)
  {
    hide JoinLines, Plain;
  }

  lemma EventLeft(p: seq<byte>, s: Partial, rewritten: Option<seq<byte>>, t: Partial, observe: Observer)
    requires p != [] && LineEnd(p) == 0 && t.event == []
    requires Whole(Rendered(s.event + p[..LineLength(p)], rewritten)) &&
             Left(Rendered(s.event + p[..LineLength(p)], rewritten), []) == []
    requires Left(Play(p[LineLength(p)..], 0, t, observe, {}, 0).bytes, []) != []
    ensures Left(Rendered(s.event + p[..LineLength(p)], rewritten) +
                 Play(p[LineLength(p)..], 0, t, observe, {}, 0).bytes, []) != []
  {
    BlankPieces(p, {});
    EventApart(p, s, rewritten, t, observe, {}, 0);
    hide LineEnd, LineLength, Play, Messages, Separate, Whole, Rendered;
    ReadsOn(Rendered(s.event + p[..LineLength(p)], rewritten), Play(p[LineLength(p)..], 0, t, observe, {}, 0).bytes,
      []);
  }

  /**
    A client that reads what has been forwarded is up to date, whenever the response has come
    this far, exactly if no event with data is fused with its blank line.
  */
  lemma UpToDateIff(rest: seq<byte>, observe: Observer)
    requires WritesTexts(observe) && WithinBudget(0, rest, 0)
    ensures (forall n: nat :: n <= |rest| ==> UpToDate(rest[..n], observe)) <==> !Fuses(rest, FRESH, observe)
  {
    hide Play, Fuses, WritesTexts, Gathered, WithinBudget;
    FreshGathered([]);
    if Fuses(rest, FRESH, observe) {
      var n := FusedPart(rest, 0, FRESH, observe);
      assert !UpToDate(rest[..n], observe);
    } else {
      forall n: nat | n <= |rest| ensures UpToDate(rest[..n], observe) {
        if Fuses(rest[..n], FRESH, observe) { PartFuses(rest[..n], rest, FRESH, observe); }
        ClientReads(rest[..n], 0, FRESH, observe, {}, 0);
      }
    }
  }

  /** A data line that ends in CR, a comment, and a blank line that is LF. */
  function FusedEvent(m: seq<byte>): seq<byte> { DATA + [SPACE] + m + [CR] + [COLON, LF, LF] }

  /** The observer is handed the message, and the client is sent its line but no blank line. */
  lemma FusedIsHeld(m: seq<byte>, observe: Observer)
    requires Plain(m) && m != [] && |m| <= 1000 && observe([], m) == PASSED
    ensures Fuses(FusedEvent(m), FRESH, observe) && Messages(FusedEvent(m), []) == [m]
    ensures Play(FusedEvent(m), 0, FRESH, observe, {}, 0).bytes == [COLON, LF] + (DATA + [SPACE] + m + [CR, LF])
    ensures Messages([COLON, LF] + (DATA + [SPACE] + m + [CR, LF]), []) == []
  {
    hide LineEnd, LineLength, Play, Plain, Rendered, Fuses, Messages, WithField, FusedEvent;
    FusedMeans(m, observe);
    FusedField(m);
    PlaysLine(FusedEvent(m), 0, FRESH, observe);
    CommentThenBlank(FieldRead(m), m, observe);
    HeldReads(m);
  }

  /** The event after its data line. */
  function FieldRead(m: seq<byte>): Partial { Partial(|m| + 7, DATA + [SPACE] + m + [CR], [m], []) }

  lemma FusedField(m: seq<byte>)
    requires Plain(m)
    ensures var s := FusedEvent(m);
            s != [] && s[0] != COLON && LineEnd(s) > 0 && LineLength(s) == |m| + 7 && s[|m| + 7..] == [COLON, LF, LF] &&
            WithField(s, FRESH, |m| + 7) == FieldRead(m)
  {
    hide LineEnd, LineLength, Plain;
    FusedPieces(m);
    ValueGiven(DATA + [SPACE] + m, m, []);
    assert [] + [m] == [m] && [] + (DATA + [SPACE] + m + [CR]) == DATA + [SPACE] + m + [CR];
  }

  lemma CommentThenBlank(t: Partial, m: seq<byte>, observe: Observer)
    requires t == FieldRead(m) && Plain(m) && m != [] && |m| <= 1000 && observe([], m) == PASSED
    ensures Play([COLON, LF, LF], 0, t, observe, {}, 0).bytes == [COLON, LF] + (DATA + [SPACE] + m + [CR, LF])
  {
    hide LineEnd, LineLength, Play, Plain, Rendered;
    FusedPieces(m);
    assert [COLON, LF, LF][..2] == [COLON, LF] && [COLON, LF, LF][2..] == [LF] && [LF][1..] == [] && [LF][..1] == [LF];
    PlaysLine([COLON, LF, LF], 0, t, observe);
    PlaysLine([LF], 0, t, observe);
    JoinedOne(m);
    RenderedPlain(t.event + [LF]);
    NothingPlayed([], Partial(0, [], [], [m]), observe, {}, 0);
    assert t.before + [m] == [m] && t.event + [LF] + [] == DATA + [SPACE] + m + [CR, LF];
  }

  lemma FusedPieces(m: seq<byte>)
    requires Plain(m)
    ensures var line, s := DATA + [SPACE] + m, FusedEvent(m);
            s != [] && s[0] != COLON && LineEnd(s) == |line| && LineLength(s) == |line| + 1 && s[..|line|] == line &&
            s[..|line| + 1] == line + [CR] && s[|line| + 1..] == [COLON, LF, LF]
    ensures LineEnd([COLON, LF, LF]) == 1 && LineLength([COLON, LF, LF]) == 2 && LineEnd([LF]) == 0 &&
            LineLength([LF]) == 1
  {
    hide LineEnd, LineLength;
    var line, s := DATA + [SPACE] + m, FusedEvent(m);
    DataLinePlain(m);
    FirstLine(line, [CR], [COLON, LF, LF]);
    assert s[0] == DATA[0] && s[..|line| + 1] == line + [CR];
    var c: seq<byte> := [COLON];
    FirstLine(c, [LF], [LF]);
    assert c + [LF] + [LF] == [COLON, LF, LF];
    FirstLine([], [LF], []);
    assert [] + [LF] + [] == [LF];
  }

  lemma FusedMeans(m: seq<byte>, observe: Observer)
    requires Plain(m) && m != [] && observe([], m) == PASSED
    ensures Fuses(FusedEvent(m), FRESH, observe) && Messages(FusedEvent(m), []) == [m]
  {
    hide LineEnd, LineLength, Plain;
    FusedPieces(m);
    var line, s := DATA + [SPACE] + m, FusedEvent(m);
    ValueGiven(line, m, []);
    JoinedOne(m);
    assert [] + [m] == [m] && [] + (line + [CR]) == line + [CR];
    assert [COLON, LF, LF][2..] == [LF] && [LF][1..] == [] && [LF][..1] == [LF];
    var t := Partial(0, line + [CR], [m], []);
    assert WithField(s, FRESH, 0) == t;
    assert Fused(t.event, [LF]);
    assert Fuses([LF], t, observe) && Fuses([COLON, LF, LF], t, observe);
    assert Messages([LF], [m]) == [m] + [] && Messages([COLON, LF, LF], [m]) == Messages([LF], [m]);
  }

  lemma HeldReads(m: seq<byte>)
    requires Plain(m)
    ensures Messages([COLON, LF] + (DATA + [SPACE] + m + [CR, LF]), []) == []
  {
    hide LineEnd, LineLength;
    var c: seq<byte> := [COLON];
    var line := DATA + [SPACE] + m;
    var event := line + [CR, LF];
    var all := [COLON, LF] + event;
    DataLinePlain(m);
    FirstLine(c, [LF], event);
    assert c + [LF] + event == all && all[0] == COLON;
    FirstLine(line, [CR, LF], []);
    assert line + [CR, LF] + [] == event && event[0] == DATA[0];
    assert Messages(all, []) == Messages(event, []);
    assert Messages(event, []) == Messages([], WithData([], line));
  }
}

/**
  Which data an event carries. A sender writes each message as data lines, in one or several
  parts; the messages observed are the ones it wrote, and nothing else is observed. An event
  that the observer rewrote carries the rewritten message and keeps its other fields.
*/
module SseData {
  import opened Wrappers
  import opened SseLines
  import opened SseEvents

  predicate Plain(s: seq<byte>) { forall i :: 0 <= i < |s| ==> !Terminator(s[i]) }

  // ----- lines and the values on them ---------------------------------------------------------

  /** The line carries this value, after at most one space. */
  predicate Carries(line: seq<byte>, v: seq<byte>) {
    line == DATA + [SPACE] + v || (line == DATA + v && !([SPACE] <= v))
  }

  function ValueOn(line: seq<byte>): (v: seq<byte>)
    requires DATA <= line
    ensures Carries(line, v)
  {
    assert line == DATA + line[|DATA|..];
    if line[|DATA|..] != [] && line[|DATA|] == SPACE then line[|DATA| + 1..] else line[|DATA|..]
  }

  lemma CarriesOne(line: seq<byte>, v: seq<byte>, w: seq<byte>)
    requires Carries(line, v) && Carries(line, w)
    ensures v == w && DATA <= line
  {
    assert v == line[|line| - |v|..] && w == line[|line| - |w|..];
  }

  /** The values of the data lines, in order. */
  function Values(lines: seq<seq<byte>>): seq<seq<byte>> {
    if lines == [] then []
    else (if DATA <= lines[0] then [ValueOn(lines[0])] else []) + Values(lines[1..])
  }

  /** Parts put together with an LF between neighbours. */
  function Join(parts: seq<seq<byte>>): seq<byte> {
    if parts == [] then [] else if |parts| == 1 then parts[0] else parts[0] + [LF] + Join(parts[1..])
  }

  /** The parts of a message between its LFs. */
  function Parts(m: seq<byte>): (r: seq<seq<byte>>)
    ensures r != []
  {
    if m == [] then [[]]
    else
      var more := Parts(m[1..]);
      if m[0] == LF then [[]] + more else [[m[0]] + more[0]] + more[1..]
  }

  lemma {:induction false} PartsJoin(m: seq<byte>)
    ensures Join(Parts(m)) == m
  {
    if m != [] {
      var more := Parts(m[1..]);
      PartsJoin(m[1..]);
      assert m == [m[0]] + m[1..];
      if m[0] == LF {
        assert ([[]] + more)[1..] == more && [] + [LF] + Join(more) == [LF] + Join(more);
      } else {
        JoinLonger(m[0], more);
      }
    }
  }

  lemma JoinLonger(b: byte, more: seq<seq<byte>>)
    requires more != []
    ensures Join([[b] + more[0]] + more[1..]) == [b] + Join(more)
  {
    var r := [[b] + more[0]] + more[1..];
    assert r[0] == [b] + more[0] && r[1..] == more[1..];
    assert [b] + more[0] + [LF] + Join(more[1..]) == [b] + (more[0] + [LF] + Join(more[1..]));
  }

  /** No part contains an LF. */
  lemma {:induction false} PartsPlain(m: seq<byte>)
    ensures forall p :: p in Parts(m) ==> LF !in p && (CR !in m ==> CR !in p)
  {
    if m != [] {
      var more := Parts(m[1..]);
      PartsPlain(m[1..]);
      assert m == [m[0]] + m[1..] && more == [more[0]] + more[1..];
      forall p | p in Parts(m) ensures LF !in p && (CR !in m ==> CR !in p) {
        assert p in more || (m[0] != LF && p == [m[0]] + more[0]) || p == [];
      }
    }
  }

  // ----- the blocks between blank lines -------------------------------------------------------

  /** The lines from `a` to the blank line at `b`, after a blank line or from the start. */
  predicate IsBlock(lines: seq<seq<byte>>, a: nat, b: nat) {
    a <= b < |lines| && lines[b] == [] && (a == 0 || lines[a - 1] == []) && forall i :: a <= i < b ==> lines[i] != []
  }

  /** The blocks that are closed by a blank line, when `open` came before. */
  function Blocks(lines: seq<seq<byte>>, open: seq<seq<byte>>): seq<seq<seq<byte>>> {
    if lines == [] then []
    else if lines[0] == [] then [open] + Blocks(lines[1..], [])
    else Blocks(lines[1..], open + [lines[0]])
  }

  /** The block is one between blank lines, from `from` on. */
  ghost predicate BlockFrom(lines: seq<seq<byte>>, from: nat, block: seq<seq<byte>>) {
    exists a: nat, b: nat :: from <= a && IsBlock(lines, a, b) && block == lines[a..b]
  }

  /** Each closed block is one between blank lines, and the other way round. */
  lemma {:induction false} BlocksIff(lines: seq<seq<byte>>, from: nat, open: nat, block: seq<seq<byte>>)
    requires open <= from <= |lines| && (open == 0 || lines[open - 1] == [])
    requires forall i :: open <= i < from ==> lines[i] != []
    ensures block in Blocks(lines[from..], lines[open..from]) <==> BlockFrom(lines, open, block)
    decreases |lines| - from
  {
    hide BlockFrom;
    if from == |lines| {
      NoBlockFrom(lines, open, block);
    } else {
      var rest := lines[from..];
      assert rest[1..] == lines[from + 1..] && lines[open..from] + [rest[0]] == lines[open..from + 1];
      if rest[0] == [] {
        assert lines[from + 1..from + 1] == [];
        BlocksIff(lines, from + 1, from + 1, block);
        FirstBlock(lines, from, open, block);
      } else {
        BlocksIff(lines, from + 1, open, block);
      }
    }
  }

  lemma NoBlockFrom(lines: seq<seq<byte>>, open: nat, block: seq<seq<byte>>)
    requires forall i :: open <= i < |lines| ==> lines[i] != []
    ensures !BlockFrom(lines, open, block)
  {
  }

  lemma FirstBlock(lines: seq<seq<byte>>, from: nat, open: nat, block: seq<seq<byte>>)
    requires open <= from < |lines| && (open == 0 || lines[open - 1] == []) && lines[from] == []
    requires forall i :: open <= i < from ==> lines[i] != []
    ensures BlockFrom(lines, open, block) <==> block == lines[open..from] || BlockFrom(lines, from + 1, block)
  {
    assert IsBlock(lines, open, from);
    if BlockFrom(lines, open, block) {
      var a: nat, b: nat :| open <= a && IsBlock(lines, a, b) && block == lines[a..b];
      if a <= from {
        assert b == from && a == open;
      }
    }
  }

  /** What the blocks say: one message for each block with data. */
  function Said(blocks: seq<seq<seq<byte>>>): seq<seq<byte>> {
    if blocks == [] then []
    else (if Join(Values(blocks[0])) != [] then [Join(Values(blocks[0]))] else []) + Said(blocks[1..])
  }

  lemma {:induction false} JoinAppend(parts: seq<seq<byte>>, last: seq<byte>)
    requires parts != []
    ensures Join(parts + [last]) == Join(parts) + [LF] + last
  {
    var all := parts + [last];
    assert all[1..] == parts[1..] + [last];
    if |parts| > 1 {
      JoinAppend(parts[1..], last);
    } else {
      assert all[1..] == [last];
    }
  }

  lemma {:induction false} JoinedAlike(data: seq<seq<byte>>)
    ensures JoinLines(data) == Join(data)
  {
    if |data| > 1 {
      var front := data[..|data| - 1];
      assert data == front + [data[|data| - 1]];
      JoinedAlike(front);
      JoinAppend(front, data[|data| - 1]);
    }
  }

  lemma {:induction false} ValuesAppend(lines: seq<seq<byte>>, line: seq<byte>)
    ensures Values(lines + [line]) == Values(lines) + if DATA <= line then [ValueOn(line)] else []
  {
    hide ValueOn;
    if lines == [] {
      assert lines + [line] == [line] && [line][1..] == [];
    } else {
      assert (lines + [line])[1..] == lines[1..] + [line];
      ValuesAppend(lines[1..], line);
    }
  }

  lemma ValuesMore(lines: seq<seq<byte>>, content: seq<byte>)
    ensures Values(lines + [content]) == WithData(Values(lines), content)
  {
    hide ValueOn, DataValue;
    ValuesAppend(lines, content);
    if DATA <= content { SameValue(content); }
  }

  lemma SameValue(content: seq<byte>)
    requires DATA <= content
    ensures ValueOn(content) == DataValue(content)
  {
    assert [SPACE] <= content[5..] ==> content[5..][0] == SPACE;
  }

  /** The messages of a stream are what its blocks of lines say, in order. */
  lemma {:induction false} MessagesAreBlocks(rest: seq<byte>, open: seq<seq<byte>>)
    ensures Messages(rest, Values(open)) == Said(Blocks(SplitLines(rest), open))
    decreases |rest|
  {
    if rest != [] {
      var lines, next := SplitLines(rest), rest[LineLength(rest)..];
      var content := rest[..LineEnd(rest)];
      assert lines[0] == content && lines[1..] == SplitLines(next);
      if content == [] {
        JoinedAlike(Values(open));
        MessagesAreBlocks(next, []);
        var blocks := Blocks(SplitLines(next), []);
        assert ([open] + blocks)[1..] == blocks;
      } else {
        ValuesMore(open, content);
        if rest[0] == COLON { assert content[0] == COLON; }
        MessagesAreBlocks(next, open + [content]);
      }
    }
  }

  /** Every message observed is what the data lines between two blank lines say. */
  lemma ObservedIsBlock(rest: seq<byte>, m: seq<byte>)
    ensures m in Messages(rest, []) <==>
            m != [] && var lines := SplitLines(rest);
                       exists a: nat, b: nat :: IsBlock(lines, a, b) && m == Join(Values(lines[a..b]))
  {
    hide Blocks, Join, Values, SplitLines, Messages, Said;
    var lines := SplitLines(rest);
    MessagesAreBlocks(rest, []);
    NoValues();
    SaidIn(Blocks(lines, []), m);
    forall block ensures block in Blocks(lines, []) <==> BlockFrom(lines, 0, block) { BlocksOf(lines, block); }
    if exists a: nat, b: nat :: IsBlock(lines, a, b) && m == Join(Values(lines[a..b])) {
      var a: nat, b: nat :| IsBlock(lines, a, b) && m == Join(Values(lines[a..b]));
      assert BlockFrom(lines, 0, lines[a..b]);
    }
    if exists block :: block in Blocks(lines, []) && m == Join(Values(block)) {
      var block :| block in Blocks(lines, []) && m == Join(Values(block));
      var a: nat, b: nat :| IsBlock(lines, a, b) && block == lines[a..b];
    }
  }

  lemma NoValues()
    ensures Values([]) == []
  {
  }

  lemma BlocksOf(lines: seq<seq<byte>>, block: seq<seq<byte>>)
    ensures block in Blocks(lines, []) <==> BlockFrom(lines, 0, block)
  {
    hide Blocks, BlockFrom;
    assert lines[0..] == lines && lines[0..0] == [];
    BlocksIff(lines, 0, 0, block);
  }

  lemma {:induction false} SaidIn(blocks: seq<seq<seq<byte>>>, m: seq<byte>)
    ensures m in Said(blocks) <==> m != [] && exists block :: block in blocks && m == Join(Values(block))
  {
    hide Join, Values;
    if blocks != [] {
      SaidIn(blocks[1..], m);
      assert blocks == [blocks[0]] + blocks[1..];
      if exists block :: block in blocks && m == Join(Values(block)) {
        var block :| block in blocks && m == Join(Values(block));
        assert block == blocks[0] || block in blocks[1..];
      }
      if exists block :: block in blocks[1..] && m == Join(Values(block)) {
        var block :| block in blocks[1..] && m == Join(Values(block));
        assert block in blocks;
      }
      if m == Join(Values(blocks[0])) { assert blocks[0] in blocks; }
    }
  }

  // ----- writing events -----------------------------------------------------------------------

  /** A line of an event: data, after a space or not, or a comment or another field. */
  datatype Item = Data(value: seq<byte>, space: bool) | Other(line: seq<byte>)

  function ItemLine(item: Item): seq<byte> {
    match item
    case Data(value, space) => DATA + (if space then [SPACE] else []) + value
    case Other(line) => line
  }

  /** Without a space a value must not start with one; another line is not empty and carries no data. */
  predicate ItemOk(item: Item) {
    match item
    case Data(value, space) => Plain(value) && (space || !([SPACE] <= value))
    case Other(line) => Plain(line) && line != [] && !(DATA <= line)
  }

  /** How lines end: all in the same way. */
  predicate IsEol(eol: seq<byte>) { eol == [LF] || eol == [CR] || eol == [CR, LF] }

  function WriteItems(items: seq<Item>, eol: seq<byte>): seq<byte> {
    if items == [] then eol else ItemLine(items[0]) + eol + WriteItems(items[1..], eol)
  }

  function WriteEvents(events: seq<seq<Item>>, eol: seq<byte>): seq<byte> {
    if events == [] then [] else WriteItems(events[0], eol) + WriteEvents(events[1..], eol)
  }

  function ValuesOf(items: seq<Item>): seq<seq<byte>> {
    if items == [] then [] else (if items[0].Data? then [items[0].value] else []) + ValuesOf(items[1..])
  }

  predicate ItemsOk(items: seq<Item>) { forall i :: 0 <= i < |items| ==> ItemOk(items[i]) }

  /** An event that says this message: its parts on data lines, with any other lines between. */
  predicate Says(items: seq<Item>, m: seq<byte>) { ItemsOk(items) && ValuesOf(items) == Parts(m) }

  /** The next written line is not taken for the end of the line before. */
  predicate Apart(eol: seq<byte>, rest: seq<byte>) { eol == [CR] && rest != [] ==> rest[0] != LF }

  lemma FirstLine(line: seq<byte>, eol: seq<byte>, rest: seq<byte>)
    requires Plain(line) && IsEol(eol) && Apart(eol, rest)
    ensures var s := line + eol + rest;
            s != [] && LineEnd(s) == |line| && LineLength(s) == |line| + |eol| && s[..LineEnd(s)] == line &&
            s[LineLength(s)..] == rest
  {
    var s := line + eol + rest;
    assert s[|line|] == eol[0] && forall i :: 0 <= i < |line| ==> s[i] == line[i];
    LineEndIs(s, |line|);
    LengthFrom(s, |line|);
    hide LineEnd, LineLength;
    assert |eol| == 1 && rest != [] ==> s[|line| + 1] == rest[0];
    assert |eol| == 2 ==> s[|line| + 1] == eol[1];
    assert s == (line + eol) + rest;
  }

  lemma ItemsApart(items: seq<Item>, eol: seq<byte>, more: seq<byte>)
    requires ItemsOk(items) && IsEol(eol)
    ensures Apart(eol, WriteItems(items, eol) + more)
  {
    if items != [] {
      assert ItemOk(items[0]);
      var line := ItemLine(items[0]);
      assert line != [] ==> !Terminator(line[0]);
    }
  }

  lemma ItemContent(item: Item)
    requires ItemOk(item)
    ensures Plain(ItemLine(item)) && ItemLine(item) != []
    ensures item.Data? ==> Carries(ItemLine(item), item.value) && DATA <= ItemLine(item)
    ensures item.Other? ==> !(DATA <= ItemLine(item))
  {
    if item.Data? {
      var line := ItemLine(item);
      assert line == DATA + ((if item.space then [SPACE] else []) + item.value);
      if !item.space { assert line == DATA + item.value; }
    }
  }

  /** One written event is read as the block of its lines. */
  lemma {:induction false} EventReads(items: seq<Item>, eol: seq<byte>, more: seq<byte>, open: seq<seq<byte>>)
    requires ItemsOk(items) && IsEol(eol) && Apart(eol, more)
    ensures Messages(WriteItems(items, eol) + more, open) ==
            MessageOf(open + ValuesOf(items)) + Messages(more, [])
  {
    hide Messages, ItemOk, ItemLine, MessageOf, IsEol, Apart;
    NextValues(items, open);
    if items == [] {
      BlankReads(eol, more, open);
    } else {
      var rest := WriteItems(items[1..], eol) + more;
      FirstItem(items, eol, more);
      hide WriteItems, ValuesOf;
      ItemsApart(items[1..], eol, more);
      ReadsItem(items[0], eol, rest, open);
      var next := if items[0].Data? then open + [items[0].value] else open;
      EventReads(items[1..], eol, more, next);
    }
  }

  lemma NextValues(items: seq<Item>, open: seq<seq<byte>>)
    ensures items == [] ==> open + ValuesOf(items) == open
    ensures items != [] ==>
              (if items[0].Data? then open + [items[0].value] else open) + ValuesOf(items[1..]) ==
              open + ValuesOf(items)
  {
  }

  lemma FirstItem(items: seq<Item>, eol: seq<byte>, more: seq<byte>)
    requires items != []
    ensures WriteItems(items, eol) + more == ItemLine(items[0]) + eol + (WriteItems(items[1..], eol) + more)
  {
    hide ItemLine;
    assert WriteItems(items, eol) == ItemLine(items[0]) + eol + WriteItems(items[1..], eol);
  }

  lemma BlankReads(eol: seq<byte>, more: seq<byte>, open: seq<seq<byte>>)
    requires IsEol(eol) && Apart(eol, more)
    ensures Messages(eol + more, open) == MessageOf(open) + Messages(more, [])
  {
    hide LineEnd, LineLength, MessageOf;
    assert [] + eol + more == eol + more;
    FirstLine([], eol, more);
    assert (eol + more)[0] == eol[0];
  }

  lemma ReadsItem(item: Item, eol: seq<byte>, rest: seq<byte>, open: seq<seq<byte>>)
    requires ItemOk(item) && IsEol(eol) && Apart(eol, rest)
    ensures Messages(ItemLine(item) + eol + rest, open) ==
            Messages(rest, if item.Data? then open + [item.value] else open)
  {
    hide LineEnd, LineLength, Carries, ItemOk, ItemLine, DataValue;
    var line := ItemLine(item);
    var s := line + eol + rest;
    ItemContent(item);
    FirstLine(line, eol, rest);
    assert s[0] == line[0];
    if item.Data? {
      SameValue(line);
      CarriesOne(line, item.value, ValueOn(line));
      ColonFirst(line);
    }
  }

  /** A data line is no comment. */
  lemma ColonFirst(line: seq<byte>)
    requires DATA <= line
    ensures line[0] != COLON
  {
    assert line[0] == DATA[0];
  }

  /**
    The messages that are observed are the ones that were written, however each was split into
    data lines, with any comments and other fields between them, and whichever way lines end.
  */
  lemma {:induction false} WrittenAreObserved(events: seq<seq<Item>>, eol: seq<byte>, messages: seq<seq<byte>>)
    requires |events| == |messages| && IsEol(eol)
    requires forall i :: 0 <= i < |events| ==> Says(events[i], messages[i]) && messages[i] != []
    ensures Messages(WriteEvents(events, eol), []) == messages
  {
    hide Messages, Says, WriteItems, IsEol, Apart, MessageOf, Parts;
    if events == [] {
      NoMessages();
    } else {
      var items, more := events[0], WriteEvents(events[1..], eol);
      SaysItems(items, messages[0]);
      assert Says(events[0], messages[0]);
      forall i | 0 <= i < |events| - 1 ensures Says(events[1..][i], messages[1..][i]) && messages[1..][i] != [] {
        assert Says(events[i + 1], messages[i + 1]);
      }
      WrittenAreObserved(events[1..], eol, messages[1..]);
      EventsApart(events[1..], eol, messages[1..]);
      EventReads(items, eol, more, []);
      assert [] + ValuesOf(items) == ValuesOf(items);
      PartsSaid(messages[0]);
      assert messages == [messages[0]] + messages[1..];
    }
  }

  lemma NoMessages()
    ensures Messages([], []) == []
  {
  }

  lemma SaysItems(items: seq<Item>, m: seq<byte>)
    requires Says(items, m)
    ensures ItemsOk(items) && ValuesOf(items) == Parts(m)
  {
  }

  lemma PartsSaid(m: seq<byte>)
    requires m != []
    ensures MessageOf(Parts(m)) == [m]
  {
    JoinedAlike(Parts(m));
    PartsJoin(m);
  }

  lemma EventsApart(events: seq<seq<Item>>, eol: seq<byte>, messages: seq<seq<byte>>)
    requires |events| == |messages| && IsEol(eol) && forall i :: 0 <= i < |events| ==> Says(events[i], messages[i])
    ensures Apart(eol, WriteEvents(events, eol))
  {
    if events != [] {
      assert Says(events[0], messages[0]);
      ItemsApart(events[0], eol, WriteEvents(events[1..], eol));
    }
  }

  /** One data line for each part. */
  function DataLines(parts: seq<seq<byte>>): seq<Item> {
    if parts == [] then [] else [Data(parts[0], true)] + DataLines(parts[1..])
  }

  /** Any message without CR can be written. */
  lemma AnyCanBeWritten(m: seq<byte>)
    requires CR !in m
    ensures Says(DataLines(Parts(m)), m)
  {
    PartsPlain(m);
    DataLinesSay(Parts(m));
  }

  lemma {:induction false} DataLinesSay(parts: seq<seq<byte>>)
    requires forall p :: p in parts ==> LF !in p && CR !in p
    ensures ItemsOk(DataLines(parts)) && ValuesOf(DataLines(parts)) == parts
  {
    if parts != [] {
      DataLinesSay(parts[1..]);
      assert parts == [parts[0]] + parts[1..] && parts[0] in parts;
    }
  }

  // ----- rewriting an event -------------------------------------------------------------------

  /** The fields of an event that carry no data, in order. */
  function Fields(lines: seq<seq<byte>>): seq<seq<byte>> {
    if lines == [] then []
    else (if lines[0] != [] && !(DATA <= lines[0]) then [lines[0]] else []) + Fields(lines[1..])
  }

  lemma SplitFirst(s: seq<byte>)
    requires s != []
    ensures SplitLines(s) == [s[..LineEnd(s)]] + SplitLines(s[LineLength(s)..])
  {
  }

  lemma Regroup<T>(a: seq<T>, b: seq<T>, c: seq<T>)
    ensures a + b + c == a + (b + c)
  {
  }

  /** The second does not go on with the line end of the first. */
  predicate Separate(front: seq<byte>, back: seq<byte>) {
    front != [] && back != [] ==> !(front[|front| - 1] == CR && back[0] == LF)
  }

  /** Whole lines before others are lines of their own. */
  lemma {:induction false} SplitBefore(front: seq<byte>, back: seq<byte>)
    requires Whole(front) && back != [] && Separate(front, back)
    ensures SplitLines(front + back) == SplitLines(front) + SplitLines(back)
    decreases |front|
  {
    if front == [] {
      assert front + back == back && SplitLines(front) + SplitLines(back) == SplitLines(back);
    } else {
      hide SplitLines, LineEnd, LineLength, Terminator, Whole, Separate;
      var next := front[LineLength(front)..];
      LineBefore(front, back);
      SplitFirst(front);
      SplitFirst(front + back);
      SplitBefore(next, back);
      Regroup([front[..LineEnd(front)]], SplitLines(next), SplitLines(back));
    }
  }

  lemma LineBefore(front: seq<byte>, back: seq<byte>)
    requires front != [] && Whole(front) && back != [] && Separate(front, back)
    ensures Separate(front[LineLength(front)..], back)
    ensures var s := front + back;
            LineEnd(s) == LineEnd(front) && LineLength(s) == LineLength(front) &&
            s[..LineEnd(s)] == front[..LineEnd(front)] && s[LineLength(s)..] == front[LineLength(front)..] + back &&
            Whole(front[LineLength(front)..])
  {
    var s := front + back;
    LineEndWithin(front);
    FirstEndStays(front, back);
    LengthFrom(front, LineEnd(front));
    LengthFrom(s, LineEnd(front));
    hide LineEnd, LineLength;
    assert forall i :: 0 <= i < |front| ==> s[i] == front[i];
    assert s[|front|] == back[0];
  }

  lemma LineEndWithin(front: seq<byte>)
    requires front != [] && Whole(front)
    ensures LineEnd(front) < |front|
  {
  }

  /** The first line of whole lines is whole, and one line. */
  lemma FirstLineWhole(event: seq<byte>)
    requires event != [] && Whole(event)
    ensures var n := LineLength(event); Whole(event[..n]) && event[..n] != [] && Whole(event[n..])
    ensures var n := LineLength(event); SplitLines(event[..n]) == [event[..LineEnd(event)]]
  {
    hide LineEnd, LineLength, SplitLines, Whole, Terminator;
    var line := event[..LineLength(event)];
    FirstLineEnds(event);
    SplitFirst(line);
    assert line[..LineEnd(event)] == event[..LineEnd(event)] && line[|line|..] == [];
    NothingSplits();
  }

  lemma FirstLineEnds(event: seq<byte>)
    requires event != [] && Whole(event)
    ensures var n := LineLength(event);
            Whole(event[..n]) && event[..n] != [] && Whole(event[n..]) &&
            LineEnd(event[..n]) == LineEnd(event) && LineLength(event[..n]) == n
  {
    hide LineEnd, LineLength;
    var e, line := LineEnd(event), event[..LineLength(event)];
    LineEndWithin(event);
    LengthFrom(event, e);
    LineEndIs(line, e);
    LengthFrom(line, e);
  }

  lemma FieldsFirst(lines: seq<seq<byte>>, first: seq<byte>, more: seq<seq<byte>>)
    requires lines == [first] + more
    ensures Fields(lines) == (if first != [] && !(DATA <= first) then [first] else []) + Fields(more)
  {
    assert lines[1..] == more;
  }

  /** Whole lines, the first of which is not blank. */
  predicate Kept(s: seq<byte>) { Whole(s) && (s != [] ==> !Terminator(s[0])) }

  /** The metadata of an event are its fields without data, line by line. */
  lemma {:induction false} MetadataAreFields(event: seq<byte>)
    requires Whole(event)
    ensures Kept(Metadata(event)) && SplitLines(Metadata(event)) == Fields(SplitLines(event))
    decreases |event|
  {
    if event != [] {
      hide LineEnd, LineLength, Terminator, Whole, SplitLines, Fields, Metadata, Kept;
      var content, line, rest := event[..LineEnd(event)], event[..LineLength(event)], event[LineLength(event)..];
      FirstLineWhole(event);
      SplitFirst(event);
      FieldsFirst(SplitLines(event), content, SplitLines(rest));
      MetadataAreFields(rest);
      MetadataFirst(event);
      if content != [] && !(DATA <= content) {
        assert line[0] == content[0];
        KeptLine(line, Metadata(rest));
      } else {
        assert [] + Metadata(rest) == Metadata(rest) && [] + Fields(SplitLines(rest)) == Fields(SplitLines(rest));
      }
    }
  }

  lemma MetadataFirst(event: seq<byte>)
    requires event != []
    ensures var content, line, rest := event[..LineEnd(event)], event[..LineLength(event)], event[LineLength(event)..];
            Metadata(event) == (if content != [] && !(DATA <= content) then line else []) + Metadata(rest)
    ensures var content := event[..LineEnd(event)]; content != [] ==> !Terminator(content[0])
  {
  }

  lemma KeptLine(line: seq<byte>, more: seq<byte>)
    requires Whole(line) && line != [] && !Terminator(line[0]) && Kept(more)
    ensures Kept(line + more) && SplitLines(line + more) == SplitLines(line) + SplitLines(more)
  {
    hide SplitLines;
    if more == [] {
      NothingSplits();
      assert line + more == line && SplitLines(line) + [] == SplitLines(line);
    } else {
      SplitBefore(line, more);
      assert (line + more)[|line + more| - 1] == more[|more| - 1];
    }
  }

  lemma NothingSplits()
    ensures SplitLines([]) == []
  {
  }

  /** A rewritten event has its own fields without data, and then one data line with the new message. */
  lemma RewrittenLines(event: seq<byte>, m: seq<byte>)
    requires Whole(event) && Plain(m)
    ensures SplitLines(Rendered(event, Some(m))) == Fields(SplitLines(event)) + [DATA + [SPACE] + m, []]
  {
    hide LineEnd, LineLength, Metadata, SplitLines, Fields, Whole, Rendered;
    var line := DATA + [SPACE] + m;
    MetadataAreFields(event);
    DataLinePlain(m);
    DataLineSplits(line);
    RenderedIs(event, m);
    SplitBefore(Metadata(event), line + [LF] + [LF]);
  }

  lemma RenderedIs(event: seq<byte>, m: seq<byte>)
    ensures Rendered(event, Some(m)) == Metadata(event) + (DATA + [SPACE] + m + [LF] + [LF])
  {
    hide Metadata;
    Regroup(Metadata(event) + DATA + [SPACE] + m, [LF], [LF]);
  }

  lemma DataLinePlain(m: seq<byte>)
    requires Plain(m)
    ensures var line := DATA + [SPACE] + m; Plain(line) && (line + [LF] + [LF])[0] != LF
  {
  }

  lemma DataLineSplits(line: seq<byte>)
    requires Plain(line)
    ensures SplitLines(line + [LF] + [LF]) == [line, []]
  {
    FirstLine(line, [LF], [LF]);
    FirstLine([], [LF], []);
    assert [] + [LF] + [] == [LF];
    hide LineEnd, LineLength, SplitLines;
    SplitFirst(line + [LF] + [LF]);
    SplitFirst([LF]);
    NothingSplits();
  }

  predicate Silent(fields: seq<seq<byte>>) {
    forall i :: 0 <= i < |fields| ==> fields[i] != [] && !(DATA <= fields[i])
  }

  lemma {:induction false} FieldsSilent(lines: seq<seq<byte>>)
    ensures Silent(Fields(lines))
  {
    if lines != [] { FieldsSilent(lines[1..]); }
  }

  lemma {:induction false} OneBlock(fields: seq<seq<byte>>, last: seq<byte>, open: seq<seq<byte>>)
    requires last != [] && Silent(fields)
    ensures Blocks(fields + [last, []], open) == [open + fields + [last]]
  {
    var lines := fields + [last, []];
    if fields == [] {
      assert lines == [last, []] && lines[1..] == [[]] && lines[1..][1..] == [];
      assert open + fields == open;
      assert Blocks([[]], open + [last]) == [open + [last]];
    } else {
      assert lines[1..] == fields[1..] + [last, []];
      OneBlock(fields[1..], last, open + [fields[0]]);
      assert open + [fields[0]] + fields[1..] == open + fields;
    }
  }

  lemma {:induction false} OneValue(fields: seq<seq<byte>>, last: seq<byte>)
    requires DATA <= last && Silent(fields)
    ensures Values(fields + [last]) == [ValueOn(last)]
  {
    hide ValueOn;
    var lines := fields + [last];
    if fields == [] {
      assert lines == [last] && lines[1..] == [];
    } else {
      assert lines[1..] == fields[1..] + [last];
      OneValue(fields[1..], last);
    }
  }

  /** It is read as exactly the new message. */
  lemma RewrittenCarries(event: seq<byte>, m: seq<byte>)
    requires Whole(event) && Plain(m) && m != []
    ensures Messages(Rendered(event, Some(m)), []) == [m]
  {
    hide Rendered, SplitLines, Messages, Fields, Blocks, Values, ValueOn, Whole, Plain;
    var fields, line := Fields(SplitLines(event)), DATA + [SPACE] + m;
    RewrittenLines(event, m);
    MessagesAreBlocks(Rendered(event, Some(m)), []);
    NoValues();
    FieldsSilent(SplitLines(event));
    OneBlock(fields, line, []);
    assert line == DATA + ([SPACE] + m) && [] + fields + [line] == fields + [line];
    OneValue(fields, line);
    CarriesOne(line, m, ValueOn(line));
    var block := fields + [line];
    assert [block][1..] == [] && Said([]) == [];
    assert Said([block]) == [m];
  }

  // ----- identifiers --------------------------------------------------------------------------

  /** Tab, line feed, vertical tab, form feed, carriage return and space. */
  const WHITESPACE: seq<byte> := [9, 10, 11, 12, 13, 32]

  /** The field is an identifier, and its value is not blank. */
  ghost predicate GivesId(line: seq<byte>) {
    exists v :: line == ID + v && exists b :: b in v && b !in WHITESPACE
  }

  lemma WhiteIff(b: byte)
    ensures White(b) <==> b in WHITESPACE
  {
  }

  lemma GivesIdIff(line: seq<byte>)
    ensures IdLine(line) <==> GivesId(line)
  {
    if IdLine(line) { IdGiven(line); }
    if GivesId(line) { GivenId(line); }
  }

  lemma IdGiven(line: seq<byte>)
    requires IdLine(line)
    ensures GivesId(line)
  {
    hide White;
    var v := line[|ID|..];
    var i :| 3 <= i < |line| && !White(line[i]);
    WhiteIff(line[i]);
    assert line == ID + v && v[i - 3] == line[i];
    assert v[i - 3] in v;
    hide WHITESPACE;
  }

  lemma GivenId(line: seq<byte>)
    requires GivesId(line)
    ensures IdLine(line)
  {
    hide White;
    var v :| line == ID + v && exists b :: b in v && b !in WHITESPACE;
    var b :| b in v && b !in WHITESPACE;
    var i :| 0 <= i < |v| && v[i] == b;
    WhiteIff(b);
    assert line[i + 3] == b;
  }

  ghost predicate Identified(lines: seq<seq<byte>>) { exists i :: 0 <= i < |lines| && GivesId(lines[i]) }

  lemma IdentifiedBoth(a: seq<seq<byte>>, b: seq<seq<byte>>)
    ensures Identified(a + b) <==> Identified(a) || Identified(b)
  {
    hide GivesId;
    if Identified(a) { var i :| 0 <= i < |a| && GivesId(a[i]); assert (a + b)[i] == a[i]; }
    if Identified(b) { var i :| 0 <= i < |b| && GivesId(b[i]); assert (a + b)[|a| + i] == b[i]; }
  }

  lemma {:induction false} HasIdIff(event: seq<byte>)
    ensures HasId(event) <==> Identified(SplitLines(event))
    decreases |event|
  {
    hide IdLine, Identified, LineEnd, LineLength;
    if event != [] {
      HasIdIff(event[LineLength(event)..]);
      IdentifiedBoth([event[..LineEnd(event)]], SplitLines(event[LineLength(event)..]));
      OneIdentified(event[..LineEnd(event)]);
    } else {
      NoneIdentified();
    }
  }

  lemma OneIdentified(line: seq<byte>)
    ensures Identified([line]) <==> IdLine(line)
  {
    GivesIdIff(line);
    hide IdLine, GivesId;
    assert [line][0] == line;
  }

  lemma NoneIdentified()
    ensures !Identified([])
  {
  }

  /** An LF after a CR that ends the last line belongs to it. */
  lemma {:induction false} SplitMerged(front: seq<byte>)
    requires front != [] && front[|front| - 1] == CR
    ensures SplitLines(front + [LF]) == SplitLines(front)
    decreases |front|
  {
    hide LineEnd, LineLength, SplitLines;
    var next, all := front[LineLength(front)..], front + [LF];
    LineEndWithin(front);
    FirstEndStays(front, [LF]);
    LengthFrom(front, LineEnd(front));
    LengthFrom(all, LineEnd(front));
    assert forall i :: 0 <= i < |front| ==> all[i] == front[i];
    SplitFirst(front);
    SplitFirst(all);
    assert all[..LineEnd(front)] == front[..LineEnd(front)];
    if next == [] {
      assert all[LineLength(all)..] == [];
    } else {
      SplitMerged(next);
      assert LineEnd(front) + 1 < |front| && LineLength(all) == LineLength(front);
      assert all[LineLength(front)..] == next + [LF];
    }
  }

  /** The block that is read has an identifier exactly if its event, as far as it was put together, has one. */
  lemma {:induction false} ResumesIsBlock(rest: seq<byte>, event: seq<byte>, open: seq<seq<byte>>)
    requires Whole(event) && (Identified(open) <==> HasId(event))
    ensures Resumes(rest, event) <==> exists block :: block in Blocks(SplitLines(rest), open) && Identified(block)
    decreases |rest|
  {
    hide HasId, Identified, IdLine, LineEnd, LineLength, Whole, SplitLines;
    if rest == [] {
      NothingSplits();
    } else {
      var content, line, next := rest[..LineEnd(rest)], rest[..LineLength(rest)], rest[LineLength(rest)..];
      SplitFirst(rest);
      var lines := SplitLines(rest);
      assert lines[0] == content && lines[1..] == SplitLines(next);
      if content == [] {
        EventHasId(event, rest);
        BlankNoId();
        NothingOpen();
        ResumesIsBlock(next, [], []);
        var more := Blocks(SplitLines(next), []);
        assert Blocks(lines, open) == [open] + more;
        if exists block :: block in more && Identified(block) {
          var block :| block in more && Identified(block);
          assert block in [open] + more;
        }
        if Identified(open) { assert open in [open] + more; }
      } else {
        IdentifiedBoth(open, [content]);
        OneIdentified(content);
        if rest[0] == COLON {
          CommentNoId(content);
          ResumesIsBlock(next, event, open + [content]);
        } else if next != [] {
          EventHasId(event, rest);
          WholeNext(rest, event);
          ResumesIsBlock(next, event + line, open + [content]);
        } else {
          NothingSplits();
          assert Blocks(lines, open) == Blocks([], open + [content]) == [] && !Resumes(next, event + line);
        }
      }
    }
  }

  /** The stream can be resumed exactly if some line between two blank lines gives an identifier. */
  lemma ResumesIff(rest: seq<byte>)
    ensures Resumes(rest, []) <==>
            var lines := SplitLines(rest); exists a: nat, b: nat :: IsBlock(lines, a, b) && Identified(lines[a..b])
  {
    hide Resumes, SplitLines, Blocks, Identified, HasId, Whole;
    var lines := SplitLines(rest);
    NothingOpen();
    ResumesIsBlock(rest, [], []);
    forall block ensures block in Blocks(lines, []) <==> BlockFrom(lines, 0, block) { BlocksOf(lines, block); }
    if exists a: nat, b: nat :: IsBlock(lines, a, b) && Identified(lines[a..b]) {
      var a: nat, b: nat :| IsBlock(lines, a, b) && Identified(lines[a..b]);
      assert BlockFrom(lines, 0, lines[a..b]);
    }
    if exists block :: block in Blocks(lines, []) && Identified(block) {
      var block :| block in Blocks(lines, []) && Identified(block);
      var a: nat, b: nat :| IsBlock(lines, a, b) && block == lines[a..b];
    }
  }

  lemma CommentNoId(content: seq<byte>)
    requires content != [] && content[0] == COLON
    ensures !IdLine(content)
  {
  }

  lemma NothingOpen()
    ensures Whole([]) && !Identified([]) && !HasId([])
  {
  }

  lemma EventHasId(event: seq<byte>, rest: seq<byte>)
    requires Whole(event) && rest != []
    ensures HasId(event + rest[..LineLength(rest)]) <==> HasId(event) || IdLine(rest[..LineEnd(rest)])
  {
    var content, line := rest[..LineEnd(rest)], rest[..LineLength(rest)];
    FirstLineAlone(rest);
    hide HasId, Identified, IdLine, LineEnd, LineLength, Whole, SplitLines;
    HasIdIff(event);
    HasIdIff(event + line);
    IdentifiedBoth(SplitLines(event), [content]);
    OneIdentified(content);
    if Separate(event, line) {
      SplitBefore(event, line);
    } else {
      BlankNoId();
      SplitMerged(event);
    }
  }

  lemma BlankNoId()
    ensures !IdLine([])
  {
  }

  lemma FirstLineAlone(rest: seq<byte>)
    requires rest != []
    ensures var line := rest[..LineLength(rest)];
            line != [] && SplitLines(line) == [rest[..LineEnd(rest)]] &&
            (line[0] == LF ==> line == [LF] && LineEnd(rest) == 0)
  {
    hide LineEnd, LineLength, SplitLines;
    var e, line := LineEnd(rest), rest[..LineLength(rest)];
    if e < |rest| { LengthFrom(rest, e); }
    if e < |rest| { LineEndIs(line, e); LengthFrom(line, e); } else { WithoutEnd(rest); }
    SplitFirst(line);
    assert line[..e] == rest[..e] && line[|line|..] == [];
    NothingSplits();
    assert line[0] == LF ==> e == 0;
  }

  lemma WithoutEnd(rest: seq<byte>)
    requires LineEnd(rest) == |rest|
    ensures LineLength(rest) == |rest| && rest[..|rest|] == rest
  {
  }

  // ----- sizes --------------------------------------------------------------------------------

  /** The lines with their ends, as they are counted. */
  function Wire(rest: seq<byte>): seq<seq<byte>> {
    if rest == [] then [] else [rest[..LineLength(rest)]] + Wire(rest[LineLength(rest)..])
  }

  predicate IsComment(line: seq<byte>) { line != [] && line[0] == COLON }

  predicate IsBlankLine(line: seq<byte>) { line != [] && Terminator(line[0]) }

  /** Each line is within the limit together with what came before of its event; a mark counts with the first. */
  predicate EachFits(wire: seq<seq<byte>>, used: nat, mark: nat)
  {
    forall i :: 0 <= i < |wire| ==>
      EventBefore(wire, i, used, mark) + |wire[i]| + (if i == 0 then mark else 0) <= MAX_MESSAGE_BYTES
  }

  /**
    The bytes of the event that line `i` belongs to, before that line, if `used` bytes of the first
    event came before. Comments belong to no event; a mark counts with the first line.
  */
  function EventBefore(wire: seq<seq<byte>>, i: nat, used: nat, mark: nat): nat
    requires i <= |wire|
  {
    if i == 0 then used
    else if IsBlankLine(wire[i - 1]) then 0
    else
      EventBefore(wire, i - 1, used, mark) +
      if IsComment(wire[i - 1]) then 0 else |wire[i - 1]| + if i == 1 then mark else 0
  }

  lemma {:induction false} EventBeforeNext(wire: seq<seq<byte>>, i: nat, used: nat, mark: nat)
    requires 1 <= i <= |wire|
    ensures EventBefore(wire, i, used, mark) == EventBefore(wire[1..], i - 1, EventBefore(wire, 1, used, mark), 0)
  {
    hide IsComment, IsBlankLine;
    if i > 1 {
      EventBeforeNext(wire, i - 1, used, mark);
      assert wire[1..][i - 2] == wire[i - 1];
    }
  }

  lemma EachFitsNext(wire: seq<seq<byte>>, used: nat, mark: nat)
    requires wire != []
    ensures EachFits(wire, used, mark) <==>
            used + |wire[0]| + mark <= MAX_MESSAGE_BYTES && EachFits(wire[1..], EventBefore(wire, 1, used, mark), 0)
  {
    hide EventBefore;
    EventBeforeFirst(wire, used, mark);
    forall i | 1 <= i < |wire|
      ensures EventBefore(wire, i, used, mark) == EventBefore(wire[1..], i - 1, EventBefore(wire, 1, used, mark), 0) &&
              wire[i] == wire[1..][i - 1]
    {
      EventBeforeNext(wire, i, used, mark);
    }
    if EachFits(wire[1..], EventBefore(wire, 1, used, mark), 0) && used + |wire[0]| + mark <= MAX_MESSAGE_BYTES {
      forall i | 0 <= i < |wire|
        ensures EventBefore(wire, i, used, mark) + |wire[i]| + (if i == 0 then mark else 0) <= MAX_MESSAGE_BYTES
      {
        if i > 0 { assert wire[1..][i - 1] == wire[i]; }
      }
    }
    if EachFits(wire, used, mark) {
      forall i | 0 <= i < |wire[1..]|
        ensures EventBefore(wire[1..], i, EventBefore(wire, 1, used, mark), 0) + |wire[1..][i]| <= MAX_MESSAGE_BYTES
      {
        assert wire[i + 1] == wire[1..][i];
      }
    }
  }

  lemma EventBeforeFirst(wire: seq<seq<byte>>, used: nat, mark: nat)
    ensures EventBefore(wire, 0, used, mark) == used
  {
  }

  lemma {:induction false} BudgetFits(used: nat, rest: seq<byte>, mark: nat)
    ensures WithinBudget(used, rest, mark) <==> EachFits(Wire(rest), used, mark)
    decreases |rest|
  {
    if rest != [] {
      hide EachFits, LineLength;
      var wire := Wire(rest);
      var line, next := rest[..LineLength(rest)], rest[LineLength(rest)..];
      assert wire[0] == line && wire[1..] == Wire(next);
      EachFitsNext(wire, used, mark);
      LineKind(rest);
      BudgetFits(EventBefore(wire, 1, used, mark), next, 0);
    }
  }

  lemma LineKind(rest: seq<byte>)
    requires rest != []
    ensures var line := rest[..LineLength(rest)];
            line != [] && (IsComment(line) <==> rest[0] == COLON) && (IsBlankLine(line) <==> LineEnd(rest) == 0)
  {
  }

  /**
    A response fits exactly if it is no longer than the limit on streams, and each line is within
    the limit on messages together with what came before of its event.
  */
  lemma FitsIff(stream: seq<byte>)
    ensures Fits(stream) <==>
            |stream| <= MAX_STREAM_BYTES && EachFits(Wire(StripBom(stream)), 0, BomLength(stream))
  {
    hide WithinBudget, Wire, EachFits;
    BudgetFits(0, StripBom(stream), BomLength(stream));
  }
}

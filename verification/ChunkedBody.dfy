/**
  The request body decoder for chunked transfer coding, section 7.1 of RFC 9112, bounded
  and without trailers. `Message` is the grammar: what a sender writes. `Decode` is what
  the loop computes; it accepts a message exactly when the grammar and the bounds do.
*/
module ChunkedBody {
  import opened Wrappers

  const MAX_BODY: nat := 10 * 1024 * 1024
  const MAX_CHUNKS: nat := 10000
  const MAX_SIZE_LINE: nat := 128
  const CR: byte := 13
  const LF: byte := 10
  const SEMICOLON: byte := 59
  const CRLF: seq<byte> := [CR, LF]

  datatype Refusal = InvalidFraming | BodyTooLarge | Incomplete | Trailers | TooManyChunks

  // ----- reading ------------------------------------------------------------------------------

  /** The length of what a bounded `readline` returns. */
  function LineSize(s: seq<byte>, limit: nat): (n: nat)
    ensures n <= limit && n <= |s| && (forall i :: 0 <= i < n - 1 ==> s[i] != LF)
    ensures n == limit || n == |s| || (n > 0 && s[n - 1] == LF)
  {
    if s == [] || limit == 0 then 0 else if s[0] == LF then 1 else 1 + LineSize(s[1..], limit - 1)
  }

  /** A line that ends within the limit is read whole, whatever follows it. */
  lemma {:induction false} LineRead(line: seq<byte>, rest: seq<byte>, limit: nat)
    requires 0 < |line| <= limit && line[|line| - 1] == LF && LF !in line[..|line| - 1]
    ensures LineSize(line + rest, limit) == |line|
  {
    var s := line + rest;
    if |line| == 1 {
      assert s[0] == LF;
    } else {
      assert line[0] == line[..|line| - 1][0] && s[0] == line[0];
      assert s[1..] == line[1..] + rest;
      assert line[1..][..|line| - 2] == line[..|line| - 1][1..];
      LineRead(line[1..], rest, limit - 1);
    }
  }

  // ----- the size line ------------------------------------------------------------------------

  predicate Blank(b: byte) { b == 32 || 9 <= b <= 13 }

  predicate HexDigit(b: byte) { 48 <= b <= 57 || 65 <= b <= 70 || 97 <= b <= 102 }

  function DigitValue(b: byte): nat
    requires HexDigit(b)
  {
    if b <= 57 then (b - 48) as nat else if b <= 70 then (b - 55) as nat else (b - 87) as nat
  }

  predicate Hexadecimal(s: seq<byte>) { s != [] && forall i :: 0 <= i < |s| ==> HexDigit(s[i]) }

  function HexValue(s: seq<byte>): nat
    requires forall i :: 0 <= i < |s| ==> HexDigit(s[i])
  {
    if s == [] then 0 else 16 * HexValue(s[..|s| - 1]) + DigitValue(s[|s| - 1])
  }

  /** `split(b";", 1)[0]` */
  function BeforeExtension(s: seq<byte>): (r: seq<byte>)
    ensures r <= s && SEMICOLON !in r && (|r| < |s| ==> s[|r|] == SEMICOLON)
  {
    if s == [] || s[0] == SEMICOLON then [] else [s[0]] + BeforeExtension(s[1..])
  }

  function StripLeft(s: seq<byte>): seq<byte> { if s != [] && Blank(s[0]) then StripLeft(s[1..]) else s }

  function StripRight(s: seq<byte>): seq<byte> {
    if s != [] && Blank(s[|s| - 1]) then StripRight(s[..|s| - 1]) else s
  }

  function SizeField(line: seq<byte>): seq<byte> { StripRight(StripLeft(BeforeExtension(line))) }

  predicate SizeLine(line: seq<byte>, n: nat) {
    2 <= |line| <= MAX_SIZE_LINE && line[|line| - 2..] == CRLF && LF !in line[..|line| - 1] &&
    Hexadecimal(SizeField(line)) && HexValue(SizeField(line)) == n
  }

  predicate Blanks(s: seq<byte>) { forall i :: 0 <= i < |s| ==> Blank(s[i]) }

  lemma {:induction false} StripsLeft(pad: seq<byte>, s: seq<byte>)
    requires Blanks(pad) && s != [] && !Blank(s[0])
    ensures StripLeft(pad + s) == s
  {
    if pad == [] {
      assert pad + s == s;
    } else {
      assert (pad + s)[1..] == pad[1..] + s;
      StripsLeft(pad[1..], s);
    }
  }

  lemma {:induction false} StripsRight(s: seq<byte>, pad: seq<byte>)
    requires Blanks(pad) && s != [] && !Blank(s[|s| - 1])
    ensures StripRight(s + pad) == s
  {
    if pad == [] {
      assert s + pad == s;
    } else {
      assert (s + pad)[..|s + pad| - 1] == s + pad[..|pad| - 1];
      StripsRight(s, pad[..|pad| - 1]);
    }
  }

  lemma {:induction false} Extension(s: seq<byte>, extension: seq<byte>)
    requires SEMICOLON !in s && (extension == [] || extension[0] == SEMICOLON)
    ensures BeforeExtension(s + extension) == s
  {
    if s == [] {
      assert s + extension == extension;
    } else {
      assert (s + extension)[1..] == s[1..] + extension;
      Extension(s[1..], extension);
    }
  }

  lemma FieldOf(before: seq<byte>, digits: seq<byte>, after: seq<byte>, extension: seq<byte>)
    requires Hexadecimal(digits) && Blanks(before) && Blanks(after) && (extension == [] || extension[0] == SEMICOLON)
    ensures SizeField(before + (digits + after) + extension) == digits
  {
    hide StripLeft, StripRight, BeforeExtension;
    assert SEMICOLON !in before + (digits + after);
    Extension(before + (digits + after), extension);
    StripsLeft(before, digits + after);
    StripsRight(digits, after);
  }

  /** Tab, line feed, vertical tab, form feed, carriage return and space. */
  const WHITESPACE: seq<byte> := [9, 10, 11, 12, 13, 32]

  lemma BlankIsWhite(b: byte)
    ensures Blank(b) <==> b in WHITESPACE
  {
  }

  const LOWER: seq<byte> := [48, 49, 50, 51, 52, 53, 54, 55, 56, 57, 97, 98, 99, 100, 101, 102]
  const UPPER: seq<byte> := [48, 49, 50, 51, 52, 53, 54, 55, 56, 57, 65, 66, 67, 68, 69, 70]

  /** The digits are those of the two tables, each with its place there as its value. */
  lemma DigitIff(b: byte)
    ensures HexDigit(b) <==> b in LOWER || b in UPPER
    ensures forall d :: 0 <= d < 16 && (b == LOWER[d] || b == UPPER[d]) ==> HexDigit(b) && DigitValue(b) == d
  {
  }

  function PowerOf16(n: nat): nat { if n == 0 then 1 else 16 * PowerOf16(n - 1) }

  /** A number written in base 16, first digit first. */
  function Positional(ds: seq<nat>): nat {
    if ds == [] then 0 else ds[0] * PowerOf16(|ds| - 1) + Positional(ds[1..])
  }

  /** Digits in either case. */
  predicate Spells(digits: seq<byte>, ds: seq<nat>) {
    |digits| == |ds| && forall i :: 0 <= i < |ds| ==>
      ds[i] < 16 && (digits[i] == LOWER[ds[i]] || digits[i] == UPPER[ds[i]])
  }

  lemma {:induction false} PositionalLast(ds: seq<nat>)
    requires ds != []
    ensures Positional(ds) == 16 * Positional(ds[..|ds| - 1]) + ds[|ds| - 1]
  {
    if |ds| > 1 {
      var n := |ds| - 1;
      PositionalLast(ds[1..]);
      assert ds[1..][..n - 1] == ds[..n][1..] && ds[1..][n - 1] == ds[n];
    }
  }

  /** Digits in any case are read as the number they spell. */
  lemma {:induction false} SpelledValue(digits: seq<byte>, ds: seq<nat>)
    requires Spells(digits, ds)
    ensures (forall i :: 0 <= i < |digits| ==> HexDigit(digits[i])) && HexValue(digits) == Positional(ds)
  {
    forall i | 0 <= i < |digits| ensures HexDigit(digits[i]) && DigitValue(digits[i]) == ds[i] { DigitIff(digits[i]); }
    if ds != [] {
      PositionalLast(ds);
      SpelledValue(digits[..|digits| - 1], ds[..|ds| - 1]);
    }
  }

  /** A size, in any spelling, padded, with or without an extension, is read as that size. */
  lemma SizeLineOf(before: seq<byte>, digits: seq<byte>, ds: seq<nat>, after: seq<byte>, extension: seq<byte>)
    requires Spells(digits, ds) && digits != [] && (extension == [] || extension[0] == SEMICOLON)
    requires (forall b :: b in before + after ==> b in WHITESPACE)
    requires LF !in before + (digits + after) + extension && |before + (digits + after) + extension| <= 126
    ensures SizeLine(before + (digits + after) + extension + CRLF, Positional(ds))
  {
    SpelledValue(digits, ds);
    WhiteIsBlank(before, after);
    hide SizeField, HexValue, Spells, Positional;
    var head := before + (digits + after) + extension;
    EndsInLine(head);
    if extension == [] {
      FieldOf(before, digits, after + CRLF, []);
      assert before + (digits + (after + CRLF)) + [] == head + CRLF;
    } else {
      FieldOf(before, digits, after, extension + CRLF);
      assert before + (digits + after) + (extension + CRLF) == head + CRLF;
    }
  }

  lemma WhiteIsBlank(before: seq<byte>, after: seq<byte>)
    requires forall b :: b in before + after ==> b in WHITESPACE
    ensures Blanks(before) && Blanks(after)
  {
    forall i | 0 <= i < |before| ensures Blank(before[i]) { assert before[i] in before + after; }
    forall i | 0 <= i < |after| ensures Blank(after[i]) { assert after[i] in before + after; }
  }

  lemma EndsInLine(head: seq<byte>)
    requires LF !in head
    ensures var line := head + CRLF; line[|line| - 2..] == CRLF && LF !in line[..|line| - 1]
  {
    var line := head + CRLF;
    assert line[..|line| - 1] == head + [CR];
  }

  // ----- the grammar --------------------------------------------------------------------------

  datatype Chunk = Chunk(line: seq<byte>, content: seq<byte>)

  predicate WellFormed(chunks: seq<Chunk>, last: seq<byte>) {
    SizeLine(last, 0) &&
    forall i :: 0 <= i < |chunks| ==> chunks[i].content != [] && SizeLine(chunks[i].line, |chunks[i].content|)
  }

  function Message(chunks: seq<Chunk>, last: seq<byte>): seq<byte> {
    if chunks == [] then last + CRLF
    else chunks[0].line + (chunks[0].content + (CRLF + Message(chunks[1..], last)))
  }

  function Contents(chunks: seq<Chunk>): seq<byte> {
    if chunks == [] then [] else chunks[0].content + Contents(chunks[1..])
  }

  // ----- the decoder --------------------------------------------------------------------------

  datatype Decoded = Decoded(body: seq<byte>, rest: seq<byte>)

  datatype Header = Header(line: seq<byte>, count: nat, next: seq<byte>)

  datatype Piece = Piece(content: seq<byte>, tail: seq<byte>)

  predicate GoodSizeLine(line: seq<byte>) {
    2 <= |line| <= MAX_SIZE_LINE && line[|line| - 2..] == CRLF && Hexadecimal(SizeField(line))
  }

  function DecodeHeader(s: seq<byte>): Result<Header, Refusal> {
    var n := LineSize(s, MAX_SIZE_LINE + 1);
    if GoodSizeLine(s[..n]) then Ok(Header(s[..n], HexValue(SizeField(s[..n])), s[n..])) else Err(InvalidFraming)
  }

  function DecodeContent(s: seq<byte>, count: nat): Result<Piece, Refusal> {
    if |s| < count + 2 then Err(Incomplete)
    else if s[count..count + 2] != CRLF then Err(InvalidFraming)
    else Ok(Piece(s[..count], s[count + 2..]))
  }

  /** Decoding with `left` iterations to go after `total` bytes of content. */
  function Decode(s: seq<byte>, left: nat, total: nat): Result<Decoded, Refusal>
    decreases left
  {
    if left == 0 then Err(TooManyChunks)
    else
      match DecodeHeader(s)
      case Err(e) => Err(e)
      case Ok(h) =>
        if total + h.count > MAX_BODY then Err(BodyTooLarge)
        else if h.count == 0 then
          if CRLF <= h.next then Ok(Decoded([], h.next[2..])) else Err(Trailers)
        else
          match DecodeContent(h.next, h.count)
          case Err(e) => Err(e)
          case Ok(p) => After(p.content, Decode(p.tail, left - 1, total + h.count))
  }

  /** The content decoded so far in front of what follows. */
  function After(chunks: seq<byte>, r: Result<Decoded, Refusal>): Result<Decoded, Refusal> {
    match r
    case Ok(d) => Ok(Decoded(chunks + d.body, d.rest))
    case Err(e) => Err(e)
  }

  lemma AfterAfter(chunks: seq<byte>, content: seq<byte>, r: Result<Decoded, Refusal>)
    ensures After([], r) == r && After(chunks, After(content, r)) == After(chunks + content, r)
  {
    if r.Ok? {
      assert [] + r.value.body == r.value.body;
      assert chunks + (content + r.value.body) == chunks + content + r.value.body;
    }
  }

  /** A header is read exactly when there is a size line. */
  lemma HeaderIff(s: seq<byte>, line: seq<byte>, count: nat, next: seq<byte>)
    ensures DecodeHeader(s) == Ok(Header(line, count, next)) <==> s == line + next && SizeLine(line, count)
  {
    hide SizeField, Hexadecimal, HexValue;
    if s == line + next && SizeLine(line, count) {
      assert line[|line| - 2..][1] == line[|line| - 1];
      LineRead(line, next, MAX_SIZE_LINE + 1);
      assert s[..|line|] == line && s[|line|..] == next;
    }
    if DecodeHeader(s) == Ok(Header(line, count, next)) {
      var n := LineSize(s, MAX_SIZE_LINE + 1);
      assert line[..n - 1] == s[..n - 1];
    }
  }

  lemma ContentIff(s: seq<byte>, content: seq<byte>, tail: seq<byte>)
    ensures DecodeContent(s, |content|) == Ok(Piece(content, tail)) <==> s == content + (CRLF + tail)
  {
    var n := |content|;
    if s == content + (CRLF + tail) {
      assert s[..n] == content && s[n..n + 2] == CRLF && s[n + 2..] == tail;
    }
    if DecodeContent(s, n) == Ok(Piece(content, tail)) {
      assert s == s[..n] + (s[n..n + 2] + s[n + 2..]);
    }
  }

  lemma DecodeLast(line: seq<byte>, rest: seq<byte>, left: nat, total: nat)
    requires SizeLine(line, 0) && left > 0 && total <= MAX_BODY
    ensures Decode(line + (CRLF + rest), left, total) == Ok(Decoded([], rest))
  {
    hide SizeLine, DecodeHeader, DecodeContent;
    HeaderIff(line + (CRLF + rest), line, 0, CRLF + rest);
    assert (CRLF + rest)[2..] == rest;
  }

  lemma DecodeChunk(line: seq<byte>, content: seq<byte>, tail: seq<byte>, left: nat, total: nat)
    requires content != [] && SizeLine(line, |content|) && left > 0 && total + |content| <= MAX_BODY
    ensures Decode(line + (content + (CRLF + tail)), left, total) == After(content,
            Decode(tail, left - 1, total + |content|))
  {
    hide SizeLine, DecodeHeader, DecodeContent;
    var next := content + (CRLF + tail);
    HeaderIff(line + next, line, |content|, next);
    ContentIff(next, content, tail);
  }

  /** Whatever a sender writes within the bounds is decoded to what it meant, and nothing more is read. */
  lemma {:induction false} MessageDecodes(chunks: seq<Chunk>, last: seq<byte>, rest: seq<byte>, left: nat, total: nat)
    requires WellFormed(chunks, last) && |chunks| < left && total + |Contents(chunks)| <= MAX_BODY
    ensures Decode(Message(chunks, last) + rest, left, total) == Ok(Decoded(Contents(chunks), rest))
  {
    hide SizeLine, Decode;
    if chunks == [] {
      assert Message(chunks, last) + rest == last + (CRLF + rest);
      DecodeLast(last, rest, left, total);
    } else {
      var c, tail := chunks[0], Message(chunks[1..], last) + rest;
      assert Message(chunks, last) + rest == c.line + (c.content + (CRLF + tail));
      MessageDecodes(chunks[1..], last, rest, left - 1, total + |c.content|);
      DecodeChunk(c.line, c.content, tail, left, total);
    }
  }

  /** What the decoder saw when it accepted: the last chunk, or one more. */
  lemma DecodedFirst(s: seq<byte>, left: nat, total: nat) returns (line: seq<byte>, content: seq<byte>, tail: seq<byte>)
    requires Decode(s, left, total).Ok?
    ensures left > 0 && SizeLine(line, |content|) && s == line + (content + (CRLF + tail)) &&
            total + |content| <= MAX_BODY
  {
    hide SizeLine, DecodeHeader;
    var h := DecodeHeader(s).value;
    HeaderIff(s, h.line, h.count, h.next);
    line := h.line;
    if h.count == 0 {
      content, tail := [], h.next[2..];
      assert h.next == [] + (CRLF + tail);
    } else {
      var p := DecodeContent(h.next, h.count).value;
      content, tail := p.content, p.tail;
      hide DecodeContent;
      ContentIff(h.next, content, tail);
    }
  }

  /** Whatever is decoded was a message of the grammar, within the bounds. */
  lemma {:induction false} DecodedIsMessage(s: seq<byte>, left: nat, total: nat)
    returns (chunks: seq<Chunk>, last: seq<byte>)
    requires Decode(s, left, total).Ok?
    ensures var d := Decode(s, left, total).value;
            WellFormed(chunks, last) && s == Message(chunks, last) + d.rest && d.body == Contents(chunks)
    ensures |chunks| < left && total + |Contents(chunks)| <= MAX_BODY
    decreases left
  {
    hide SizeLine, Decode;
    var line, content, tail := DecodedFirst(s, left, total);
    if content == [] {
      DecodeLast(line, tail, left, total);
      assert s == line + (CRLF + tail);
      chunks, last := [], line;
      assert s == line + CRLF + tail;
    } else {
      DecodeChunk(line, content, tail, left, total);
      var more;
      more, last := DecodedIsMessage(tail, left - 1, total + |content|);
      var rest := Decode(tail, left - 1, total + |content|).value.rest;
      chunks := [Chunk(line, content)] + more;
      assert chunks[1..] == more;
      assert s == line + (content + (CRLF + Message(more, last))) + rest;
    }
  }

  /** The stream starts with this message, which is within the bounds. */
  predicate Transmits(s: seq<byte>, chunks: seq<Chunk>, last: seq<byte>, rest: seq<byte>) {
    WellFormed(chunks, last) && s == Message(chunks, last) + rest && |chunks| < MAX_CHUNKS &&
      |Contents(chunks)| <= MAX_BODY
  }

  /** A body is accepted exactly when the stream starts with a bounded message, and then it is its contents. */
  lemma AcceptedIff(s: seq<byte>)
    ensures Decode(s, MAX_CHUNKS, 0).Ok? <==> exists chunks, last, rest :: Transmits(s, chunks, last, rest)
    ensures forall chunks, last, rest :: Transmits(s, chunks, last, rest) ==>
              Decode(s, MAX_CHUNKS, 0) == Ok(Decoded(Contents(chunks), rest))
  {
    hide SizeLine, Decode, MAX_CHUNKS, MAX_BODY;
    forall chunks, last, rest | Transmits(s, chunks, last, rest)
      ensures Decode(s, MAX_CHUNKS, 0) == Ok(Decoded(Contents(chunks), rest))
    {
      MessageDecodes(chunks, last, rest, MAX_CHUNKS, 0);
    }
    if Decode(s, MAX_CHUNKS, 0).Ok? {
      var chunks, last := DecodedIsMessage(s, MAX_CHUNKS, 0);
      assert Transmits(s, chunks, last, Decode(s, MAX_CHUNKS, 0).value.rest);
    }
  }

  /** A byte stream is framed in one way only: equal streams hold the same chunks. */
  lemma {:induction false} OneFraming(a: seq<Chunk>, lastA: seq<byte>, restA: seq<byte>, b: seq<Chunk>,
                                      lastB: seq<byte>, restB: seq<byte>)
    requires WellFormed(a, lastA) && WellFormed(b, lastB)
    requires Message(a, lastA) + restA == Message(b, lastB) + restB
    ensures a == b && lastA == lastB && restA == restB
  {
    hide SizeLine, DecodeHeader, DecodeContent;
    var c, tailA := FirstChunk(a, lastA, restA);
    var d, tailB := FirstChunk(b, lastB, restB);
    if a != [] && b != [] {
      OneFraming(a[1..], lastA, restA, b[1..], lastB, restB);
      assert a == [a[0]] + a[1..] && b == [b[0]] + b[1..];
    }
  }

  lemma FirstChunk(chunks: seq<Chunk>, last: seq<byte>, rest: seq<byte>) returns (first: Chunk, tail: seq<byte>)
    requires WellFormed(chunks, last)
    ensures if chunks == [] then first == Chunk(last, []) && tail == rest
            else first == chunks[0] && first.content != [] && tail == Message(chunks[1..], last) + rest
    ensures var h := DecodeHeader(Message(chunks, last) + rest);
            h.Ok? && h.value.line == first.line && h.value.count == |first.content| &&
            DecodeContent(h.value.next, h.value.count) == Ok(Piece(first.content, tail))
  {
    hide SizeLine, DecodeHeader, DecodeContent;
    if chunks == [] {
      first, tail := Chunk(last, []), rest;
    } else {
      first, tail := chunks[0], Message(chunks[1..], last) + rest;
    }
    var next := first.content + (CRLF + tail);
    assert Message(chunks, last) + rest == first.line + next;
    HeaderIff(first.line + next, first.line, |first.content|, next);
    ContentIff(next, first.content, tail);
  }

  // ----- the loop -----------------------------------------------------------------------------

  class RequestStream {
    var unread: seq<byte>

    method ReadLine(limit: nat) returns (line: seq<byte>)
      modifies this
      ensures line == old(unread)[..LineSize(old(unread), limit)] &&
              unread == old(unread)[LineSize(old(unread), limit)..]
    {
      var n := LineSize(unread, limit);
      line := unread[..n];
      unread := unread[n..];
    }

    method Read(count: nat) returns (bytes: seq<byte>)
      modifies this
      ensures bytes + unread == old(unread) && |bytes| == if |old(unread)| < count then |old(unread)| else count
    {
      var n := if |unread| < count then |unread| else count;
      bytes := unread[..n];
      unread := unread[n..];
    }

    method ReadHeader() returns (r: Result<nat, Refusal>)
      modifies this
      ensures match DecodeHeader(old(unread))
              case Ok(h) => r == Ok(h.count) && unread == h.next
              case Err(e) => r == Err(e)
    {
      var line := ReadLine(MAX_SIZE_LINE + 1);
      if |line| > MAX_SIZE_LINE || |line| < 2 || line[|line| - 2..] != CRLF || !Hexadecimal(SizeField(line)) {
        return Err(InvalidFraming);
      }
      return Ok(HexValue(SizeField(line)));
    }

    method ReadContent(count: nat) returns (r: Result<seq<byte>, Refusal>)
      modifies this
      ensures match DecodeContent(old(unread), count)
              case Ok(p) => r == Ok(p.content) && unread == p.tail
              case Err(e) => r == Err(e)
    {
      ghost var s := unread;
      var content := Read(count);
      if |content| != count { return Err(Incomplete); }
      assert s[..count] == content && s[count..] == unread;
      var end := Read(2);
      if |end| != 2 { return Err(Incomplete); }
      assert s[count..][..2] == end && s[count..][2..] == unread;
      assert s[count..count + 2] == end && s[count + 2..] == unread;
      if end != CRLF { return Err(InvalidFraming); }
      return Ok(content);
    }

    method ReadBody() returns (r: Result<seq<byte>, Refusal>)
      modifies this
      ensures match Decode(old(unread), MAX_CHUNKS, 0)
              case Ok(d) => r == Ok(d.body) && unread == d.rest
              case Err(e) => r == Err(e)
    {
      hide DecodeHeader, DecodeContent, LineSize, After;
      var chunks: seq<byte> := [];
      var total: nat := 0;
      var i: nat := 0;
      AfterAfter([], [], Decode(unread, MAX_CHUNKS, 0));
      while i < MAX_CHUNKS
        invariant i <= MAX_CHUNKS && total <= MAX_BODY
        invariant Decode(old(unread), MAX_CHUNKS, 0) == After(chunks, Decode(unread, MAX_CHUNKS - i, total))
      {
        AfterIs(chunks, Decode(unread, MAX_CHUNKS - i, total));
        var count := ReadHeader();
        if count.Err? { return Err(count.error); }
        total := total + count.value;
        if total > MAX_BODY { return Err(BodyTooLarge); }
        if count.value == 0 {
          EndsMessage(unread);
          var end := ReadLine(3);
          if end != CRLF { return Err(Trailers); }
          return Ok(chunks);
        }
        var content := ReadContent(count.value);
        if content.Err? { return Err(content.error); }
        AfterAfter(chunks, content.value, Decode(unread, MAX_CHUNKS - i - 1, total));
        chunks := chunks + content.value;
        i := i + 1;
      }
      AfterIs(chunks, Decode(unread, 0, total));
      return Err(TooManyChunks);
    }
  }

  lemma AfterIs(chunks: seq<byte>, r: Result<Decoded, Refusal>)
    ensures r.Err? ==> After(chunks, r) == r
    ensures r.Ok? ==> After(chunks, r) == Ok(Decoded(chunks + r.value.body, r.value.rest))
    ensures r.Ok? && r.value.body == [] ==> After(chunks, r) == Ok(Decoded(chunks, r.value.rest))
  {
    assert chunks + [] == chunks;
  }

  lemma EndsMessage(s: seq<byte>)
    ensures s[..LineSize(s, 3)] == CRLF <==> CRLF <= s
    ensures CRLF <= s ==> LineSize(s, 3) == 2
  {
    if CRLF <= s {
      assert s == CRLF + s[2..];
      LineRead(CRLF, s[2..], 3);
    }
  }
}

/**
  JSON strings as bytes: how a text is written with the escapes that cannot be avoided
  (section 7 of RFC 8259) and in UTF-8 (section 3 of RFC 3629), and how it is read back.
*/
module JsonText {
  import opened Wrappers

  type CodePoint = c: nat | c <= 0x10FFFF

  const QUOTE: byte := 34
  const BACKSLASH: byte := 92

  /** Code points that can be sent: all but the surrogates. */
  predicate ScalarValue(c: CodePoint) { c < 0xD800 || 0xE000 <= c }

  // ----- writing ------------------------------------------------------------------------------

  function Utf8(c: CodePoint): (r: seq<byte>)
    ensures 1 <= |r| <= 4
  {
    if c < 0x80 then [c as byte]
    else if c < 0x800 then [(0xC0 + c / 64) as byte, (0x80 + c % 64) as byte]
    else if c < 0x10000 then
      [(0xE0 + c / 4096) as byte, (0x80 + c / 64 % 64) as byte, (0x80 + c % 64) as byte]
    else
      [(0xF0 + c / 262144) as byte, (0x80 + c / 4096 % 64) as byte, (0x80 + c / 64 % 64) as byte,
       (0x80 + c % 64) as byte]
  }

  /** The letter of a two-character escape. */
  function Letter(c: CodePoint): Option<byte> {
    if c == 34 || c == 92 then Some(c as byte)
    else if c == 8 then Some(98)
    else if c == 9 then Some(116)
    else if c == 10 then Some(110)
    else if c == 12 then Some(102)
    else if c == 13 then Some(114)
    else None
  }

  function HexDigit(d: nat): byte
    requires d < 16
  {
    if d < 10 then (48 + d) as byte else (87 + d) as byte
  }

  function WriteCodePoint(c: CodePoint): seq<byte> {
    if Letter(c).Some? then [BACKSLASH, Letter(c).value]
    else if c < 32 then [BACKSLASH, 117, 48, 48, HexDigit(c / 16), HexDigit(c % 16)]
    else Utf8(c)
  }

  function WriteCodePoints(s: seq<CodePoint>): seq<byte> {
    if s == [] then [] else WriteCodePoint(s[0]) + WriteCodePoints(s[1..])
  }

  /** A text between quotation marks. */
  function Quoted(s: seq<CodePoint>): seq<byte> { [QUOTE] + WriteCodePoints(s) + [QUOTE] }

  // ----- reading ------------------------------------------------------------------------------

  datatype Read<+T> = Read(value: T, rest: seq<byte>)

  predicate Continues(b: byte) { 0x80 <= b < 0xC0 }

  function ReadUtf8(s: seq<byte>): (r: Option<Read<CodePoint>>)
    ensures r.Some? ==> |r.value.rest| < |s| && ScalarValue(r.value.value)
  {
    if s == [] then None
    else if s[0] < 0x80 then Some(Read(s[0] as CodePoint, s[1..]))
    else if 0xC2 <= s[0] < 0xE0 && |s| >= 2 && Continues(s[1]) then
      Some(Read(((s[0] as int - 0xC0) * 64 + (s[1] as int - 0x80)) as CodePoint, s[2..]))
    else if 0xE0 <= s[0] < 0xF0 && |s| >= 3 && Continues(s[1]) && Continues(s[2]) then
      var c: int := (s[0] as int - 0xE0) * 4096 + (s[1] as int - 0x80) * 64 + (s[2] as int - 0x80);
      if c < 0x800 || 0xD800 <= c < 0xE000 then None else Some(Read(c as CodePoint, s[3..]))
    else if 0xF0 <= s[0] < 0xF5 && |s| >= 4 && Continues(s[1]) && Continues(s[2]) && Continues(s[3]) then
      var c: int := (s[0] as int - 0xF0) * 262144 + (s[1] as int - 0x80) * 4096 + (s[2] as int - 0x80) * 64 +
        (s[3] as int - 0x80);
      if c < 0x10000 || c > 0x10FFFF then None else Some(Read(c as CodePoint, s[4..]))
    else None
  }

  function HexValue(b: byte): Option<nat> {
    if 48 <= b <= 57 then Some(b as nat - 48)
    else if 97 <= b <= 102 then Some(b as nat - 87)
    else if 65 <= b <= 70 then Some(b as nat - 55)
    else None
  }

  /** Four hexadecimal digits. */
  function ReadUnit(s: seq<byte>): (r: Option<Read<nat>>)
    ensures r.Some? ==> |r.value.rest| < |s| && r.value.value < 0x10000
  {
    if |s| < 4 || !(forall i :: 0 <= i < 4 ==> HexValue(s[i]).Some?) then None
    else
      var high, low := HexValue(s[0]).value * 16 + HexValue(s[1]).value,
        HexValue(s[2]).value * 16 + HexValue(s[3]).value;
      Some(Read((high * 256 + low) as nat, s[4..]))
  }

  /** What follows a backslash. An escaped surrogate counts only as the first half of a pair. */
  function ReadEscape(s: seq<byte>): (r: Option<Read<CodePoint>>)
    ensures r.Some? ==> |r.value.rest| < |s| && ScalarValue(r.value.value)
  {
    if s == [] then None
    else if s[0] == 34 || s[0] == 92 || s[0] == 47 then Some(Read(s[0] as CodePoint, s[1..]))
    else if s[0] == 98 then Some(Read(8 as CodePoint, s[1..]))
    else if s[0] == 116 then Some(Read(9 as CodePoint, s[1..]))
    else if s[0] == 110 then Some(Read(10 as CodePoint, s[1..]))
    else if s[0] == 102 then Some(Read(12 as CodePoint, s[1..]))
    else if s[0] == 114 then Some(Read(13 as CodePoint, s[1..]))
    else if s[0] == 117 then
      match ReadUnit(s[1..])
      case None => None
      case Some(u) =>
        if !(0xD800 <= u.value < 0xE000) then Some(Read(u.value as CodePoint, u.rest))
        else if u.value < 0xDC00 && |u.rest| >= 2 && u.rest[0] == BACKSLASH && u.rest[1] == 117 then
          match ReadUnit(u.rest[2..])
          case Some(v) =>
            if 0xDC00 <= v.value < 0xE000
            then Some(Read((0x10000 + (u.value - 0xD800) * 1024 + (v.value - 0xDC00)) as CodePoint, v.rest)) else None
          case None => None
        else None
    else None
  }

  function ReadCodePoint(s: seq<byte>): (r: Option<Read<CodePoint>>)
    ensures r.Some? ==> |r.value.rest| < |s| && ScalarValue(r.value.value)
  {
    if s == [] || s[0] < 32 then None
    else if s[0] == BACKSLASH then ReadEscape(s[1..])
    else ReadUtf8(s)
  }

  /** The text up to the closing quotation mark. */
  function ReadText(s: seq<byte>): (r: Option<Read<seq<CodePoint>>>)
    ensures r.Some? ==> forall i :: 0 <= i < |r.value.value| ==> ScalarValue(r.value.value[i])
    decreases |s|
  {
    if s == [] then None
    else if s[0] == QUOTE then Some(Read([], s[1..]))
    else
      match ReadCodePoint(s)
      case None => None
      case Some(c) =>
        match ReadText(c.rest)
        case Some(more) => Some(Read([c.value] + more.value, more.rest))
        case None => None
  }

  function ReadQuoted(s: seq<byte>): Option<Read<seq<CodePoint>>> {
    if s == [] || s[0] != QUOTE then None else ReadText(s[1..])
  }

  // ----- what is written is read back ---------------------------------------------------------

  predicate ScalarValues(s: seq<CodePoint>) { forall i :: 0 <= i < |s| ==> ScalarValue(s[i]) }

  lemma Utf8Reads(c: CodePoint, rest: seq<byte>)
    requires ScalarValue(c)
    ensures ReadUtf8(Utf8(c) + rest) == Some(Read(c, rest))
  {
    var s := Utf8(c) + rest;
    assert s[|Utf8(c)|..] == rest;
    assert c == c / 64 * 64 + c % 64;
    assert c / 64 == c / 4096 * 64 + c / 64 % 64 && c / 4096 == c / 64 / 64;
    assert c / 4096 == c / 262144 * 64 + c / 4096 % 64;
  }

  lemma EscapeReads(c: CodePoint, rest: seq<byte>)
    requires Letter(c).Some? || c < 32
    ensures ReadCodePoint(WriteCodePoint(c) + rest) == Some(Read(c, rest))
  {
    var s := WriteCodePoint(c) + rest;
    assert s[0] == BACKSLASH && s[1..][1..] == s[2..];
    if Letter(c).Some? {
      assert s[2..] == rest;
    } else {
      var u := s[1..][1..];
      assert u == [48, 48, HexDigit(c / 16), HexDigit(c % 16)] + rest && u[4..] == rest;
      HexReads(c / 16);
      HexReads(c % 16);
    }
  }

  lemma HexReads(d: nat)
    requires d < 16
    ensures HexValue(HexDigit(d)) == Some(d)
  {
  }

  lemma CodePointReads(c: CodePoint, rest: seq<byte>)
    requires ScalarValue(c)
    ensures ReadCodePoint(WriteCodePoint(c) + rest) == Some(Read(c, rest)) && WriteCodePoint(c)[0] != QUOTE
  {
    if Letter(c).Some? || c < 32 {
      EscapeReads(c, rest);
    } else {
      Utf8Reads(c, rest);
      assert (Utf8(c) + rest)[0] == Utf8(c)[0];
    }
  }

  /** Every text of scalar values is read back from how it is written. */
  lemma {:induction false} TextReads(s: seq<CodePoint>, rest: seq<byte>)
    requires ScalarValues(s)
    ensures ReadText(WriteCodePoints(s) + [QUOTE] + rest) == Some(Read(s, rest))
  {
    if s == [] {
      var all := WriteCodePoints(s) + [QUOTE] + rest;
      assert all == [QUOTE] + rest && all[1..] == rest;
    } else {
      hide WriteCodePoint, ReadCodePoint;
      var more := WriteCodePoints(s[1..]) + [QUOTE] + rest;
      assert WriteCodePoints(s) + [QUOTE] + rest == WriteCodePoint(s[0]) + more;
      CodePointReads(s[0], more);
      TextReads(s[1..], rest);
      var all := WriteCodePoint(s[0]) + more;
      assert all != [] && all[0] == WriteCodePoint(s[0])[0];
      assert [s[0]] + s[1..] == s;
    }
  }

  /** A quoted text is read back, and only texts of scalar values are read at all. */
  lemma QuotedReads(s: seq<CodePoint>, rest: seq<byte>)
    requires ScalarValues(s)
    ensures ReadQuoted(Quoted(s) + rest) == Some(Read(s, rest))
  {
    TextReads(s, rest);
    assert (Quoted(s) + rest)[1..] == WriteCodePoints(s) + [QUOTE] + rest;
  }

  /** How a text with a surrogate would be written cannot be read. */
  lemma SurrogateUnreadable(c: CodePoint, rest: seq<byte>)
    requires !ScalarValue(c)
    ensures ReadUtf8(Utf8(c) + rest).None?
  {
    var s := Utf8(c) + rest;
    assert c == c / 64 * 64 + c % 64;
    assert c / 64 == c / 4096 * 64 + c / 64 % 64 && c / 4096 == c / 64 / 64;
  }
}

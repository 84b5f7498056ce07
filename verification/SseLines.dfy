/**
  The incremental line splitter for server-sent events.

  `SplitLines` is the line structure of WHATWG HTML, section 9.2.5 "Parsing an event
  stream", on a whole stream: lines end in CR LF, CR or LF, after one optional byte order
  mark. `SseReader` finds the same lines while the bytes arrive in pieces of any size.
*/
module SseLines {
  import opened Wrappers

  const MAX_MESSAGE_BYTES: nat := 10 * 1024 * 1024
  const MAX_STREAM_BYTES: nat := 64 * 1024 * 1024
  const CR: byte := 13
  const LF: byte := 10
  const BOM: seq<byte> := [0xEF, 0xBB, 0xBF]

  predicate Terminator(b: byte) { b == CR || b == LF }

  /** The number of bytes before the first line terminator. */
  function LineEnd(s: seq<byte>): (e: nat)
    ensures e <= |s| && (forall i :: 0 <= i < e ==> !Terminator(s[i])) && (e < |s| ==> Terminator(s[e]))
  {
    if s == [] || Terminator(s[0]) then 0 else 1 + LineEnd(s[1..])
  }

  /** The first line together with its terminator, CR LF counting as one. */
  function LineLength(s: seq<byte>): (n: nat)
    ensures LineEnd(s) <= n <= |s| && (s != [] ==> n > 0)
  {
    var e := LineEnd(s);
    if e == |s| then e
    else if s[e] == CR && e + 1 < |s| && s[e + 1] == LF then e + 2
    else e + 1
  }

  function SplitLines(s: seq<byte>): seq<seq<byte>> {
    if s == [] then [] else [s[..LineEnd(s)]] + SplitLines(s[LineLength(s)..])
  }

  function BomLength(s: seq<byte>): nat { if BOM <= s then 3 else 0 }

  function StripBom(s: seq<byte>): seq<byte> { if BOM <= s then s[3..] else s }

  /** The first terminator of a sequence is the first one of its beginning, if that has one. */
  lemma {:induction false} LineEndIs(s: seq<byte>, e: nat)
    requires e <= |s| && (forall i :: 0 <= i < e ==> !Terminator(s[i])) && (e < |s| ==> Terminator(s[e]))
    ensures LineEnd(s) == e
  {
  }

  lemma {:induction false} LineEndFrom(s: seq<byte>, from: nat)
    requires from <= |s| && (forall i :: 0 <= i < from ==> !Terminator(s[i]))
    ensures LineEnd(s) == from + LineEnd(s[from..])
  {
    hide Terminator;
    if from > 0 {
      LineEndFrom(s[1..], from - 1);
      assert s[1..][from - 1..] == s[from..];
    } else {
      assert s[0..] == s;
    }
  }

  /** The first line ends in CR LF. */
  predicate EndsInCrLf(s: seq<byte>) { LineLength(s) == LineEnd(s) + 2 }

  /** A read ended between the CR and the LF of the first line; places are counted from the end of the stream. */
  predicate IsCut(s: seq<byte>, cuts: set<nat>) { EndsInCrLf(s) && |s| - LineEnd(s) - 1 in cuts }

  const MAX_READ: nat := 65536

  /** The `n` bytes before index `at` are not a line end. */
  ghost predicate LongRun(whole: seq<byte>, at: nat, n: nat) {
    n <= at <= |whole| && forall i :: at - n <= i < at ==> !Terminator(whole[i])
  }

  /** A read that ends at place `p` could ask for no more: it had the largest size, or completed too long a line. */
  ghost predicate AskedForNoMore(whole: seq<byte>, stops: set<nat>, cuts: set<nat>, p: nat, k: nat) {
    1 <= k <= MAX_READ && p + k <= |whole| && (p + k in cuts || p + k == |whole|) &&
    (forall r :: r in stops ==> r <= p || p + k <= r) &&
    (k == MAX_READ || LongRun(whole, |whole| - p - k, MAX_MESSAGE_BYTES + 1 - k))
  }

  /** Why a read may have ended at place `p`: delivery paused, no more was asked for, or the stream is too long. */
  ghost predicate Excused(whole: seq<byte>, stops: set<nat>, cuts: set<nat>, p: nat) {
    p == 0 || p in stops || p + MAX_STREAM_BYTES < |whole| || exists k :: AskedForNoMore(whole, stops, cuts, p, k)
  }

  /** The first place from `p` on at which a read ended. */
  function FirstCut(cuts: set<nat>, p: nat, top: nat): (q: nat)
    requires p <= top
    ensures p <= q <= top && (q < top ==> q in cuts) && forall r :: p <= r < q ==> r !in cuts
    decreases top - p
  {
    if p == top || p in cuts then p else FirstCut(cuts, p + 1, top)
  }

  /** How many bytes are never taken in: all that come after the last read within the limit on a whole stream. */
  function Untaken(length: nat, cuts: set<nat>): (q: nat)
    ensures q <= length && (length <= MAX_STREAM_BYTES ==> q == 0) && (length > MAX_STREAM_BYTES ==> q > 0)
  {
    if length <= MAX_STREAM_BYTES then 0 else FirstCut(cuts, length - MAX_STREAM_BYTES, length)
  }

  /**
    An upstream response body. `Read1` hands out the next bytes up to the place where the
    delivery pauses next, or as many as were asked for; `cuts` are the places where a read
    has ended.
  */
  class ByteSource {
    ghost const whole: seq<byte>
    var unread: seq<byte>
    const stops: set<nat>
    ghost var cuts: set<nat>

    constructor (stream: seq<byte>, stops: set<nat>)
      ensures unread == whole == stream && this.stops == stops && cuts == {}
    {
      unread, whole, this.stops, cuts := stream, stream, stops, {};
    }

    /** Reads have ended wherever the delivery paused so far, and elsewhere only with an excuse. */
    ghost predicate Paused()
      reads this
    {
      |unread| <= |whole| && unread == whole[|whole| - |unread|..] &&
      (forall p :: p in cuts ==> |unread| <= p < |whole| && Excused(whole, stops, cuts, p)) &&
      (forall p :: p in stops ==> p < |unread| || |whole| <= p || p in cuts) &&
      (|unread| < |whole| ==> |unread| in cuts)
    }

    /** A set of cuts that agrees with the reads so far. */
    ghost predicate Tells(c: set<nat>)
      reads this
    {
      forall p :: p >= |unread| ==> (p in c <==> p in cuts)
    }

    /** Asking for so many bytes is excused, if they all come. */
    ghost predicate MayAsk(n: nat)
      reads this
      requires n <= MAX_READ
    {
      n == MAX_READ || (|unread| <= |whole| && LongRun(whole, |whole| - |unread|, MAX_MESSAGE_BYTES + 1 - n)) ||
      |unread| - n + MAX_STREAM_BYTES < |whole|
    }

    /** Reading on adds no cuts to what was read before. */
    ghost predicate Extends(left: nat, before: set<nat>)
      reads this
    {
      |unread| <= left && before <= cuts && forall p :: p in cuts && p >= left ==> p in before
    }

    method Read1(n: nat) returns (chunk: seq<byte>)
      requires 1 <= n <= MAX_READ && n <= MAX_MESSAGE_BYTES + 1
      modifies this
      ensures chunk + unread == old(unread) && |chunk| <= n
      ensures chunk == [] <==> old(unread) == []
      ensures cuts == if chunk == [] then old(cuts) else old(cuts) + {|unread|}
      ensures Extends(old(|unread|), old(cuts))
      ensures old(Paused() && MayAsk(n)) ==> Paused()
    {
      if unread == [] { return []; }
      var k := 1;
      while k < n && k < |unread| && |unread| - k !in stops
        invariant 1 <= k <= n && k <= |unread|
        invariant forall p :: p in stops ==> p <= |unread| - k || p >= |unread|
      {
        k := k + 1;
      }
      ghost var before, ends := unread, cuts;
      chunk := unread[..k];
      unread := unread[k..];
      cuts := cuts + {|unread|};
      Ended(whole, before, unread, stops, ends, k, n);
      StillExcused(whole, stops, ends, cuts);
    }
  }

  lemma Ended(whole: seq<byte>, before: seq<byte>, unread: seq<byte>, stops: set<nat>, cuts: set<nat>, k: nat, n: nat)
    requires 1 <= k <= n <= MAX_READ && k <= |before| && unread == before[k..] && n <= MAX_MESSAGE_BYTES + 1
    requires forall p :: p in stops ==> p <= |before| - k || p >= |before|
    requires k < n && k < |before| ==> |before| - k in stops
    ensures |before| <= |whole| && before == whole[|whole| - |before|..] ==> unread == whole[|whole| - |unread|..]
    ensures |before| <= |whole| && (|before| in cuts || |before| == |whole|) &&
            (n == MAX_READ || LongRun(whole, |whole| - |before|, MAX_MESSAGE_BYTES + 1 - n) ||
             |before| - n + MAX_STREAM_BYTES < |whole|) ==>
              Excused(whole, stops, cuts + {|unread|}, |unread|)
  {
    hide LongRun;
    if |unread| != 0 && |unread| !in stops && |before| <= |whole| && (|before| in cuts || |before| == |whole|) {
      assert k == n;
      assert |unread| + k == |before|;
      if n == MAX_READ || LongRun(whole, |whole| - |before|, MAX_MESSAGE_BYTES + 1 - n) {
        assert AskedForNoMore(whole, stops, cuts + {|unread|}, |unread|, k);
      }
    }
  }

  lemma StillExcused(whole: seq<byte>, stops: set<nat>, before: set<nat>, cuts: set<nat>)
    requires before <= cuts
    ensures forall p :: Excused(whole, stops, before, p) ==> Excused(whole, stops, cuts, p)
  {
    hide LongRun;
    forall p | Excused(whole, stops, before, p) ensures Excused(whole, stops, cuts, p) {
      if exists k :: AskedForNoMore(whole, stops, before, p, k) {
        var k :| AskedForNoMore(whole, stops, before, p, k);
        assert AskedForNoMore(whole, stops, cuts, p, k);
      }
    }
  }

  datatype Read = Line(line: seq<byte>, size: nat, prefix: nat) | End | LineTooLong | StreamTooLong

  /** A line of the stream as it is yielded: whole, or up to a CR whose LF comes late. */
  predicate Piece(rest: seq<byte>, line: seq<byte>, owed: nat) {
    line != [] && line <= rest && |line| + owed == LineLength(rest) && owed <= 1 &&
    (owed == 1 ==> |line| == LineEnd(rest) + 1) && (LineEnd(rest) < |rest| ==> LineEnd(rest) < |line|)
  }

  /**
    What one yielded item means for the rest of the stream: it is the first line, complete
    or up to a CR whose LF comes later, or it is empty and only reports such an LF.
  */
  predicate Yields(rest: seq<byte>, owed: nat, mark: nat, r: Read, next: seq<byte>, late: nat) {
    r.Line? && r.prefix == owed &&
    if r.line == [] then rest == [] && owed > 0 && r.size == 0 && next == [] && late == 0
    else Piece(rest, r.line, late) && r.size == |r.line| + mark && next == rest[LineLength(rest)..]
  }

  /**
    The next line can be yielded when all but `untaken` bytes are taken in: it is not too long, and
    its end has come.
  */
  predicate Yielded(rest: seq<byte>, mark: nat, untaken: nat) {
    rest != [] && LineEnd(rest) + mark <= MAX_MESSAGE_BYTES &&
    if LineEnd(rest) < |rest| then untaken < |rest| - LineEnd(rest) else untaken == 0
  }

  /** There is a next item: a line, or at the end of the stream nothing but a late LF. */
  predicate YieldsNext(rest: seq<byte>, mark: nat, untaken: nat) {
    if rest == [] then untaken == 0 else Yielded(rest, mark, untaken)
  }

  /** No read ended directly after a CR that is followed by more of `pending`; `left` bytes are unread. */
  ghost predicate NoCutAfterCr(pending: seq<byte>, left: nat, cuts: set<nat>) {
    forall p :: p in cuts && left < p < |pending| + left ==> pending[|pending| + left - p - 1] != CR
  }

  lemma NoCutInRest(pending: seq<byte>, left: nat, cuts: set<nat>, k: nat)
    requires NoCutAfterCr(pending, left, cuts) && k <= |pending|
    ensures NoCutAfterCr(pending[k..], left, cuts)
  {
  }

  lemma NoCutInMore(pending: seq<byte>, chunk: seq<byte>, left: nat, cuts: set<nat>)
    requires NoCutAfterCr(pending, |chunk| + left, cuts) && (forall p :: p in cuts ==> |chunk| + left <= p)
    requires pending != [] ==> pending[|pending| - 1] != CR
    ensures NoCutAfterCr(pending + chunk, left, cuts + {left})
  {
  }

  lemma NotCutInside(pending: seq<byte>, left: nat, cuts: set<nat>, at: nat)
    requires NoCutAfterCr(pending, left, cuts) && at + 1 < |pending| && pending[at] == CR
    ensures |pending| + left - at - 1 !in cuts
  {
  }

  lemma EndsInCrLfAt(s: seq<byte>, at: nat)
    requires at == LineEnd(s) < |s|
    ensures EndsInCrLf(s) <==> s[at] == CR && at + 1 < |s| && s[at + 1] == LF
  {
    hide LineEnd;
    LengthFrom(s, at);
  }

  lemma Joint(pending: seq<byte>, unread: seq<byte>, at: nat)
    requires at < |pending|
    ensures var ahead := pending + unread;
            ahead[at] == pending[at] && (at + 1 < |pending| ==> ahead[at + 1] == pending[at + 1]) &&
            (at + 1 == |pending| && unread != [] ==> ahead[at + 1] == unread[0])
  {
  }

  lemma CutAt(pending: seq<byte>, unread: seq<byte>, cuts: set<nat>, at: nat)
    requires NoCutAfterCr(pending, |unread|, cuts) && |unread| in cuts && at == LineEnd(pending) < |pending|
    ensures IsCut(pending + unread, cuts) <==> pending[at] == CR && at + 1 == |pending| && [LF] <= unread
  {
    hide LineEnd, NoCutAfterCr, EndsInCrLf, Terminator;
    FirstEndStays(pending, unread);
    EndsInCrLfAt(pending + unread, at);
    Joint(pending, unread, at);
    if at + 1 < |pending| && pending[at] == CR { NotCutInside(pending, |unread|, cuts, at); }
  }

  /** What taking the first `end` bytes, up to a line terminator, yields and leaves. */
  lemma Taken(pending: seq<byte>, unread: seq<byte>, at: nat, end: nat, mark: nat, owed: nat)
    requires at == LineEnd(pending) < |pending|
    requires end == if pending[at] == CR && at + 1 < |pending| && pending[at + 1] == LF then at + 2 else at + 1
    ensures end <= |pending|
    ensures var ahead, left := pending + unread, pending[end..] + unread;
            var late := pending[at] == CR && end == at + 1 && [LF] <= left;
            Yields(ahead, owed, mark, Line(pending[..end], end + mark, owed), if late then left[1..] else left, if late
              then 1 else 0)
  {
    hide LineEnd, LineLength, Terminator;
    var ahead, left := pending + unread, pending[end..] + unread;
    LineCut(pending, unread, at, end);
    var late := pending[at] == CR && end == at + 1 && [LF] <= left;
    RestStays(pending, unread, end);
    hide *;
    TakenPiece(ahead, pending[..end], at, end, late);
    TakenNext(ahead, left, end, late);
  }

  lemma TakenYielded(pending: seq<byte>, unread: seq<byte>, at: nat, mark: nat)
    requires at == LineEnd(pending) < |pending| && at + mark <= MAX_MESSAGE_BYTES
    ensures Yielded(pending + unread, mark, |unread|)
  {
    hide LineEnd;
    FirstEndStays(pending, unread);
  }

  lemma RestStays(pending: seq<byte>, unread: seq<byte>, n: nat)
    requires n <= |pending|
    ensures (pending + unread)[n..] == pending[n..] + unread && pending[..n] <= pending + unread
  {
  }

  lemma TakenPiece(ahead: seq<byte>, line: seq<byte>, at: nat, end: nat, late: bool)
    requires LineEnd(ahead) == at < end == |line| && line <= ahead &&
             LineLength(ahead) == (if late then end + 1 else end)
    requires late ==> end == at + 1
    ensures Piece(ahead, line, if late then 1 else 0)
  {
  }

  lemma TakenNext(ahead: seq<byte>, left: seq<byte>, end: nat, late: bool)
    requires end <= |ahead| && left == ahead[end..] && LineLength(ahead) == (if late then end + 1 else end)
    ensures (if late then left[1..] else left) == ahead[LineLength(ahead)..]
  {
  }

  lemma TakenLate(pending: seq<byte>, unread: seq<byte>, at: nat)
    requires at < |pending|
    ensures var late := pending[at] == CR && !(at + 1 < |pending| && pending[at + 1] == LF) &&
            [LF] <= pending[at + 1..] + unread;
            late <==> pending[at] == CR && at + 1 == |pending| && [LF] <= unread
  {
    var left := pending[at + 1..] + unread;
    if at + 1 < |pending| { assert left[0] == pending[at + 1]; } else { assert left == unread; }
  }

  /** If the read that goes too far started at `left`, that many bytes are never taken in. */
  lemma LastReadWithin(length: nat, before: set<nat>, left: nat, now: nat)
    requires length > MAX_STREAM_BYTES && now < length - MAX_STREAM_BYTES <= left <= length
    requires (forall p :: p in before ==> left <= p) && (left in before || left == length)
    ensures Untaken(length, before + {now}) == left
  {
    var q := FirstCut(before + {now}, length - MAX_STREAM_BYTES, length);
    assert left < length ==> left in before + {now};
  }

  /** What is pending was taken in last, after the byte order mark if that was charged to no line yet. */
  ghost predicate TakenIn(whole: seq<byte>, total: nat, pending: seq<byte>, bomBytes: nat) {
    |pending| + bomBytes <= total <= |whole| && pending == whole[total - |pending|..total] &&
    (bomBytes > 0 ==> bomBytes == 3 && BOM <= whole && total == |pending| + 3)
  }

  /**
    How many bytes are never taken in at least, and where the last read within the limit can have
    ended at the earliest.
  */
  function LeastUntaken(stream: seq<byte>): nat {
    if |stream| <= MAX_STREAM_BYTES then 0 else |stream| - MAX_STREAM_BYTES
  }

  const LAST_LINE: nat := MAX_STREAM_BYTES - MAX_MESSAGE_BYTES - 1

  /**
    How many bytes are never taken in at most. The read that goes too far asks for all up to one
    byte beyond the limit on streams, so that it may not be too large, nor the line before it.
  */
  function MostUntaken(stream: seq<byte>): (q: nat)
    ensures LeastUntaken(stream) <= q && (if LeastUntaken(stream) == 0 then q == 0 else q < |stream|)
  {
    if |stream| <= MAX_STREAM_BYTES then 0
    else
      var least, end := LeastUntaken(stream), LAST_LINE + LineEnd(stream[LAST_LINE..]);
      if end >= MAX_STREAM_BYTES then least
      else if least + MAX_READ - 1 < |stream| - end - 1 then least + MAX_READ - 1
      else |stream| - end - 1
  }

  /**
    The reads went too far: the last one within the limit ended with `left` bytes untaken, the next
    line among them.
  */
  ghost predicate RunsOver(whole: seq<byte>, cuts: set<nat>, rest: seq<byte>, mark: nat, left: nat, now: nat) {
    |whole| > MAX_STREAM_BYTES && now < |whole| - MAX_STREAM_BYTES && Untaken(|whole|, cuts) == left &&
    LeastUntaken(whole) <= left <= MostUntaken(whole) && !YieldsNext(rest, mark, left)
  }

  lemma RanOver(whole: seq<byte>, cuts: set<nat>, rest: seq<byte>, mark: nat, total: nat, pending: seq<byte>,
                bomBytes: nat, k: nat, left: nat, now: nat)
    requires TakenIn(whole, total, pending, bomBytes) && BeginsLine(whole, total, pending, bomBytes)
    requires 0 < k <= MAX_READ && total + k == MAX_STREAM_BYTES + 1 && |pending| + bomBytes + k <= MAX_MESSAGE_BYTES + 1
    requires |whole| > MAX_STREAM_BYTES && left == |whole| - total && now == left - k && !YieldsNext(rest, mark, left)
    requires (forall p :: p in cuts ==> left <= p) && (left in cuts || left == |whole|)
    ensures RunsOver(whole, cuts + {now}, rest, mark, left, now)
  {
    hide TakenIn, BeginsLine, YieldsNext, MostUntaken;
    GoesTooFar(whole, total, pending, bomBytes, k);
    LastReadWithin(|whole|, cuts, left, now);
  }

  /** A read that starts after `total` bytes and goes too far is one of these. */
  lemma GoesTooFar(whole: seq<byte>, total: nat, pending: seq<byte>, bomBytes: nat, k: nat)
    requires TakenIn(whole, total, pending, bomBytes) && BeginsLine(whole, total, pending, bomBytes)
    requires k <= MAX_READ && total + k == MAX_STREAM_BYTES + 1 && |pending| + bomBytes + k <= MAX_MESSAGE_BYTES + 1
    requires |whole| > MAX_STREAM_BYTES && total <= MAX_STREAM_BYTES
    ensures LeastUntaken(whole) <= |whole| - total <= MostUntaken(whole)
  {
    hide LineEnd;
    var t := total - |pending| - 1;
    assert Terminator(whole[t]) && LAST_LINE <= t;
    var tail := whole[LAST_LINE..];
    assert tail[t - LAST_LINE] == whole[t];
    assert LineEnd(tail) <= t - LAST_LINE;
  }

  /** What is pending begins a line. */
  ghost predicate BeginsLine(whole: seq<byte>, total: nat, pending: seq<byte>, bomBytes: nat)
    requires |pending| + bomBytes <= total <= |whole|
  {
    total == |pending| + bomBytes || Terminator(whole[total - |pending| - 1])
  }

  lemma BeginsMore(whole: seq<byte>, total: nat, pending: seq<byte>, bomBytes: nat, chunk: seq<byte>)
    requires |pending| + bomBytes <= total && total + |chunk| <= |whole| && BeginsLine(whole, total, pending, bomBytes)
    ensures BeginsLine(whole, total + |chunk|, pending + chunk, bomBytes)
  {
    assert total + |chunk| - |pending + chunk| == total - |pending|;
  }

  lemma TakenMore(whole: seq<byte>, total: nat, pending: seq<byte>, bomBytes: nat, chunk: seq<byte>, unread: seq<byte>)
    requires TakenIn(whole, total, pending, bomBytes) && chunk + unread == whole[total..]
    ensures total + |chunk| <= |whole| && TakenIn(whole, total + |chunk|, pending + chunk, bomBytes)
  {
  }

  lemma TakenRest(whole: seq<byte>, total: nat, pending: seq<byte>, bomBytes: nat, k: nat)
    requires TakenIn(whole, total, pending, bomBytes) && 0 < k <= |pending| && Terminator(pending[k - 1])
    ensures TakenIn(whole, total, pending[k..], 0) && BeginsLine(whole, total, pending[k..], 0)
  {
    assert whole[total - |pending[k..]| - 1] == pending[k - 1];
  }

  lemma TakenBom(whole: seq<byte>, total: nat, pending: seq<byte>)
    requires TakenIn(whole, total, pending, 0) && total == |pending| && BOM <= pending
    ensures TakenIn(whole, total, pending[3..], 3)
  {
    assert whole[..3] == pending[..3];
  }

  /** What is pending without a line end, with the mark before it, is a long run. */
  lemma PendingRun(whole: seq<byte>, total: nat, pending: seq<byte>, bomBytes: nat)
    requires TakenIn(whole, total, pending, bomBytes) && forall i :: 0 <= i < |pending| ==> !Terminator(pending[i])
    ensures LongRun(whole, total, |pending| + bomBytes)
  {
    forall i | total - |pending| - bomBytes <= i < total ensures !Terminator(whole[i]) {
      if i >= total - |pending| {
        assert whole[i] == pending[i - (total - |pending|)];
      } else {
        assert whole[i] == BOM[i];
      }
    }
  }

  ghost predicate NoEndIn(s: seq<byte>, n: nat)
    requires n <= |s|
  {
    forall i :: 0 <= i < n ==> !Terminator(s[i])
  }

  lemma NoEndInMore(s: seq<byte>, more: seq<byte>, n: nat)
    requires n <= |s| && NoEndIn(s, n)
    ensures NoEndIn(s + more, n)
  {
  }

  ghost function Unsplit(starting: bool, skipLf: bool, ahead: seq<byte>): seq<byte> {
    if starting then StripBom(ahead) else if skipLf && [LF] <= ahead then ahead[1..] else ahead
  }

  ghost function LateLf(skipLf: bool, ahead: seq<byte>): nat { if skipLf && [LF] <= ahead then 1 else 0 }

  class SseReader {
    const source: ByteSource
    var pending: seq<byte>
    var starting: bool
    var skipLf: bool
    var bomBytes: nat
    var continuedLf: nat
    var total: nat
    var scanFrom: nat
    var eof: bool

    ghost predicate Valid()
      reads this, source
    {
      |pending| + bomBytes <= MAX_MESSAGE_BYTES + 1 && bomBytes <= 3 && total <= MAX_STREAM_BYTES &&
      (starting ==> !skipLf && continuedLf == 0 && bomBytes == 0) && (skipLf ==> bomBytes == 0) &&
      scanFrom <= |pending| && NoEndIn(pending, scanFrom) && (skipLf ==> scanFrom == 0) &&
      (eof ==> source.unread == []) &&
      StreamLength() == |source.whole| && source.Paused() && (skipLf ==> |source.unread| in source.cuts) &&
      NoCutAfterCr(pending, |source.unread|, source.cuts) &&
      TakenIn(source.whole, total, pending, bomBytes) && (starting ==> total == |pending|) &&
      (eof || BeginsLine(source.whole, total, pending, bomBytes))
    }

    ghost function Ahead(): seq<byte>
      reads this, source
    {
      pending + source.unread
    }

    /** The bytes still to be split, without a byte order mark or a late LF. */
    ghost function Rest(): seq<byte>
      reads this, source
    {
      Unsplit(starting, skipLf, Ahead())
    }

    /** Late LFs that the next item will report. */
    ghost function Owed(): nat
      reads this, source
    {
      continuedLf + LateLf(skipLf, Ahead())
    }

    /** Bytes of the byte order mark that the next line will be charged with. */
    ghost function Mark(): nat
      reads this, source
    {
      if starting then BomLength(Ahead()) else bomBytes
    }

    ghost function StreamLength(): nat
      reads this, source
    {
      total + |source.unread|
    }

    constructor (source: ByteSource)
      requires source.cuts == {} && source.unread == source.whole
      ensures Valid() && this.source == source
      ensures Rest() == StripBom(source.unread) && Mark() == BomLength(source.unread) && Owed() == 0
      ensures StreamLength() == |source.unread|
    {
      this.source := source;
      pending, starting, skipLf, eof := [], true, false, false;
      bomBytes, continuedLf, total, scanFrom := 0, 0, 0, 0;
    }

    /** Drops the LF that belongs to a CR already reported. */
    method SkipLateLf()
      requires Valid()
      modifies this`pending, this`continuedLf, this`skipLf
      ensures Valid() && Rest() == old(Rest()) && Owed() == old(Owed()) && Mark() == old(Mark())
      ensures skipLf ==> pending == [] && !eof
      ensures eof ==> Owed() == continuedLf
    {
      hide NoCutAfterCr, TakenIn, ByteSource.Paused;
      if skipLf && (pending != [] || eof) {
        ghost var ahead := Ahead();
        if [LF] <= pending {
          NoCutInRest(pending, |source.unread|, source.cuts, 1);
          TakenRest(source.whole, total, pending, bomBytes, 1);
          pending := pending[1..];
          assert Ahead() == ahead[1..];
          continuedLf := continuedLf + 1;
        }
        skipLf := false;
      }
    }

    /** Recognizes the byte order mark once enough bytes are there. */
    method SkipBom()
      requires Valid()
      modifies this`pending, this`bomBytes, this`starting, this`scanFrom
      ensures Valid() && Rest() == old(Rest()) && Owed() == old(Owed()) && Mark() == old(Mark())
      ensures skipLf == old(skipLf) && (skipLf ==> pending == old(pending))
      ensures starting ==> !eof && |pending| <= 2 && pending <= BOM
    {
      hide NoCutAfterCr, TakenIn, ByteSource.Paused;
      if starting && (pending != [] || eof) {
        if eof || |pending| >= 3 || !(pending <= BOM) {
          ghost var ahead := Ahead();
          if BOM <= pending {
            NoCutInRest(pending, |source.unread|, source.cuts, 3);
            TakenBom(source.whole, total, pending);
            pending := pending[3..];
            bomBytes := 3;
            assert Ahead() == ahead[3..];
          }
          starting := false;
          scanFrom := 0;
        }
      }
    }

    lemma ReadEnds()
      requires Valid()
      ensures pending != [] || skipLf || |source.unread| < |source.whole| ==> |source.unread| in source.cuts
      ensures forall p :: p in source.cuts ==> |source.unread| <= p
    {
      hide NoCutAfterCr;
    }

    /** Takes the first line of `pending`, whose terminator has arrived at least in part. */
    method TakeLine(at: nat) returns (r: Read)
      requires Valid() && !starting && !skipLf && at < |pending| && at == LineEnd(pending)
      modifies this`pending, this`skipLf, this`bomBytes, this`continuedLf, this`scanFrom
      ensures Valid() && r.Line? && Mark() == 0 && Yields(old(Rest()), old(Owed()), old(Mark()), r, Rest(), Owed())
      ensures Owed() == 1 <==> IsCut(old(Rest()), source.cuts)
      ensures Yielded(old(Rest()), old(Mark()), |source.unread|)
    {
      hide LineEnd, LineLength, StripBom, BomLength, IsCut, NoCutAfterCr, ByteSource.Paused, Yields, TakenIn, Yielded;
      TakenYielded(pending, source.unread, at, bomBytes);
      ReadEnds();
      var end := at + 1;
      if pending[at] == CR {
        if end < |pending| && pending[end] == LF { end := end + 1; } else { skipLf := true; }
      }
      Taken(pending, source.unread, at, end, bomBytes, continuedLf);
      TakenLate(pending, source.unread, at);
      CutAt(pending, source.unread, source.cuts, at);
      NoCutInRest(pending, |source.unread|, source.cuts, end);
      TakenRest(source.whole, total, pending, bomBytes, end);
      r := Line(pending[..end], end + bomBytes, continuedLf);
      pending := pending[end..];
      bomBytes, continuedLf, scanFrom := 0, 0, 0;
    }

    /** The last item, once the response has ended inside a line or after a CR. */
    method TakeRest() returns (r: Read)
      requires Valid() && !starting && !skipLf && eof && LineEnd(pending) == |pending|
      requires |pending| + bomBytes <= MAX_MESSAGE_BYTES
      modifies this`pending, this`bomBytes, this`continuedLf, this`scanFrom
      ensures Valid()
      ensures r.Line? ==> Mark() == 0 && Yields(old(Rest()), old(Owed()), old(Mark()), r, Rest(), Owed())
      ensures r.Line? && r.line != [] ==> Owed() == 0 && !IsCut(old(Rest()), source.cuts)
      ensures r.Line? ==> YieldsNext(old(Rest()), old(Mark()), |source.unread|)
      ensures r.Line? || (r.End? && old(Rest()) == [] && old(Owed()) == 0 && source.unread == [])
    {
      hide NoCutAfterCr, BeginsLine, ByteSource.Paused;
      NoCutInRest(pending, |source.unread|, source.cuts, |pending|);
      assert pending[|pending|..] == [];
      assert Ahead() == pending && LineLength(pending) == |pending|;
      if pending != [] {
        r := Line(pending, |pending| + bomBytes, continuedLf);
        pending, continuedLf, bomBytes, scanFrom := [], 0, 0, 0;
      } else if continuedLf > 0 {
        r := Line([], 0, continuedLf);
        continuedLf, bomBytes := 0, 0;
      } else {
        r := End;
      }
    }

    lemma NoCrAtEnd()
      requires Valid() && (skipLf ==> pending == []) &&
               if starting then pending <= BOM else skipLf || scanFrom == |pending|
      ensures pending != [] ==> pending[|pending| - 1] != CR
    {
      hide StripBom, BomLength, NoCutAfterCr;
    }

    /** Reads once more; an empty read can only mean the end, because at least one byte is asked for. */
    method Fill() returns (ok: bool)
      requires Valid() && |pending| + bomBytes <= MAX_MESSAGE_BYTES && (skipLf ==> pending == [])
      requires if starting then pending <= BOM else skipLf || scanFrom == |pending|
      modifies this`pending, this`total, this`eof, source
      ensures StreamLength() == old(StreamLength())
      ensures !ok ==> StreamLength() > MAX_STREAM_BYTES &&
                      RunsOver(source.whole, source.cuts, old(Rest()), old(Mark()), old(|source.unread|),
                        |source.unread|)
      ensures ok ==> Valid() && Rest() == old(Rest()) && Owed() == old(Owed()) && Mark() == old(Mark())
      ensures source.Extends(old(|source.unread|), old(source.cuts)) && source.Paused()
      ensures ok ==> |source.unread| < old(|source.unread|) ||
                     (eof && source.unread == old(source.unread) && pending == old(pending))
    {
      hide NoCutAfterCr, NoEndIn, TakenIn, BeginsLine, Unsplit, LateLf, BomLength, ByteSource.Paused,
        ByteSource.Extends, YieldsNext, RunsOver, LineEnd;
      NoCrAtEnd();
      InWhole();
      var chunk := Receive();
      if !eof { BeginsMore(source.whole, total, pending, bomBytes, chunk); }
      if chunk == [] {
        eof := true;
      } else {
        total := total + |chunk|;
        if total > MAX_STREAM_BYTES { return false; }
        pending := pending + chunk;
      }
      ok := true;
    }

    /** Nothing can be yielded before more is taken in. */
    lemma NothingYields()
      requires Valid() && Scanned()
      ensures starting ==> total <= 3
      ensures !starting && source.unread != [] ==> !YieldsNext(Rest(), Mark(), |source.unread|)
    {
      hide TakenIn, NoCutAfterCr, ByteSource.Paused, LineEnd;
      if skipLf {
        assert Ahead() == source.unread;
      } else if !starting {
        LineEndAhead(pending, source.unread);
        assert Rest() == pending + source.unread && |Rest()| == |pending| + |source.unread|;
        assert LineEnd(Rest()) >= |pending|;
      }
    }

    /** The next bytes, as they can be joined to those that are pending. */
    method Receive() returns (chunk: seq<byte>)
      requires Valid() && |pending| + bomBytes <= MAX_MESSAGE_BYTES && (pending != [] ==> pending[|pending| - 1] != CR)
      requires Scanned()
      modifies source
      ensures pending + chunk + source.unread == old(Ahead()) && |chunk| + |source.unread| == old(|source.unread|)
      ensures chunk == [] ==> source.unread == [] == old(source.unread) && source.cuts == old(source.cuts)
      ensures |pending| + bomBytes + |chunk| <= MAX_MESSAGE_BYTES + 1
      ensures source.Paused() && source.Extends(old(|source.unread|), old(source.cuts))
      ensures NoEndIn(pending + chunk, scanFrom) && NoCutAfterCr(pending + chunk, |source.unread|, source.cuts)
      ensures chunk != [] ==> source.cuts == old(source.cuts) + {|source.unread|}
      ensures total + |chunk| > MAX_STREAM_BYTES ==>
                RunsOver(source.whole, source.cuts, old(Rest()), old(Mark()), old(|source.unread|), |source.unread|)
      ensures TakenIn(source.whole, total + |chunk|, pending + chunk, bomBytes)
    {
      hide BeginsLine, RunsOver, YieldsNext, Unsplit, LateLf, BomLength;
      hide NoCutAfterCr, NoEndIn, TakenIn, LongRun, ByteSource.MayAsk, ByteSource.Paused, ByteSource.Extends, Scanned;
      ReadEnds();
      ghost var cuts := source.cuts;
      var limit := Limit();
      Suffix();
      AskingIsExcused(limit);
      NothingYields();
      InWhole();
      ghost var left, rest, mark := |source.unread|, Rest(), Mark();
      chunk := source.Read1(limit);
      assert source.Paused();
      Joined(pending, chunk, source.unread);
      NoEndInMore(pending, chunk, scanFrom);
      TakenMore(source.whole, total, pending, bomBytes, chunk, source.unread);
      if chunk == [] {
        assert pending + chunk == pending;
      } else {
        NoCutInMore(pending, chunk, |source.unread|, cuts);
        if total + |chunk| > MAX_STREAM_BYTES {
          RanOver(source.whole, cuts, rest, mark, total, pending, bomBytes, |chunk|, left, |source.unread|);
        }
      }
    }

    lemma InWhole()
      requires Valid()
      ensures |pending| + bomBytes <= total <= |source.whole|
    {
      hide NoCutAfterCr, NoEndIn, BeginsLine;
    }

    lemma Suffix()
      requires Valid()
      ensures source.unread == source.whole[total..]
    {
      hide NoCutAfterCr, TakenIn, NoEndIn;
    }

    /** Less than the largest read is only asked for because of a long line or at the limit on streams. */
    lemma AskingIsExcused(limit: nat)
      requires Valid() && Scanned() && 1 <= limit <= MAX_READ
      requires limit == MAX_READ || |pending| + bomBytes + limit == MAX_MESSAGE_BYTES + 1 ||
               total + limit == MAX_STREAM_BYTES + 1
      ensures source.MayAsk(limit)
    {
      hide NoCutAfterCr, TakenIn, LongRun;
      PendingRun(source.whole, total, pending, bomBytes);
    }

    /** No line end is pending. */
    ghost predicate Scanned()
      reads this
      requires scanFrom <= |pending|
    {
      if starting then pending <= BOM else if skipLf then pending == [] else scanFrom == |pending|
    }

    lemma Joined(pending: seq<byte>, chunk: seq<byte>, unread: seq<byte>)
      ensures pending + (chunk + unread) == (pending + chunk) + unread && |chunk + unread| == |chunk| + |unread|
      ensures chunk == [] ==> chunk + unread == unread
    {
    }

    /** How much may be read without going further than one byte beyond a limit. */
    method Limit() returns (limit: nat)
      requires Valid() && |pending| + bomBytes <= MAX_MESSAGE_BYTES
      ensures 1 <= limit && |pending| + bomBytes + limit <= MAX_MESSAGE_BYTES + 1 &&
              total + limit <= MAX_STREAM_BYTES + 1 && limit <= MAX_READ
      ensures limit == MAX_READ || |pending| + bomBytes + limit == MAX_MESSAGE_BYTES + 1 ||
              total + limit == MAX_STREAM_BYTES + 1
    {
      limit := MAX_MESSAGE_BYTES + 1 - |pending| - bomBytes;
      if MAX_STREAM_BYTES + 1 - total < limit { limit := MAX_STREAM_BYTES + 1 - total; }
      if MAX_READ < limit { limit := MAX_READ; }
    }

    lemma NoEndInSight()
      requires Valid() && !starting && LineEnd(pending) == |pending| && |pending| + bomBytes > MAX_MESSAGE_BYTES &&
               !skipLf
      ensures LineEnd(Rest()) + Mark() > MAX_MESSAGE_BYTES && Rest() != []
    {
      LineEndAhead(pending, source.unread);
    }

    /** No line end has arrived: the line is too long, the response is over, or more bytes are needed. */
    method Wait() returns (r: Option<Read>)
      requires Valid() && !starting && (skipLf ==> pending == [] && !eof) && LineEnd(pending) == |pending|
      modifies this`pending, this`bomBytes, this`continuedLf, this`scanFrom
      ensures r.None? ==> Valid() && Rest() == old(Rest()) && Owed() == old(Owed()) && Mark() == old(Mark()) && !eof &&
                          scanFrom == |pending| && |pending| + bomBytes <= MAX_MESSAGE_BYTES &&
                            (skipLf ==> pending == [])
      ensures r.Some? && r.value.Line? ==> Valid() && Mark() == 0 &&
                                           Yields(old(Rest()), old(Owed()), old(Mark()), r.value, Rest(), Owed())
      ensures r.Some? && r.value.Line? && r.value.line != [] ==> (Owed() == 1 <==> IsCut(old(Rest()), source.cuts))
      ensures r.Some? && r.value.Line? ==> YieldsNext(old(Rest()), old(Mark()), |source.unread|)
      ensures r.Some? && r.value.End? ==> Valid() && old(Rest()) == [] && old(Owed()) == 0 && source.unread == []
      ensures r.Some? && r.value.LineTooLong? ==> Valid()
      ensures r.Some? && r.value.LineTooLong? ==> LineEnd(old(Rest())) + old(Mark()) > MAX_MESSAGE_BYTES &&
                                                  old(Rest()) != []
      ensures r.Some? ==> !r.value.StreamTooLong?
    {
      hide LineEnd, LineLength, StripBom, BomLength, Yields, Terminator;
      scanFrom := |pending|;
      if |pending| + bomBytes > MAX_MESSAGE_BYTES {
        NoEndInSight();
        return Some(LineTooLong);
      }
      if eof {
        var last := TakeRest();
        return Some(last);
      }
      return None;
    }

    /** Looks for a line in what has arrived; `None` asks for more bytes. */
    method Scan() returns (r: Option<Read>)
      requires Valid() && !starting && (skipLf ==> pending == [] && !eof)
      modifies this`pending, this`skipLf, this`bomBytes, this`continuedLf, this`scanFrom
      ensures r.None? ==> Valid() && Rest() == old(Rest()) && Owed() == old(Owed()) && Mark() == old(Mark()) && !eof &&
                          scanFrom == |pending| && |pending| + bomBytes <= MAX_MESSAGE_BYTES &&
                            (skipLf ==> pending == [])
      ensures r.Some? && r.value.Line? ==> Valid() && Mark() == 0 &&
                                           Yields(old(Rest()), old(Owed()), old(Mark()), r.value, Rest(), Owed())
      ensures r.Some? && r.value.Line? && r.value.line != [] ==> (Owed() == 1 <==> IsCut(old(Rest()), source.cuts))
      ensures r.Some? && r.value.Line? ==> YieldsNext(old(Rest()), old(Mark()), |source.unread|)
      ensures r.Some? && r.value.End? ==> Valid() && old(Rest()) == [] && old(Owed()) == 0 && source.unread == []
      ensures r.Some? && r.value.LineTooLong? ==> Valid()
      ensures r.Some? && r.value.LineTooLong? ==> LineEnd(old(Rest())) + old(Mark()) > MAX_MESSAGE_BYTES &&
                                                  old(Rest()) != []
      ensures r.Some? ==> !r.value.StreamTooLong?
    {
      hide LineEnd, LineLength, StripBom, BomLength, Yields, Terminator;
      var at := scanFrom + LineEnd(pending[scanFrom..]);
      LineEndFrom(pending, scanFrom);
      if at == |pending| {
        r := Wait();
      } else {
        hide *;
        var line := TakeLine(at);
        return Some(line);
      }
    }

    /** Resumes the generator until it yields, ends or raises. */
    method Next() returns (r: Read)
      requires Valid()
      modifies this, source
      ensures StreamLength() == old(StreamLength())
      ensures r.Line? ==> Valid() && Mark() == 0 && Yields(old(Rest()), old(Owed()), old(Mark()), r, Rest(), Owed())
      ensures r.Line? && r.line != [] ==> (Owed() == 1 <==> IsCut(old(Rest()), source.cuts))
      ensures r.Line? ==> YieldsNext(old(Rest()), old(Mark()), |source.unread|)
      ensures source.Extends(old(|source.unread|), old(source.cuts)) && source.Paused()
      ensures r.End? ==> Valid() && source.unread == [] && old(Rest()) == [] && old(Owed()) == 0 &&
                         StreamLength() <= MAX_STREAM_BYTES
      ensures r.LineTooLong? ==> Valid()
      ensures r.LineTooLong? ==> LineEnd(old(Rest())) + old(Mark()) > MAX_MESSAGE_BYTES && old(Rest()) != []
      ensures r.StreamTooLong? ==> StreamLength() > MAX_STREAM_BYTES
      ensures r.StreamTooLong? ==>
                exists left: nat :: left <= old(|source.unread|) &&
                  RunsOver(source.whole, source.cuts, old(Rest()), old(Mark()), left, |source.unread|)
    {
      hide LineEnd, LineLength, StripBom, BomLength, Rest, Owed, Mark, Yields, YieldsNext, RunsOver, TakenIn, NoEndIn,
        NoCutAfterCr, ByteSource.Paused;
      ghost var rest, owed, mark := Rest(), Owed(), Mark();
      while true
        invariant Valid() && StreamLength() == old(StreamLength())
        invariant Rest() == rest && Owed() == owed && Mark() == mark &&
                  source.Extends(old(|source.unread|), old(source.cuts))
        decreases |source.unread|, !eof
      {
        SkipLateLf();
        SkipBom();
        if !starting {
          var found := Scan();
          if found.Some? { return found.value; }
        }
        ghost var left := |source.unread|;
        var ok := Fill();
        if !ok {
          assert RunsOver(source.whole, source.cuts, rest, mark, left, |source.unread|);
          return StreamTooLong;
        }
      }
    }
  }

  /** Cutting the first line out of `pending` when the terminator starts at `at`. */
  lemma LineCut(pending: seq<byte>, unread: seq<byte>, at: nat, end: nat)
    requires at < |pending| && at == LineEnd(pending)
    requires end == if pending[at] == CR && at + 1 < |pending| && pending[at + 1] == LF then at + 2 else at + 1
    ensures var ahead := pending + unread;
            LineEnd(ahead) == at && end <= |pending| && pending[..end] == ahead[..end] &&
            var late := pending[at] == CR && end == at + 1 && [LF] <= ahead[end..];
            LineLength(ahead) == (if late then end + 1 else end) && (late ==> ahead[end..][1..] == ahead[end + 1..])
  {
    hide LineEnd, Terminator, LineLength;
    var ahead := pending + unread;
    FirstEndStays(pending, unread);
    StartsWithLf(ahead, end);
    FrontStays(pending, unread, end);
    assert ahead[at] == pending[at];
    assert at + 1 < |pending| ==> ahead[at + 1] == pending[at + 1];
    LengthFrom(ahead, at);
  }

  lemma FrontStays(pending: seq<byte>, unread: seq<byte>, n: nat)
    requires n <= |pending|
    ensures pending[..n] == (pending + unread)[..n]
  {
  }

  lemma StartsWithLf(s: seq<byte>, i: nat)
    requires i <= |s|
    ensures [LF] <= s[i..] <==> i < |s| && s[i] == LF
    ensures i < |s| ==> s[i..][1..] == s[i + 1..]
  {
  }

  lemma LengthFrom(s: seq<byte>, at: nat)
    requires at == LineEnd(s) < |s|
    ensures LineLength(s) == if s[at] == CR && at + 1 < |s| && s[at + 1] == LF then at + 2 else at + 1
  {
    hide LineEnd, Terminator;
  }

  lemma FirstEndStays(pending: seq<byte>, unread: seq<byte>)
    ensures LineEnd(pending) < |pending| ==> LineEnd(pending + unread) == LineEnd(pending)
  {
    hide LineEnd;
    if LineEnd(pending) < |pending| { LineEndIs(pending + unread, LineEnd(pending)); }
  }

  lemma LineEndAhead(pending: seq<byte>, unread: seq<byte>)
    requires forall i :: 0 <= i < |pending| ==> !Terminator(pending[i])
    ensures LineEnd(pending + unread) >= |pending|
  {
    assert forall i :: 0 <= i < |pending| ==> (pending + unread)[i] == pending[i];
  }
}

/** Proxied responses without a Content-Length: what the read loop makes of chunked ones, and of those that
    only the end of the stream ends. */
module ProxyFraming {
  import opened Common
  import opened Ascii
  import opened HttpHead
  import opened ProxyResponse

  // ---- Heads without a length ----

  /** A status line and header lines in any spelling, no blanks before their colons. */
  predicate Headed(line: Bytes, ss: seq<Spelling>) {
    && Plain(line) && !(CONTENT_LENGTH + [COLON] <= Lower(line)) && !(TRANSFER_ENCODING + [COLON] <= Lower(line))
    && forall s | s in ss :: WellSpelled(s) && TightName(s)
  }

  /** No Content-Length, or one that is no number. */
  predicate Lengthless(fs: seq<Field>) {
    match GetHeader(fs, CONTENT_LENGTH) case None => true case Some(v) => ParseUnsigned(v, U64) == None
  }

  const CHUNKED: Bytes := Text("chunked")

  /** A Transfer-Encoding whose value contains `chunked`. */
  ghost predicate SaysChunked(fs: seq<Field>) {
    match GetHeader(fs, TRANSFER_ENCODING) case None => false case Some(te) => exists q: nat :: At(CHUNKED, te, q)
  }

  lemma EncodingName()
    ensures COLON !in TRANSFER_ENCODING
  {
    forall i | 0 <= i < |TRANSFER_ENCODING| ensures TRANSFER_ENCODING[i] != COLON {
      assert TRANSFER_ENCODING[i] == "transfer-encoding"[i] as int % 256;
    }
  }

  lemma HeadedIs(line: Bytes, ss: seq<Spelling>)
    requires Headed(line, ss)
    ensures Plain(line) && !(CONTENT_LENGTH + [COLON] <= Lower(line)) && !(TRANSFER_ENCODING + [COLON] <= Lower(line))
    ensures forall s | s in ss :: WellSpelled(s) && TightName(s)
  {
  }

  lemma HeadLines(line: Bytes, ss: seq<Spelling>, body: Bytes) returns (lines: seq<Bytes>)
    requires Headed(line, ss)
    ensures lines != [] && lines[0] == line && (forall l | l in lines :: Plain(l))
    ensures Message(line, ss, body) == Joined(lines) + DOUBLE + body && ParseLines(lines[1..]) == FieldsOf(ss)
    ensures HeaderValue(lines, CONTENT_LENGTH) == GetHeader(FieldsOf(ss), CONTENT_LENGTH)
    ensures HeaderValue(lines, TRANSFER_ENCODING) == GetHeader(FieldsOf(ss), TRANSFER_ENCODING)
  {
    LengthName();
    EncodingName();
    hide *;
    HeadedIs(line, ss);
    lines := [line] + Texts(ss);
    assert lines[1..] == Texts(ss);
    assert forall l | l in lines :: l == line || l in Texts(ss);
    TextsReadBack(ss);
    HeadIsJoined(line, ss);
    MessageIs(line, ss, body);
    ValueInTexts(ss, CONTENT_LENGTH);
    ValueInTexts(ss, TRANSFER_ENCODING);
    LaterValue(line, Texts(ss), CONTENT_LENGTH);
    LaterValue(line, Texts(ss), TRANSFER_ENCODING);
  }

  function HeadLength(line: Bytes, ss: seq<Spelling>): nat { |line| + 2 + |SpelledLines(ss)| + 2 }

  lemma MessageParts(line: Bytes, ss: seq<Spelling>, body: Bytes)
    ensures |Message(line, ss, body)| == HeadLength(line, ss) + |body|
  {
  }

  /** What the completeness test sees of a part of a message without a length. */
  lemma LengthlessCompleteness(line: Bytes, ss: seq<Spelling>, body: Bytes, k: nat)
    requires Headed(line, ss) && Lengthless(FieldsOf(ss)) && k <= |Message(line, ss, body)|
    ensures IsComplete(Message(line, ss, body)[..k]) <==>
      && HeadLength(line, ss) <= k && SaysChunked(FieldsOf(ss))
      && exists q: nat :: At(LAST_CHUNK, Message(line, ss, body), q) && q + 5 <= k
  {
    var m := Message(line, ss, body);
    var lines := HeadLines(line, ss, body);
    MessageParts(line, ss, body);
    hide Joined, Lines, Utf8, Plain, Find, IsComplete, CompleteAfter, HeaderValue, Message, HeadLength, Headed;
    hide GetHeader, Lengthless, SaysChunked, ParseLines;
    assert |m| == |Joined(lines)| + 4 + |body|;
    CompleteIs(m[..k]);
    if k < HeadLength(line, ss) {
      PartOfHead(lines, body, k);
    } else {
      PartWithHead(lines, body, k);
      JoinedIsUtf8(lines);
      AfterHead(m[..k], |Joined(lines)|, lines, FieldsOf(ss));
      FindInPart(LAST_CHUNK, m, k);
    }
  }

  lemma AfterHead(part: Bytes, end: nat, lines: seq<Bytes>, fs: seq<Field>)
    requires HeaderValue(lines, CONTENT_LENGTH) == GetHeader(fs, CONTENT_LENGTH) && Lengthless(fs)
    requires HeaderValue(lines, TRANSFER_ENCODING) == GetHeader(fs, TRANSFER_ENCODING)
    ensures CompleteAfter(part, end, lines) <==> SaysChunked(fs) && Find(LAST_CHUNK, part).Some?
  {
    hide HeaderValue, GetHeader, Find, ParseUnsigned, At;
    match GetHeader(fs, TRANSFER_ENCODING) {
      case None =>
      case Some(te) => FoundSomewhere(CHUNKED, te);
    }
  }

  lemma FoundSomewhere(p: Bytes, s: Bytes)
    ensures Find(p, s).Some? <==> exists q: nat :: At(p, s, q)
  {
    hide At;
    if Find(p, s).Some? { assert At(p, s, Find(p, s).value); }
  }

  lemma FindInPart(p: Bytes, s: Bytes, k: nat)
    requires k <= |s|
    ensures Find(p, s[..k]).Some? <==> exists q: nat :: At(p, s, q) && q + |p| <= k
  {
    FoundSomewhere(p, s[..k]);
    forall q: nat ensures At(p, s[..k], q) <==> At(p, s, q) && q + |p| <= k { AtPrefix(p, s, k, q); }
    hide At, Find;
    if exists q: nat :: At(p, s[..k], q) {
      var q: nat :| At(p, s[..k], q);
      assert At(p, s, q);
    }
    if exists q: nat :: At(p, s, q) && q + |p| <= k {
      var q: nat :| At(p, s, q) && q + |p| <= k;
      assert At(p, s[..k], q);
    }
  }

  /** A response with neither a length nor chunks is never complete: only the end of the stream, or the
      limit of 64 MiB, ends it. */
  lemma UnframedNeverCompletes(line: Bytes, ss: seq<Spelling>, body: Bytes, k: nat)
    requires Headed(line, ss) && Lengthless(FieldsOf(ss)) && !SaysChunked(FieldsOf(ss))
    requires k <= |Message(line, ss, body)|
    ensures !IsComplete(Message(line, ss, body)[..k])
  {
    hide *;
    LengthlessCompleteness(line, ss, body, k);
  }

  // ---- Chunks ----

  function HexDigit(d: nat): Byte
    requires d < 16
  {
    if d < 10 then 48 + d else 87 + d
  }

  function Hex(n: nat): (r: Bytes)
    ensures r != []
  {
    if n < 16 then [HexDigit(n)] else Hex(n / 16) + [HexDigit(n % 16)]
  }

  function Chunk(data: Bytes): Bytes { Hex(|data|) + CRLF + data + CRLF }

  function Chunks(datas: seq<Bytes>): Bytes {
    if datas == [] then [] else Chunk(datas[0]) + Chunks(datas[1..])
  }

  /** A chunked body of RFC 9112, section 7.1: its chunks, the last chunk, and no trailers. */
  function ChunkedBody(datas: seq<Bytes>): Bytes { Chunks(datas) + LAST_CHUNK }

  ghost predicate ChunkedHead(line: Bytes, ss: seq<Spelling>) {
    Headed(line, ss) && Lengthless(FieldsOf(ss)) && SaysChunked(FieldsOf(ss))
  }

  /** The octets of the last chunk stand nowhere in a message but at its end. */
  ghost predicate MarkerOnlyLast(m: Bytes) { forall q: nat | At(LAST_CHUNK, m, q) :: q + 5 == |m| }

  lemma EndsInMarker(line: Bytes, ss: seq<Spelling>, datas: seq<Bytes>)
    ensures var m := Message(line, ss, ChunkedBody(datas));
      |m| >= HeadLength(line, ss) + 5 && At(LAST_CHUNK, m, |m| - 5)
  {
    hide SpelledLines, Chunks;
    var front := line + CRLF + SpelledLines(ss) + CRLF;
    var m := Message(line, ss, ChunkedBody(datas));
    Assoc(front, Chunks(datas), LAST_CHUNK);
    CutAppend(front + Chunks(datas), LAST_CHUNK);
    assert m[|m| - 5..|m|] == LAST_CHUNK;
  }

  lemma ChunkedPart(line: Bytes, ss: seq<Spelling>, body: Bytes, k: nat)
    requires ChunkedHead(line, ss) && k <= |Message(line, ss, body)|
    ensures IsComplete(Message(line, ss, body)[..k]) <==>
      HeadLength(line, ss) <= k && exists q: nat :: At(LAST_CHUNK, Message(line, ss, body), q) && q + 5 <= k
  {
    hide Headed, Lengthless, SaysChunked, IsComplete, Message, At, HeadLength;
    LengthlessCompleteness(line, ss, body, k);
  }

  lemma TooEarly(line: Bytes, ss: seq<Spelling>, body: Bytes, q: nat)
    requires ChunkedHead(line, ss) && At(LAST_CHUNK, Message(line, ss, body), q)
    requires q + 5 != |Message(line, ss, body)| && HeadLength(line, ss) < |Message(line, ss, body)|
    ensures exists k: nat :: k < |Message(line, ss, body)| && IsComplete(Message(line, ss, body)[..k])
  {
    var m := Message(line, ss, body);
    assert q + 5 <= |m|;
    var k := if q + 5 < HeadLength(line, ss) then HeadLength(line, ss) else q + 5;
    hide IsComplete, Message, At, HeadLength, ChunkedHead;
    ChunkedPart(line, ss, body, k);
    assert IsComplete(m[..k]);
  }

  /** A chunked response is taken for complete exactly when its last octet has arrived, if and only if the
      octets of the last chunk stand nowhere before: not in the data, not where a chunk's size and its data
      meet, and not where the head ends. */
  lemma ChunkedCompleteness(line: Bytes, ss: seq<Spelling>, datas: seq<Bytes>)
    requires ChunkedHead(line, ss)
    ensures var m := Message(line, ss, ChunkedBody(datas));
      (forall k: nat | k <= |m| :: IsComplete(m[..k]) <==> k == |m|) <==> MarkerOnlyLast(m)
  {
    var m := Message(line, ss, ChunkedBody(datas));
    EndsInMarker(line, ss, datas);
    hide IsComplete, Message, At, ChunkedBody, HeadLength, ChunkedHead;
    if MarkerOnlyLast(m) {
      forall k: nat | k <= |m| ensures IsComplete(m[..k]) <==> k == |m| {
        ChunkedPart(line, ss, ChunkedBody(datas), k);
      }
    } else {
      var q: nat :| At(LAST_CHUNK, m, q) && q + 5 != |m|;
      TooEarly(line, ss, ChunkedBody(datas), q);
    }
  }

  /** It is cut short, for one, by a head whose last field ends in a zero: such a response is taken for
      complete without any of its body. */
  lemma ZeroEndsTheHead(line: Bytes, ss: seq<Spelling>, last: Spelling, digits: Bytes, body: Bytes)
    requires ChunkedHead(line, ss + [last]) && Spelled(last) == digits + [48]
    ensures var m := Message(line, ss + [last], body);
      IsComplete(m[..HeadLength(line, ss + [last])])
  {
    var all := ss + [last];
    var m, n := Message(line, all, body), HeadLength(line, all);
    SpelledAppend(ss, last);
    MessageParts(line, all, body);
    hide Spelled, SpelledLines, ChunkedHead, IsComplete;
    var front := line + CRLF + SpelledLines(ss) + digits;
    assert m == front + LAST_CHUNK + body by {
      Assoc(line + CRLF, SpelledLines(ss), Spelled(last) + CRLF);
      assert m == line + CRLF + (SpelledLines(ss) + (digits + [48] + CRLF)) + CRLF + body;
      assert m == front + ([48] + CRLF + CRLF) + body;
    }
    assert m[|front|..|front| + 5] == LAST_CHUNK;
    assert At(LAST_CHUNK, m, |front|) && |front| + 5 == n;
    hide At, Message, HeadLength;
    ChunkedPart(line, all, body, n);
  }

  lemma {:induction false} SpelledAppend(ss: seq<Spelling>, last: Spelling)
    ensures SpelledLines(ss + [last]) == SpelledLines(ss) + (Spelled(last) + CRLF)
  {
    hide Spelled;
    if ss == [] {
      assert [] + [last] == [last] && [last][1..] == [];
    } else {
      assert (ss + [last])[1..] == ss[1..] + [last];
      SpelledAppend(ss[1..], last);
      Assoc(Spelled(ss[0]) + CRLF, SpelledLines(ss[1..]), Spelled(last) + CRLF);
    }
  }

  lemma Regroup<T>(a: seq<T>, b: seq<T>, c: seq<T>, d: seq<T>, e: seq<T>)
    ensures a + b + c + (c + d) + e == a + (b + c + c) + (d + e)
  {
    Assoc(a + b + c, c, d);
    Assoc(a + b, c, c);
    Assoc(a, b, c + c);
    Assoc(b, c, c);
    Assoc(a + b + c + c, d, e);
  }

  lemma Embed<T>(before: seq<T>, size: seq<T>, marker: seq<T>, tail: seq<T>, after: seq<T>)
    ensures before + (size + marker + tail) + after == before + size + marker + (tail + after)
  {
    Assoc(before, size + marker, tail);
    Assoc(before, size, marker);
    Assoc(before + size + marker, tail, after);
  }

  /** And by a chunk whose size ends in a zero and whose data starts with a line end. */
  lemma LineEndStartsAChunk(size: Bytes, before: Bytes, data: Bytes, after: Bytes)
    requires Hex(|data|) == size + [48] && CRLF <= data
    ensures At(LAST_CHUNK, before + Chunk(data) + after, |before| + |size|)
  {
    hide Hex, At;
    var rest := data[2..];
    assert data == CRLF + rest && [48] + CRLF + CRLF == LAST_CHUNK;
    hide LAST_CHUNK;
    Regroup(size, [48], CRLF, rest, CRLF);
    Embed(before, size, LAST_CHUNK, rest + CRLF, after);
    MarkerBehind(before + size, rest + CRLF + after);
  }

  lemma MarkerBehind(before: Bytes, after: Bytes)
    ensures At(LAST_CHUNK, before + LAST_CHUNK + after, |before|)
  {
  }

  lemma {:induction false} ChunksAreLonger(datas: seq<Bytes>)
    ensures |Chunks(datas)| >= |Concat(datas)|
  {
    if datas != [] { ChunksAreLonger(datas[1..]); }
  }

  /** The chunks are not taken apart: the client is sent the chunked body as it is, never the data, and
      not the header that says so. */
  lemma ChunksAreForwarded(line: Bytes, ss: seq<Spelling>, datas: seq<Bytes>)
    requires ChunkedHead(line, ss)
    ensures ParseResponse(Message(line, ss, ChunkedBody(datas)))
      == Some(Response(StatusOf(line), Forwarded(FieldsOf(ss), DROPPED), ChunkedBody(datas)))
    ensures ChunkedBody(datas) != Concat(datas)
    ensures !HasField(Forwarded(FieldsOf(ss), DROPPED), TRANSFER_ENCODING)
  {
    ChunksAreLonger(datas);
    assert Headed(line, ss);
    assert TRANSFER_ENCODING in DROPPED by { assert DROPPED[2] == TRANSFER_ENCODING; }
    hide Headed, ChunkedBody, ParseResponse, StatusOf, Message, TRANSFER_ENCODING, DROPPED;
    var lines := HeadLines(line, ss, ChunkedBody(datas));
    LinesParse(lines, ChunkedBody(datas));
  }

  predicate HasField(fs: seq<Field>, name: Bytes) { exists f :: f in fs && Lower(f.name) == name }

  // ---- Status lines ----

  predicate Unbroken(w: Bytes) { w != [] && forall i | 0 <= i < |w| :: w[i] !in {9, 10, 11, 12, 13, 32} }

  lemma {:induction false} WholeWord(w: Bytes)
    requires forall i | 0 <= i < |w| :: w[i] !in SPACE
    ensures WordLength(w) == |w|
  {
    if w != [] { WholeWord(w[1..]); }
  }

  /** The status is the number that is the second word, and 502 if that is none below 65536 or if there is no
      second word. */
  lemma StatusIsTheSecondWord(version: Bytes, word: Bytes, reason: Bytes)
    requires Unbroken(version) && Unbroken(word)
    ensures StatusOf(version + [SP] + (word + ([SP] + reason)))
         == match ParseUnsigned(word, U16) case None => 502 case Some(n) => n
    ensures StatusOf(version) == 502
  {
    hide ParseUnsigned;
    SecondWord(version, word, reason);
    WholeWord(version);
    hide WordLength;
    assert version[|version|..] == [] && Word([], 0) == None;
    assert Word(version, 1) == Word(version[|version|..], 0);
  }

  // ---- The read loop ----

  /** Where the read loop stops: behind everything, before the end of the stream, or behind a read that
      completes the response or passes the limit of 64 MiB. */
  predicate StopsAt(arrivals: seq<Bytes>, n: nat)
    requires n <= |arrivals|
  {
    || n == |arrivals| || arrivals[n] == []
    || (n > 0 && (IsComplete(Concat(arrivals[..n])) || |Concat(arrivals[..n])| > 64 * 1024 * 1024))
  }

  lemma {:induction false} ConcatSnoc(chunks: seq<Bytes>, last: Bytes)
    ensures Concat(chunks + [last]) == Concat(chunks) + last
  {
    if chunks == [] {
      assert [] + [last] == [last] && [last][1..] == [];
    } else {
      assert (chunks + [last])[1..] == chunks[1..] + [last];
      ConcatSnoc(chunks[1..], last);
      Assoc(chunks[0], Concat(chunks[1..]), last);
    }
  }

  lemma {:induction false} StopsFrom(arrivals: seq<Bytes>, n: nat, stop: nat)
    requires n <= stop <= |arrivals| && StopsAt(arrivals, stop) && forall i | n <= i < stop :: !StopsAt(arrivals, i)
    requires n == stop ==> n == |arrivals| || arrivals[n] == []
    ensures Buffered(Concat(arrivals[..n]), arrivals[n..]) == Concat(arrivals[..stop])
    decreases stop - n
  {
    hide IsComplete;
    if n < stop {
      assert !StopsAt(arrivals, n);
      assert arrivals[..n + 1] == arrivals[..n] + [arrivals[n]];
      ConcatSnoc(arrivals[..n], arrivals[n]);
      assert arrivals[n..][0] == arrivals[n] && arrivals[n..][1..] == arrivals[n + 1..];
      var longer := Concat(arrivals[..n + 1]);
      if IsComplete(longer) || |longer| > CAP {
        assert StopsAt(arrivals, n + 1);
      } else {
        StopsFrom(arrivals, n + 1, stop);
      }
    }
  }

  /** The loop stops at the first such place, and has then buffered all it has read. */
  lemma LoopStopsFirst(arrivals: seq<Bytes>, stop: nat)
    requires stop <= |arrivals| && StopsAt(arrivals, stop) && forall i | 0 <= i < stop :: !StopsAt(arrivals, i)
    ensures Buffered([], arrivals) == Concat(arrivals[..stop])
  {
    hide IsComplete;
    assert arrivals[..0] == [] && arrivals[0..] == arrivals;
    StopsFrom(arrivals, 0, stop);
  }
}

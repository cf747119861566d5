/** The response side of the reverse proxy: the writer `format_response`, the completeness test and
    read loop, and the parser of what was read. */
module ProxyResponse {
  import opened Common
  import opened Ascii
  import opened HttpHead

  const DOUBLE: Bytes := [13, 10, 13, 10]
  const LAST_CHUNK: Bytes := [48, 13, 10, 13, 10]
  const SPACE: set<Byte> := {9, 10, 11, 12, 13, 32}
  const CAP: nat := 64 * 1024 * 1024
  const DROPPED: seq<Bytes> := [
    Text("connection"), Text("keep-alive"), Text("transfer-encoding"), Text("te"), Text("upgrade")
  ]
  const TRANSFER_ENCODING: Bytes := Text("transfer-encoding")

  // ---- Searching ----

  predicate At(p: Bytes, s: Bytes, i: nat) { i + |p| <= |s| && s[i..i + |p|] == p }

  lemma SliceShifts(s: Bytes, a: nat, b: nat)
    requires 1 <= a <= b <= |s|
    ensures s[1..][a - 1..b - 1] == s[a..b]
  {
  }

  lemma AtShifts(p: Bytes, s: Bytes)
    requires s != []
    ensures forall q: nat | 0 < q :: At(p, s, q) <==> At(p, s[1..], q - 1)
  {
    forall q: nat | 0 < q ensures At(p, s, q) <==> At(p, s[1..], q - 1) {
      if q + |p| <= |s| { SliceShifts(s, q, q + |p|); }
    }
  }

  function Find(p: Bytes, s: Bytes): (r: Option<nat>)
    ensures r.Some? ==> At(p, s, r.value) && forall q: nat | q < r.value :: !At(p, s, q)
    ensures r.None? ==> forall q: nat :: !At(p, s, q)
    decreases |s|
  {
    if At(p, s, 0) then Some(0)
    else if s == [] then None
    else
      AtShifts(p, s);
      match Find(p, s[1..]) case None => None case Some(i) => Some(i + 1)
  }

  lemma FindIs(p: Bytes, s: Bytes, i: nat)
    requires At(p, s, i) && forall q: nat | q < i :: !At(p, s, q)
    ensures Find(p, s) == Some(i)
  {
    hide At;
  }

  /** An occurrence found stays the first one when more octets arrive. */
  lemma FindStable(p: Bytes, s: Bytes, more: Bytes)
    requires Find(p, s).Some?
    ensures Find(p, s + more) == Find(p, s)
  {
    var i := Find(p, s).value;
    forall q: nat | q <= i ensures At(p, s + more, q) <==> At(p, s, q) {
      assert (s + more)[q..q + |p|] == s[q..q + |p|];
    }
    FindIs(p, s + more, i);
  }

  // ---- Text ----

  function Lines(s: Bytes): seq<Bytes>
    decreases |s|
  {
    if s == [] then []
    else
      match IndexOf(LF, s)
      case None => [s]
      case Some(i) => [if i > 0 && s[i - 1] == CR then s[..i - 1] else s[..i]] + Lines(s[i + 1..])
  }

  /** UTF-8 as `str::from_utf8` accepts it. */
  predicate Utf8(s: Bytes) {
    s == [] ||
    (s[0] < 0x80 && Utf8(s[1..])) ||
    (|s| >= 2 && 0xC2 <= s[0] <= 0xDF && Cont(s[1]) && Utf8(s[2..])) ||
    (|s| >= 3 && 0xE0 <= s[0] <= 0xEF && Cont(s[1]) && Cont(s[2])
      && (s[0] == 0xE0 ==> s[1] >= 0xA0) && (s[0] == 0xED ==> s[1] < 0xA0) && Utf8(s[3..])) ||
    (|s| >= 4 && 0xF0 <= s[0] <= 0xF4 && Cont(s[1]) && Cont(s[2]) && Cont(s[3])
      && (s[0] == 0xF0 ==> s[1] >= 0x90) && (s[0] == 0xF4 ==> s[1] < 0x90) && Utf8(s[4..]))
  }

  predicate Cont(b: Byte) { 0x80 <= b < 0xC0 }

  predicate IsAscii(s: Bytes) { forall i | 0 <= i < |s| :: s[i] < 0x80 }

  lemma {:induction false} AsciiIsUtf8(s: Bytes)
    requires IsAscii(s)
    ensures Utf8(s)
  {
    if s != [] {
      AsciiIsUtf8(s[1..]);
    }
  }

  /** Word `n` of `split_whitespace`. */
  function Word(s: Bytes, n: nat): Option<Bytes>
    decreases |s|
  {
    if s == [] then None
    else if s[0] in SPACE then Word(s[1..], n)
    else
      var len := WordLength(s);
      if n == 0 then Some(s[..len]) else Word(s[len..], n - 1)
  }

  function WordLength(s: Bytes): (n: nat)
    ensures n <= |s| && (s != [] && s[0] !in SPACE ==> n > 0)
  {
    if s == [] || s[0] in SPACE then 0 else 1 + WordLength(s[1..])
  }

  // ---- Completeness and parsing ----

  /** The trimmed rest of the first line that starts with `name:` in any case. */
  function HeaderValue(lines: seq<Bytes>, name: Bytes): Option<Bytes> {
    if lines == [] then None
    else if name + [COLON] <= Lower(lines[0]) then Some(Trim(lines[0][|name| + 1..], SPACE))
    else HeaderValue(lines[1..], name)
  }

  predicate IsComplete(buf: Bytes) {
    match Find(DOUBLE, buf)
    case None => false
    case Some(end) =>
      var section := if Utf8(buf[..end]) then buf[..end] else [];
      CompleteAfter(buf, end, Lines(section))
  }

  /** The sum of positions wraps at 64 bits. */
  predicate CompleteAfter(buf: Bytes, end: nat, lines: seq<Bytes>) {
    match AnnouncedLength(lines)
    case Some(n) => |buf| >= (end + 4 + n) % U64
    case None =>
      match HeaderValue(lines, TRANSFER_ENCODING)
      case Some(te) => Find(Text("chunked"), te).Some? && Find(LAST_CHUNK, buf).Some?
      case None => false
  }

  function AnnouncedLength(lines: seq<Bytes>): Option<nat> {
    match HeaderValue(lines, CONTENT_LENGTH)
    case None => None
    case Some(v) => ParseUnsigned(v, U64)
  }

  datatype Response = Response(status: nat, fields: seq<Field>, body: Bytes)

  function ParseLines(lines: seq<Bytes>): seq<Field> {
    if lines == [] then []
    else
      (match IndexOf(COLON, lines[0])
       case None => []
       case Some(c) => [Field(Trim(lines[0][..c], SPACE), Trim(lines[0][c + 1..], SPACE))])
      + ParseLines(lines[1..])
  }

  function StatusOf(line: Bytes): nat {
    match Word(line, 1)
    case None => 502
    case Some(w) => match ParseUnsigned(w, U16) case None => 502 case Some(n) => n
  }

  /** `None` for a response without a header end, with headers that are not text, or empty. */
  function ParseResponse(buf: Bytes): Option<Response> {
    match Find(DOUBLE, buf)
    case None => None
    case Some(end) =>
      if !Utf8(buf[..end]) then None
      else
        var lines := Lines(buf[..end]);
        if lines == [] then None
        else Some(Response(StatusOf(lines[0]), Forwarded(ParseLines(lines[1..]), DROPPED), buf[end + 4..]))
  }

  /** The read loop: what has been buffered when it stops. An empty read is the end of the stream. */
  function Buffered(buf: Bytes, arrivals: seq<Bytes>): Bytes
    decreases |arrivals|
  {
    if arrivals == [] || arrivals[0] == [] then buf
    else
      var longer := buf + arrivals[0];
      if IsComplete(longer) || |longer| > CAP then longer else Buffered(longer, arrivals[1..])
  }

  method ReadResponse(arrivals: seq<Bytes>) returns (buf: Bytes)
    ensures buf == Buffered([], arrivals)
  {
    hide IsComplete;
    buf := [];
    assert arrivals[0..] == arrivals;
    for i := 0 to |arrivals|
      invariant Buffered([], arrivals) == Buffered(buf, arrivals[i..])
    {
      assert arrivals[i..][0] == arrivals[i] && arrivals[i..][1..] == arrivals[i + 1..];
      if arrivals[i] == [] { break; }
      buf := buf + arrivals[i];
      if IsComplete(buf) { break; }
      if |buf| > CAP { break; }
    }
  }

  method ParseHeaderLines(lines: seq<Bytes>) returns (fields: seq<Field>)
    ensures fields == Forwarded(ParseLines(lines), DROPPED)
  {
    hide Trim, IndexOf;
    fields := [];
    assert lines[0..] == lines && [] + Forwarded(ParseLines(lines), DROPPED) == Forwarded(ParseLines(lines), DROPPED);
    for i := 0 to |lines|
      invariant fields + Forwarded(ParseLines(lines[i..]), DROPPED) == Forwarded(ParseLines(lines), DROPPED)
    {
      ghost var rest := ParseLines(lines[i + 1..]);
      assert lines[i..][0] == lines[i] && lines[i..][1..] == lines[i + 1..];
      assert [] + rest == rest && [] + Forwarded(rest, DROPPED) == Forwarded(rest, DROPPED);
      match IndexOf(COLON, lines[i]) {
        case None =>
        case Some(c) =>
          var f := Field(Trim(lines[i][..c], SPACE), Trim(lines[i][c + 1..], SPACE));
          assert ([f] + rest)[0] == f && ([f] + rest)[1..] == rest;
          if !NameIn(f.name, DROPPED) {
            Assoc(fields, [f], Forwarded(rest, DROPPED));
            fields := fields + [f];
          }
      }
    }
    assert lines[|lines|..] == [] && fields + [] == fields;
  }

  /** More octets never make a complete response incomplete. */
  lemma CompleteIsMonotone(buf: Bytes, more: Bytes)
    requires IsComplete(buf)
    ensures IsComplete(buf + more)
  {
    hide Utf8, Lines, HeaderValue, At;
    var end := Find(DOUBLE, buf).value;
    FindStable(DOUBLE, buf, more);
    assert At(DOUBLE, buf, end) && end <= |buf| by { assert At(DOUBLE, buf, end); EndInside(DOUBLE, buf, end); }
    assert (buf + more)[..end] == buf[..end];
    if Find(LAST_CHUNK, buf).Some? { FindStable(LAST_CHUNK, buf, more); }
  }

  lemma AtPrefix(p: Bytes, s: Bytes, k: nat, q: nat)
    requires k <= |s|
    ensures At(p, s[..k], q) <==> At(p, s, q) && q + |p| <= k
  {
    if q + |p| <= k { assert s[..k][q..q + |p|] == s[q..q + |p|]; }
  }

  lemma EndInside(p: Bytes, s: Bytes, i: nat)
    requires At(p, s, i)
    ensures i + |p| <= |s|
  {
  }

  // ---- What the server writes ----

  const SERVER: Bytes := Text("Server")
  const CLOSE: Bytes := Text("close")

  ghost predicate Printable(s: string) { forall i | 0 <= i < |s| :: ' ' <= s[i] <= '~' }

  function Reason23(code: nat): (s: string)
    ensures Printable(s)
  {
    match code
    case 200 => "OK" case 206 => "Partial Content" case 301 => "Moved Permanently"
    case 302 => "Found" case 304 => "Not Modified"
    case _ => "Unknown"
  }

  function Reason34(code: nat): (s: string)
    ensures Printable(s)
  {
    match code
    case 307 => "Temporary Redirect" case 308 => "Permanent Redirect"
    case 400 => "Bad Request" case 401 => "Unauthorized"
    case _ => "Unknown"
  }

  function Reason4(code: nat): (s: string)
    ensures Printable(s)
  {
    match code
    case 403 => "Forbidden" case 404 => "Not Found" case 405 => "Method Not Allowed"
    case 408 => "Request Timeout"
    case _ => "Unknown"
  }

  function Reason45(code: nat): (s: string)
    ensures Printable(s)
  {
    match code
    case 413 => "Content Too Large" case 429 => "Too Many Requests" case 500 => "Internal Server Error"
    case _ => "Unknown"
  }

  function Reason5(code: nat): (s: string)
    ensures Printable(s)
  {
    match code
    case 501 => "Not Implemented" case 502 => "Bad Gateway" case 503 => "Service Unavailable"
    case _ => "Unknown"
  }

  /** `status_reason`; its table is in five parts. */
  function StatusReason(code: nat): (s: string)
    ensures Printable(s)
  {
    if code < 307 then Reason23(code)
    else if code < 403 then Reason34(code)
    else if code < 413 then Reason4(code)
    else if code < 501 then Reason45(code)
    else Reason5(code)
  }

  function StatusLine(status: nat): Bytes { VERSION + [SP] + (Decimal(status) + ([SP] + Text(StatusReason(status)))) }

  /** The fields written: the server's own name, the caller's, and the connection option. */
  function ResponseFields(server: Bytes, headers: seq<Field>, keepAlive: bool): seq<Field> {
    [Field(SERVER, server)] + headers + [Field(CONNECTION, if keepAlive then KEEP_ALIVE else CLOSE)]
  }

  function ResponseBytes(server: Bytes, status: nat, headers: seq<Field>, keepAlive: bool, body: Bytes): Bytes {
    StatusLine(status) + CRLF + Render(ResponseFields(server, headers, keepAlive)) + CRLF + body
  }

  method FormatResponse(server: Bytes, status: nat, headers: seq<Field>, keepAlive: bool, body: Bytes)
    returns (bytes: Bytes)
    ensures bytes == ResponseBytes(server, status, headers, keepAlive, body)
  {
    var first, last := Field(SERVER, server), Field(CONNECTION, if keepAlive then KEEP_ALIVE else CLOSE);
    assert Render([first]) == FieldText(first) + CRLF + Render([first][1..]);
    assert Render([first]) == FieldText(first) + CRLF;
    hide FieldText, Render, StatusLine;
    var start := StatusLine(status) + CRLF;
    bytes := start + (FieldText(first) + CRLF);
    assert headers[..0] == [] && [first] + [] == [first];
    for i := 0 to |headers|
      invariant bytes == start + Render([first] + headers[..i])
    {
      bytes := bytes + (FieldText(headers[i]) + CRLF);
      PushField(start, [first] + headers[..i], headers[i]);
      Assoc([first], headers[..i], [headers[i]]);
      assert headers[..i] + [headers[i]] == headers[..i + 1];
    }
    assert headers[..|headers|] == headers;
    bytes := bytes + (FieldText(last) + CRLF);
    PushField(start, [first] + headers, last);
    bytes := bytes + CRLF;
    bytes := bytes + body;
  }

  // ---- The head as lines ----

  predicate Plain(line: Bytes) {
    line != [] && forall i | 0 <= i < |line| :: line[i] != CR && line[i] != LF && line[i] < 0x80
  }

  function Joined(lines: seq<Bytes>): Bytes
    requires lines != []
  {
    if |lines| == 1 then lines[0] else lines[0] + CRLF + Joined(lines[1..])
  }

  function Texts(ss: seq<Spelling>): seq<Bytes> {
    if ss == [] then [] else [Spelled(ss[0])] + Texts(ss[1..])
  }

  lemma {:induction false} HeadIsJoined(line: Bytes, ss: seq<Spelling>)
    ensures line + CRLF + SpelledLines(ss) + CRLF == Joined([line] + Texts(ss)) + DOUBLE
    decreases |ss|
  {
    hide Spelled;
    if ss == [] {
      assert [line] + Texts([]) == [line];
      assert CRLF + CRLF == DOUBLE;
      Assoc(line, CRLF, CRLF);
      assert line + CRLF + [] == line + CRLF;
    } else {
      var f, rest := Spelled(ss[0]), Texts(ss[1..]);
      HeadIsJoined(f, ss[1..]);
      assert ([line] + Texts(ss))[1..] == [f] + rest;
      var tail := f + CRLF + SpelledLines(ss[1..]) + CRLF;
      Assoc(line + CRLF, f + CRLF + SpelledLines(ss[1..]), CRLF);
      Assoc(line + CRLF, Joined([f] + rest), DOUBLE);
    }
  }

  /** The header end is found where the joined lines stop. */
  lemma {:induction false} HeadEnds(lines: seq<Bytes>, rest: Bytes)
    requires lines != [] && forall l | l in lines :: Plain(l)
    ensures Find(DOUBLE, Joined(lines) + DOUBLE + rest) == Some(|Joined(lines)|)
    decreases |lines|
  {
    hide Find;
    var x, s := lines[0], Joined(lines) + DOUBLE + rest;
    assert Plain(x);
    if |lines| == 1 {
      assert s[|x|..|x| + 4] == DOUBLE;
      forall q: nat | q < |x| ensures !At(DOUBLE, s, q) { assert s[q] == x[q]; }
      FindIs(DOUBLE, s, |x|);
    } else {
      var tail := Joined(lines[1..]) + DOUBLE + rest;
      var n := |Joined(lines[1..])|;
      HeadEnds(lines[1..], rest);
      assert Plain(lines[1]) && tail[0] == lines[1][0];
      assert s == x + CRLF + tail;
      hide Joined, Plain;
      forall q: nat | q < |x| + 2 ensures !At(DOUBLE, s, q) { NotInLine(x, lines[1], tail, s, q); }
      FoundAfter(DOUBLE, x + CRLF, tail, n);
    }
  }

  lemma AtBehind(p: Bytes, a: Bytes, b: Bytes, q: nat)
    requires q >= |a|
    ensures At(p, a + b, q) <==> At(p, b, q - |a|)
  {
    if q + |p| <= |a + b| { assert (a + b)[q..q + |p|] == b[q - |a|..q - |a| + |p|]; }
  }

  lemma FoundAfter(p: Bytes, a: Bytes, tail: Bytes, n: nat)
    requires Find(p, tail) == Some(n)
    requires forall q: nat | q < |a| :: !At(p, a + tail, q)
    ensures Find(p, a + tail) == Some(|a| + n)
  {
    hide *;
    var s := a + tail;
    FoundAt(p, tail, n);
    AtBehind(p, a, tail, |a| + n);
    forall q: nat | q < |a| + n ensures !At(p, s, q) {
      if q < |a| {
        assert !At(p, a + tail, q);
      } else {
        AtBehind(p, a, tail, q);
        assert !At(p, tail, q - |a|);
      }
    }
    FindIs(p, s, |a| + n);
  }

  lemma FoundAt(p: Bytes, s: Bytes, n: nat)
    requires Find(p, s) == Some(n)
    ensures At(p, s, n) && forall q: nat | q < n :: !At(p, s, q)
  {
    hide At;
  }

  lemma NotInLine(x: Bytes, y: Bytes, tail: Bytes, s: Bytes, q: nat)
    requires Plain(x) && Plain(y) && s == x + CRLF + tail && |tail| >= 1 && tail[0] == y[0] && q < |x| + 2
    ensures !At(DOUBLE, s, q)
  {
    hide Find;
    if q < |x| { assert s[q] == x[q]; }
    else if q == |x| { assert s[q + 2] == y[0]; }
    else { assert s[q] == LF; }
  }

  lemma NoLineEnd(x: Bytes)
    requires Plain(x)
    ensures LF !in x
  {
  }

  lemma OnlyLine(x: Bytes)
    requires Plain(x)
    ensures Lines(x) == [x]
  {
    hide IndexOf;
    assert IndexOf(LF, x) == None;
  }

  lemma LinesStep(s: Bytes, i: nat)
    requires s != [] && IndexOf(LF, s) == Some(i) && i > 0 && i < |s| && s[i - 1] == CR
    ensures Lines(s) == [s[..i - 1]] + Lines(s[i + 1..])
  {
    hide IndexOf;
  }

  lemma FirstLineEnds(x: Bytes, rest: Bytes)
    requires Plain(x)
    ensures Lines(x) == [x]
    ensures Lines(x + CRLF + rest) == [x] + Lines(rest)
  {
    hide IndexOf, Lines, Plain;
    OnlyLine(x);
    var a := x + [CR];
    var s := a + [LF] + rest;
    assert LF !in a by { NoLineEnd(x); }
    assert x + CRLF + rest == s;
    FirstOf(LF, a, rest);
    CutAppend(x, [CR, LF] + rest);
    CutAppend(a + [LF], rest);
    assert s == x + ([CR, LF] + rest) && s[|a| - 1] == CR;
    LinesStep(s, |a|);
  }

  /** Splitting into lines undoes the joining. */
  lemma {:induction false} LinesOfJoined(lines: seq<Bytes>)
    requires lines != [] && forall l | l in lines :: Plain(l)
    ensures Lines(Joined(lines)) == lines
    decreases |lines|
  {
    hide Lines, Plain;
    if |lines| == 1 {
      FirstLineEnds(lines[0], []);
    } else {
      FirstLineEnds(lines[0], Joined(lines[1..]));
      LinesOfJoined(lines[1..]);
    }
  }

  lemma {:induction false} JoinedIsAscii(lines: seq<Bytes>)
    requires lines != [] && forall l | l in lines :: Plain(l)
    ensures IsAscii(Joined(lines))
    decreases |lines|
  {
    assert Plain(lines[0]);
    if |lines| > 1 { JoinedIsAscii(lines[1..]); }
  }

  // ---- Fields and status read back ----

  /** A header a response can carry: ASCII without CR or LF, no colon in the name, trimmed parts. */
  predicate WellFormed(f: Field) {
    && (forall i | 0 <= i < |f.name| :: f.name[i] != CR && f.name[i] != LF && f.name[i] < 0x80)
    && (forall i | 0 <= i < |f.value| :: f.value[i] != CR && f.value[i] != LF && f.value[i] < 0x80)
    && COLON !in f.name && Trimmed(f.name, SPACE) && Trimmed(f.value, SPACE)
  }

  /** A spelling of such a header: blanks anywhere around its name and its value. */
  predicate WellSpelled(s: Spelling) { WellFormed(s.field) && BlankPads(s) }

  /** RFC 9112, section 5: no blanks before the colon. */
  predicate TightName(s: Spelling) { s.lead == [] && s.trail == [] }

  predicate PlainPart(s: Bytes) { forall i | 0 <= i < |s| :: s[i] != CR && s[i] != LF && s[i] < 0x80 }

  lemma PaddedIsPlain(left: Bytes, s: Bytes, right: Bytes)
    requires Blanks(left) && PlainPart(s) && Blanks(right)
    ensures PlainPart(left + s + right)
  {
  }

  lemma SpelledIsPlain(s: Spelling)
    requires WellSpelled(s)
    ensures Plain(Spelled(s))
  {
    PaddedIsPlain(s.lead, s.field.name, s.trail);
    PaddedIsPlain(s.left, s.field.value, s.right);
    hide NamePart, ValuePart, Trimmed;
    assert PlainPart([COLON]);
  }

  lemma SpelledPartsReadBack(s: Spelling)
    requires WellSpelled(s)
    ensures IndexOf(COLON, Spelled(s)) == Some(|NamePart(s)|)
    ensures Spelled(s)[..|NamePart(s)|] == NamePart(s) && Spelled(s)[|NamePart(s)| + 1..] == ValuePart(s)
    ensures Trim(NamePart(s), SPACE) == s.field.name && Trim(ValuePart(s), SPACE) == s.field.value
  {
    TrimPadding(s.lead, s.field.name, s.trail, SPACE);
    TrimPadding(s.left, s.field.value, s.right, SPACE);
    assert COLON !in NamePart(s);
    hide Trim, NamePart, ValuePart;
    FirstOf(COLON, NamePart(s), ValuePart(s));
    CutAppend(NamePart(s) + [COLON], ValuePart(s));
    CutAppend(NamePart(s), [COLON] + ValuePart(s));
    Assoc(NamePart(s), [COLON], ValuePart(s));
  }

  /** Header lines in any spelling give their fields, in order and without the blanks. */
  lemma {:induction false} TextsReadBack(ss: seq<Spelling>)
    requires forall s | s in ss :: WellSpelled(s)
    ensures ParseLines(Texts(ss)) == FieldsOf(ss) && forall l | l in Texts(ss) :: Plain(l)
  {
    hide Spelled, WellSpelled, Plain, ParseLines;
    if ss == [] {
      NoLines();
    } else {
      LineReadsBack(ss[0], Texts(ss[1..]));
      SpelledIsPlain(ss[0]);
      TextsReadBack(ss[1..]);
      assert FieldsOf(ss) == [ss[0].field] + FieldsOf(ss[1..]);
    }
  }

  lemma NoLines()
    ensures ParseLines([]) == []
  {
  }

  lemma LineReadsBack(s: Spelling, lines: seq<Bytes>)
    requires WellSpelled(s)
    ensures ParseLines([Spelled(s)] + lines) == [s.field] + ParseLines(lines)
  {
    SpelledPartsReadBack(s);
    hide Spelled, WellSpelled, NamePart, ValuePart, Trim, IndexOf;
    assert ([Spelled(s)] + lines)[1..] == lines;
  }

  lemma NamePrefix(s: Spelling, name: Bytes)
    requires TightName(s) && COLON !in s.field.name && COLON !in name
    ensures name + [COLON] <= Lower(Spelled(s)) <==> Lower(s.field.name) == name
  {
    var low, after := Lower(s.field.name), Lower(ValuePart(s));
    assert forall i | 0 <= i < |low| :: low[i] == LowerByte(s.field.name[i]);
    LowerSpelled(s);
    ColonEndsName(low, after, name);
  }

  lemma LowerSpelled(s: Spelling)
    requires TightName(s)
    ensures Lower(Spelled(s)) == Lower(s.field.name) + [COLON] + Lower(ValuePart(s))
  {
    assert NamePart(s) == s.field.name;
    hide Lower, NamePart, ValuePart;
    LowerAppend(NamePart(s) + [COLON], ValuePart(s));
    LowerAppend(NamePart(s), [COLON]);
    assert Lower([COLON]) == [COLON] by { LowerColon(); }
  }

  lemma LowerAppend(a: Bytes, b: Bytes)
    ensures Lower(a + b) == Lower(a) + Lower(b)
  {
  }

  lemma LowerColon()
    ensures Lower([COLON]) == [COLON]
  {
  }

  /** Up to its first colon a line is a name, and only that one. */
  lemma ColonEndsName(low: Bytes, after: Bytes, name: Bytes)
    requires COLON !in low && COLON !in name
    ensures name + [COLON] <= low + [COLON] + after <==> low == name
  {
    var line, key := low + [COLON] + after, name + [COLON];
    CutAppend(low + [COLON], after);
    if key <= line {
      FirstOf(COLON, low, after);
      assert line == name + [COLON] + line[|key|..];
      FirstOf(COLON, name, line[|key|..]);
      assert line[..|low|] == low && line[..|name|] == name;
    }
  }

  lemma {:induction false} ValueInTexts(ss: seq<Spelling>, name: Bytes)
    requires (forall s | s in ss :: WellSpelled(s) && TightName(s)) && COLON !in name
    ensures HeaderValue(Texts(ss), name) == GetHeader(FieldsOf(ss), name)
  {
    if ss != [] {
      assert WellSpelled(ss[0]) && TightName(ss[0]);
      ValueInTexts(ss[1..], name);
      hide WellSpelled;
      ValueStep(ss, name);
    }
  }

  /** What stands behind the name and the colon. */
  lemma TightParts(s: Spelling)
    requires WellSpelled(s) && TightName(s)
    ensures |s.field.name| < |Spelled(s)| && Trim(Spelled(s)[|s.field.name| + 1..], SPACE) == s.field.value
  {
    SpelledPartsReadBack(s);
    assert |NamePart(s)| == |s.field.name|;
    hide Spelled, Trim, NamePart, ValuePart, WellSpelled;
  }

  lemma {:induction false} OneLineMore(line: Bytes, lines: seq<Bytes>, name: Bytes)
    ensures name + [COLON] <= Lower(line) ==> |name| < |line|
    ensures HeaderValue([line] + lines, name)
      == if name + [COLON] <= Lower(line) then Some(Trim(line[|name| + 1..], SPACE)) else HeaderValue(lines, name)
  {
    hide Trim;
    assert ([line] + lines)[1..] == lines;
  }

  lemma {:induction false} OneFieldMore(f: Field, fs: seq<Field>, name: Bytes)
    ensures GetHeader([f] + fs, name) == if Lower(f.name) == name then Some(f.value) else GetHeader(fs, name)
  {
    hide Lower;
    assert ([f] + fs)[1..] == fs;
  }

  lemma {:induction false} ValueStep(ss: seq<Spelling>, name: Bytes)
    requires ss != [] && WellSpelled(ss[0]) && TightName(ss[0]) && COLON !in name
    requires HeaderValue(Texts(ss[1..]), name) == GetHeader(FieldsOf(ss[1..]), name)
    ensures HeaderValue(Texts(ss), name) == GetHeader(FieldsOf(ss), name)
  {
    hide Spelled, Trim, HeaderValue, GetHeader, Lower, FieldsOf;
    var s := ss[0];
    NamePrefix(s, name);
    TightParts(s);
    hide WellSpelled, Texts;
    TextsUnfold(ss);
    OneLineMore(Spelled(s), Texts(ss[1..]), name);
    OneFieldMore(s.field, FieldsOf(ss[1..]), name);
    LowerKeepsLength(s.field.name);
  }

  lemma TextsUnfold(ss: seq<Spelling>)
    requires ss != []
    ensures Texts(ss) == [Spelled(ss[0])] + Texts(ss[1..]) && FieldsOf(ss) == [ss[0].field] + FieldsOf(ss[1..])
  {
    hide Spelled;
  }

  lemma LowerKeepsLength(s: Bytes)
    ensures |Lower(s)| == |s|
  {
  }

  lemma {:induction false} WordOf(w: Bytes, rest: Bytes)
    requires w != [] && forall i | 0 <= i < |w| :: w[i] !in SPACE
    ensures WordLength(w + [SP] + rest) == |w|
    decreases |w|
  {
    var s := w + [SP] + rest;
    if |w| == 1 {
      assert s[1..][0] == SP;
    } else {
      assert s[1..] == w[1..] + [SP] + rest;
      WordOf(w[1..], rest);
    }
  }

  lemma SecondWord(a: Bytes, b: Bytes, rest: Bytes)
    requires a != [] && b != [] && forall i | 0 <= i < |a| :: a[i] !in SPACE
    requires forall i | 0 <= i < |b| :: b[i] !in SPACE
    ensures Word(a + [SP] + (b + ([SP] + rest)), 1) == Some(b)
  {
    var s, t := a + [SP] + (b + ([SP] + rest)), b + [SP] + rest;
    Assoc(b, [SP], rest);
    Assoc(a, [SP], t);
    WordOf(a, t);
    WordOf(b, rest);
    CutAppend(a, [SP] + t);
    assert ([SP] + t)[1..] == t;
    CutAppend(b, [SP] + rest);
    hide WordLength;
    assert Word(s, 1) == Word([SP] + t, 0) == Word(t, 0);
  }

  lemma DecimalDigits(n: nat)
    ensures forall i | 0 <= i < |Decimal(n)| :: 48 <= Decimal(n)[i] <= 57
  {
    hide Decimal;
    forall i | 0 <= i < |Decimal(n)| ensures 48 <= Decimal(n)[i] <= 57 { assert IsDigit(Decimal(n)[i]); }
  }

  predicate Visible(s: Bytes) { forall i | 0 <= i < |s| :: 32 <= s[i] < 0x80 }

  /** The status line of any version and any reason. */
  lemma AnyStatusReadsBack(version: Bytes, digits: Bytes, reason: Bytes, status: nat)
    requires version != [] && Visible(version) && SP !in version && Visible(reason)
    requires digits != [] && Visible(digits) && SP !in digits && ParseUnsigned(digits, U16) == Some(status)
    ensures var line := version + [SP] + (digits + ([SP] + reason));
      StatusOf(line) == status && Plain(line) && line[0] == version[0]
  {
    assert forall i | 0 <= i < |version| :: version[i] in version;
    assert forall i | 0 <= i < |digits| :: digits[i] in digits;
    hide Word, ParseUnsigned;
    SecondWord(version, digits, reason);
    VisibleAppend(digits, [SP] + reason);
    VisibleAppend(version, [SP] + (digits + ([SP] + reason)));
    Assoc(version, [SP], digits + ([SP] + reason));
  }

  lemma VisibleAppend(a: Bytes, b: Bytes)
    ensures Visible(a) && Visible(b) ==> Visible(a + b) && Visible([SP] + (a + b))
  {
  }

  lemma VersionIsVisible()
    ensures VERSION != [] && VERSION[0] == 72 && Visible(VERSION) && SP !in VERSION
  {
    forall i | 0 <= i < |VERSION| ensures 32 < VERSION[i] < 0x80 { assert VERSION[i] == "HTTP/1.1"[i] as int % 256; }
    assert VERSION[0] == "HTTP/1.1"[0] as int % 256;
  }

  lemma StatusReadsBack(status: nat)
    requires status < U16
    ensures StatusOf(StatusLine(status)) == status && Plain(StatusLine(status)) && StatusLine(status)[0] == 72
  {
    var digits, reason := Decimal(status), Text(StatusReason(status));
    hide Decimal, StatusReason;
    DecimalDigits(status);
    DecimalReadsBack(status, U16);
    forall i | 0 <= i < |reason| ensures 32 <= reason[i] < 0x80 {
      assert reason[i] == StatusReason(status)[i] as int % 256;
    }
    VersionIsVisible();
    hide VERSION, StatusOf, Text, ParseUnsigned;
    AnyStatusReadsBack(VERSION, digits, reason, status);
  }

  // ---- The round trip ----

  /** A response whose head is ASCII and well formed and whose first Content-Length is its body's. */
  predicate Announced(server: Bytes, status: nat, headers: seq<Field>, body: Bytes) {
    && status < U16 && WellFormed(Field(SERVER, server)) && (forall f | f in headers :: WellFormed(f))
    && (match GetHeader(headers, CONTENT_LENGTH) case None => false
      case Some(v) => ParseUnsigned(v, U64) == Some(|body|))
  }

  /** The head as lines, and what reading those lines gives. */
  lemma HeadReadsBack(server: Bytes, status: nat, headers: seq<Field>, keepAlive: bool, body: Bytes)
    requires Announced(server, status, headers, body)
    ensures var line, ss := StatusLine(status), AllWritten(ResponseFields(server, headers, keepAlive));
      && Framed(line, ss, body) && StatusOf(line) == status
      && FieldsOf(ss) == ResponseFields(server, headers, keepAlive)
      && ResponseBytes(server, status, headers, keepAlive, body) == Message(line, ss, body)
  {
    var fs, line := ResponseFields(server, headers, keepAlive), StatusLine(status);
    FieldsAreWellFormed(server, headers, keepAlive);
    StatusReadsBack(status);
    NotTheStatusLine(line);
    AllWrittenAreSpelled(fs);
    WrittenIsWell(fs);
    FirstLength(fs, headers);
    hide *;
    ResponseIsHead(server, status, headers, keepAlive, body);
    FramedIs(line, AllWritten(fs), body);
    MessageIs(line, AllWritten(fs), body);
  }

  lemma WrittenIsWell(fs: seq<Field>)
    requires forall f | f in fs :: WellFormed(f)
    ensures forall s | s in AllWritten(fs) :: WellSpelled(s) && TightName(s)
  {
    hide WellFormed;
  }

  lemma FirstLength(fs: seq<Field>, headers: seq<Field>)
    requires |fs| > 0 && |fs[0].name| == 6 && headers <= fs[1..] && GetHeader(headers, CONTENT_LENGTH).Some?
    ensures GetHeader(fs, CONTENT_LENGTH) == GetHeader(headers, CONTENT_LENGTH)
  {
    LengthName();
    hide CONTENT_LENGTH;
    assert fs[1..] == headers + fs[1..][|headers|..];
    GetHeaderAppend(headers, fs[1..][|headers|..], CONTENT_LENGTH);
    assert |Lower(fs[0].name)| == 6;
  }

  lemma FieldsAreWellFormed(server: Bytes, headers: seq<Field>, keepAlive: bool)
    requires WellFormed(Field(SERVER, server)) && forall f | f in headers :: WellFormed(f)
    ensures var fs := ResponseFields(server, headers, keepAlive);
      && (forall f | f in fs :: WellFormed(f)) && fs != [] && |fs[0].name| == 6 && headers <= fs[1..]
  {
    ConnectionIsWellFormed(keepAlive);
    hide WellFormed;
    assert |SERVER| == 6;
    var fs := ResponseFields(server, headers, keepAlive);
    assert fs[1..] == headers + [Field(CONNECTION, if keepAlive then KEEP_ALIVE else CLOSE)];
  }

  lemma ResponseIsHead(server: Bytes, status: nat, headers: seq<Field>, keepAlive: bool, body: Bytes)
    ensures ResponseBytes(server, status, headers, keepAlive, body)
         == StatusLine(status) + CRLF + Render(ResponseFields(server, headers, keepAlive)) + CRLF + body
  {
  }

  lemma ConnectionIsWellFormed(keepAlive: bool)
    ensures WellFormed(Field(CONNECTION, if keepAlive then KEEP_ALIVE else CLOSE))
  {
    forall i | 0 <= i < |CONNECTION| ensures 64 < CONNECTION[i] < 0x80 {
      assert CONNECTION[i] == "Connection"[i] as int % 256;
    }
    forall i | 0 <= i < |KEEP_ALIVE| ensures 32 < KEEP_ALIVE[i] < 0x80 {
      assert KEEP_ALIVE[i] == "keep-alive"[i] as int % 256;
    }
    forall i | 0 <= i < |CLOSE| ensures 32 < CLOSE[i] < 0x80 {
      assert CLOSE[i] == "close"[i] as int % 256;
    }
  }

  /** A response of any origin: a status line, header lines in any spelling without blanks before their
      colons, an empty line and the body, which the first Content-Length announces. */
  predicate Framed(line: Bytes, ss: seq<Spelling>, body: Bytes) {
    && Plain(line) && !(CONTENT_LENGTH + [COLON] <= Lower(line))
    && (forall s | s in ss :: WellSpelled(s) && TightName(s)) && Announces(FieldsOf(ss), |body|)
  }

  predicate Announces(fs: seq<Field>, n: nat) {
    match GetHeader(fs, CONTENT_LENGTH) case None => false case Some(v) => ParseUnsigned(v, U64) == Some(n)
  }

  function Message(line: Bytes, ss: seq<Spelling>, body: Bytes): Bytes {
    line + CRLF + SpelledLines(ss) + CRLF + body
  }

  lemma FramedIs(line: Bytes, ss: seq<Spelling>, body: Bytes)
    ensures Framed(line, ss, body) == (
      && Plain(line) && !(CONTENT_LENGTH + [COLON] <= Lower(line))
      && (forall s | s in ss :: WellSpelled(s) && TightName(s)) && Announces(FieldsOf(ss), |body|))
  {
  }

  lemma MessageIs(line: Bytes, ss: seq<Spelling>, body: Bytes)
    ensures Message(line, ss, body) == line + CRLF + SpelledLines(ss) + CRLF + body
  {
  }

  /** What the lines of such a response are, and what reading them gives. */
  lemma FramedLines(line: Bytes, ss: seq<Spelling>, body: Bytes) returns (lines: seq<Bytes>)
    requires Framed(line, ss, body)
    ensures lines != [] && lines[0] == line && forall l | l in lines :: Plain(l)
    ensures Message(line, ss, body) == Joined(lines) + DOUBLE + body
    ensures AnnouncedLength(lines) == Some(|body|) && ParseLines(lines[1..]) == FieldsOf(ss)
  {
    LengthName();
    hide *;
    FramedIs(line, ss, body);
    lines := [line] + Texts(ss);
    assert lines[1..] == Texts(ss);
    assert forall l | l in lines :: l == line || l in Texts(ss);
    assert forall s | s in ss :: WellSpelled(s);
    TextsReadBack(ss);
    HeadIsJoined(line, ss);
    MessageIs(line, ss, body);
    ValueInTexts(ss, CONTENT_LENGTH);
    LengthRead(line, ss, |body|);
  }

  lemma LengthRead(line: Bytes, ss: seq<Spelling>, n: nat)
    requires !(CONTENT_LENGTH + [COLON] <= Lower(line)) && Announces(FieldsOf(ss), n)
    requires HeaderValue(Texts(ss), CONTENT_LENGTH) == GetHeader(FieldsOf(ss), CONTENT_LENGTH)
    ensures AnnouncedLength([line] + Texts(ss)) == Some(n)
  {
    hide CONTENT_LENGTH, Texts, HeaderValue, ParseUnsigned;
    LaterValue(line, Texts(ss), CONTENT_LENGTH);
  }

  lemma LengthName()
    ensures |CONTENT_LENGTH| == 14 && COLON !in CONTENT_LENGTH && CONTENT_LENGTH[0] == 99
  {
    forall i | 0 <= i < 14 ensures CONTENT_LENGTH[i] != COLON {
      assert CONTENT_LENGTH[i] == "content-length"[i] as int % 256;
    }
    assert CONTENT_LENGTH[0] == "content-length"[0] as int % 256;
  }

  lemma NotTheStatusLine(line: Bytes)
    requires line != [] && line[0] == 72
    ensures !(CONTENT_LENGTH + [COLON] <= Lower(line))
  {
    LengthName();
    assert Lower(line)[0] == 104;
    assert (CONTENT_LENGTH + [COLON])[0] == 99;
    hide CONTENT_LENGTH;
  }

  lemma LaterValue(line: Bytes, lines: seq<Bytes>, name: Bytes)
    requires !(name + [COLON] <= Lower(line))
    ensures HeaderValue([line] + lines, name) == HeaderValue(lines, name)
  {
    assert ([line] + lines)[1..] == lines;
  }

  /** A part that ends before the head does has no double line end. */
  lemma PartOfHead(lines: seq<Bytes>, body: Bytes, k: nat)
    requires lines != [] && (forall l | l in lines :: Plain(l)) && k < |Joined(lines)| + 4
    ensures Find(DOUBLE, (Joined(lines) + DOUBLE + body)[..k]) == None
  {
    hide Joined, Plain;
    var whole := Joined(lines) + DOUBLE + body;
    HeadEnds(lines, body);
    hide Find;
    FindNone(DOUBLE, whole[..k]);
    forall q: nat ensures !At(DOUBLE, whole[..k], q) { AtPrefix(DOUBLE, whole, k, q); }
  }

  lemma FindNone(p: Bytes, s: Bytes)
    ensures (forall q: nat :: !At(p, s, q)) ==> Find(p, s) == None
  {
  }

  /** A part that holds the head ends it at the same place. */
  lemma PartWithHead(lines: seq<Bytes>, body: Bytes, k: nat)
    requires lines != [] && forall l | l in lines :: Plain(l)
    requires |Joined(lines)| + 4 <= k <= |Joined(lines) + DOUBLE + body|
    ensures var part := (Joined(lines) + DOUBLE + body)[..k];
      && Find(DOUBLE, part) == Some(|Joined(lines)|) && |Joined(lines)| <= |part|
      && part[..|Joined(lines)|] == Joined(lines)
  {
    hide Joined, Plain, Find;
    var head, rest := Joined(lines), body[..k - |Joined(lines)| - 4];
    HeadEnds(lines, rest);
    assert (head + DOUBLE + body)[..k] == head + DOUBLE + rest;
    Assoc(head, DOUBLE, rest);
    CutAppend(head, DOUBLE + rest);
  }

  lemma JoinedIsUtf8(lines: seq<Bytes>)
    requires lines != [] && forall l | l in lines :: Plain(l)
    ensures Utf8(Joined(lines)) && Lines(Joined(lines)) == lines
  {
    LinesOfJoined(lines);
    JoinedIsAscii(lines);
    AsciiIsUtf8(Joined(lines));
  }

  lemma CompleteIs(buf: Bytes)
    ensures IsComplete(buf) <==>
      Find(DOUBLE, buf).Some? &&
      var end := Find(DOUBLE, buf).value;
      CompleteAfter(buf, end, Lines(if Utf8(buf[..end]) then buf[..end] else []))
  {
    hide CompleteAfter, Lines, Utf8;
  }

  /** A part of a message is complete when it holds the head and as many octets as the announced length
      makes, in 64 bits. */
  lemma PrefixCompleteness(lines: seq<Bytes>, body: Bytes, k: nat)
    requires lines != [] && (forall l | l in lines :: Plain(l)) && AnnouncedLength(lines) == Some(|body|)
    requires k <= |Joined(lines) + DOUBLE + body|
    ensures var whole := Joined(lines) + DOUBLE + body;
      IsComplete(whole[..k]) <==> |Joined(lines)| + 4 <= k && |whole| % U64 <= k
  {
    hide Joined, Lines, Utf8, Plain, AnnouncedLength, Find, IsComplete;
    CompleteIs((Joined(lines) + DOUBLE + body)[..k]);
    if k < |Joined(lines)| + 4 {
      PartOfHead(lines, body, k);
    } else {
      PartWithHead(lines, body, k);
      JoinedIsUtf8(lines);
    }
  }

  /** The parts of a message are incomplete up to its last octet, unless it has a body and 2^64 octets or
      more. */
  lemma WholeCompleteness(lines: seq<Bytes>, body: Bytes)
    requires lines != [] && (forall l | l in lines :: Plain(l)) && AnnouncedLength(lines) == Some(|body|)
    ensures var whole := Joined(lines) + DOUBLE + body;
      (forall k: nat | k <= |whole| :: IsComplete(whole[..k]) <==> k == |whole|) <==> |whole| < U64 || body == []
  {
    hide Joined, Plain, AnnouncedLength, IsComplete;
    var whole := Joined(lines) + DOUBLE + body;
    forall k: nat | k <= |whole|
      ensures IsComplete(whole[..k]) <==> |Joined(lines)| + 4 <= k && |whole| % U64 <= k
    {
      PrefixCompleteness(lines, body, k);
    }
    Wraps(|whole|);
    if |whole| >= U64 && body != [] { assert IsComplete(whole[..|whole| - 1]); }
  }

  lemma Wraps(n: nat)
    ensures n % U64 <= n && (n < U64 ==> n % U64 == n) && (n >= U64 ==> n % U64 < n)
  {
  }

  lemma CapFits()
    ensures CAP < U64
  {
  }

  /** Reading a response of any origin, its header lines in any spelling: it is complete exactly when its
      last octet has arrived, unless it has a body and 2^64 octets or more; and it parses to the number in
      its status line, its headers in order and without blanks, less the hop-by-hop ones, and its body. */
  lemma MessageReadsBack(line: Bytes, ss: seq<Spelling>, body: Bytes)
    requires Framed(line, ss, body)
    ensures var m := Message(line, ss, body);
      && ((forall k: nat | k <= |m| :: IsComplete(m[..k]) <==> k == |m|) <==> |m| < U64 || body == [])
      && ParseResponse(m) == Some(Response(StatusOf(line), Forwarded(FieldsOf(ss), DROPPED), body))
  {
    var lines := FramedLines(line, ss, body);
    WholeCompleteness(lines, body);
    LinesParse(lines, body);
    hide *;
  }

  /** Reading a written response: it is complete exactly when its last octet has arrived, unless it has a
      body and 2^64 octets or more; and it parses to the same status and body and to the written headers in
      order, less the hop-by-hop ones. */
  lemma ResponseReadsBack(server: Bytes, status: nat, headers: seq<Field>, keepAlive: bool, body: Bytes)
    requires Announced(server, status, headers, body)
    ensures var m := ResponseBytes(server, status, headers, keepAlive, body);
      && ((forall k: nat | k <= |m| :: IsComplete(m[..k]) <==> k == |m|) <==> |m| < U64 || body == [])
      && ParseResponse(m) == Some(Response(status, [Field(SERVER, server)] + Forwarded(headers, DROPPED), body))
  {
    hide *;
    HeadReadsBack(server, status, headers, keepAlive, body);
    MessageReadsBack(StatusLine(status), AllWritten(ResponseFields(server, headers, keepAlive)), body);
    DroppedFromResponse(server, headers, keepAlive);
  }

  lemma LinesParse(lines: seq<Bytes>, body: Bytes)
    requires lines != [] && forall l | l in lines :: Plain(l)
    ensures ParseResponse(Joined(lines) + DOUBLE + body)
         == Some(Response(StatusOf(lines[0]), Forwarded(ParseLines(lines[1..]), DROPPED), body))
  {
    var head := Joined(lines);
    HeadEnds(lines, body);
    LinesOfJoined(lines);
    JoinedIsAscii(lines);
    AsciiIsUtf8(head);
    CutAppend(head + DOUBLE, body);
    Assoc(head, DOUBLE, body);
    CutAppend(head, DOUBLE + body);
    hide Joined, Lines, Utf8, Plain, StatusOf, ParseLines, Forwarded, Find;
  }

  lemma {:induction false} ForwardedAppend(fs: seq<Field>, gs: seq<Field>, skip: seq<Bytes>)
    ensures Forwarded(fs + gs, skip) == Forwarded(fs, skip) + Forwarded(gs, skip)
  {
    hide NameIn, Forwarded;
    ForwardedUnfolds(fs, skip);
    if fs == [] {
      assert fs + gs == gs;
    } else {
      ForwardedUnfolds(fs + gs, skip);
      ForwardedAppend(fs[1..], gs, skip);
      assert (fs + gs)[1..] == fs[1..] + gs;
      Assoc(if NameIn(fs[0].name, skip) then [] else [fs[0]], Forwarded(fs[1..], skip), Forwarded(gs, skip));
    }
  }

  lemma ForwardedUnfolds(fs: seq<Field>, skip: seq<Bytes>)
    ensures Forwarded(fs, skip)
         == if fs == [] then [] else (if NameIn(fs[0].name, skip) then [] else [fs[0]]) + Forwarded(fs[1..], skip)
  {
  }

  lemma ConnectionIsDropped()
    ensures NameIn(CONNECTION, DROPPED) && !NameIn(SERVER, DROPPED)
  {
    forall i | 0 <= i < 10 ensures Lower(CONNECTION)[i] == Text("connection")[i] {
      assert CONNECTION[i] == "Connection"[i] as int % 256 && Text("connection")[i] == "connection"[i] as int % 256;
    }
    assert Lower(CONNECTION) == DROPPED[0];
    assert SERVER[0] == "Server"[0] as int % 256;
    assert Lower(SERVER)[0] == 115 && |SERVER| == 6;
    assert |DROPPED[0]| == 10 && |DROPPED[1]| == 10 && |DROPPED[2]| == 17 && |DROPPED[3]| == 2 && |DROPPED[4]| == 7;
  }

  lemma DroppedFromResponse(server: Bytes, headers: seq<Field>, keepAlive: bool)
    ensures Forwarded(ResponseFields(server, headers, keepAlive), DROPPED)
         == [Field(SERVER, server)] + Forwarded(headers, DROPPED)
  {
    var first, last := [Field(SERVER, server)],
      [Field(CONNECTION, if keepAlive then KEEP_ALIVE else CLOSE)];
    ConnectionIsDropped();
    hide NameIn, Lower, Text;
    ForwardedAppend(first, headers, DROPPED);
    ForwardedAppend(first + headers, last, DROPPED);
    assert Forwarded(first, DROPPED) == first + Forwarded([], DROPPED);
    assert Forwarded(last, DROPPED) == [] + Forwarded(last[1..], DROPPED);
    assert first + Forwarded(headers, DROPPED) + [] == first + Forwarded(headers, DROPPED);
  }

  /** However a message is split into reads, and whatever would follow it, the loop stops exactly when
      its last octet has arrived. */
  lemma {:induction false} ReadsTheMessage(m: Bytes, buf: Bytes, arrivals: seq<Bytes>, later: seq<Bytes>)
    requires buf + Concat(arrivals) == m && buf != m && |m| <= CAP
    requires forall a | a in arrivals :: a != []
    requires forall k: nat | k <= |m| :: IsComplete(m[..k]) <==> k == |m|
    ensures Buffered(buf, arrivals + later) == m
    decreases |arrivals|
  {
    hide IsComplete;
    assert arrivals == [] ==> buf + Concat(arrivals) == buf;
    var a := arrivals[0];
    assert a in arrivals;
    assert (arrivals + later)[1..] == arrivals[1..] + later;
    Assoc(buf, a, Concat(arrivals[1..]));
    var longer := buf + a;
    CutAppend(longer, Concat(arrivals[1..]));
    assert m[..|longer|] == longer;
    assert m[..|m|] == m;
    if longer != m {
      Rejoin(m, |longer|);
      assert |longer| == |m| ==> longer == m;
      assert longer + Concat(arrivals[1..]) == m;
      assert forall x | x in arrivals[1..] :: x in arrivals;
      ReadsTheMessage(m, longer, arrivals[1..], later);
    }
  }

  /** The round trip of a response of any origin through network, read loop and parser. */
  lemma MessageRoundTrip(line: Bytes, ss: seq<Spelling>, body: Bytes, arrivals: seq<Bytes>, later: seq<Bytes>)
    requires Framed(line, ss, body) && Concat(arrivals) == Message(line, ss, body)
    requires |Concat(arrivals)| <= CAP && forall a | a in arrivals :: a != []
    ensures var read := Buffered([], arrivals + later);
      && read == Concat(arrivals)
      && ParseResponse(read) == Some(Response(StatusOf(line), Forwarded(FieldsOf(ss), DROPPED), body))
  {
    var m := Message(line, ss, body);
    assert m != [];
    hide *;
    MessageReadsBack(line, ss, body);
    assert |m| < U64 by { CapFits(); }
    assert [] + Concat(arrivals) == m;
    ReadsTheMessage(m, [], arrivals, later);
  }

  /** The round trip through writer, network, read loop and parser. */
  lemma ResponseRoundTrip(server: Bytes, status: nat, headers: seq<Field>, keepAlive: bool, body: Bytes,
                          arrivals: seq<Bytes>, later: seq<Bytes>)
    requires Announced(server, status, headers, body)
    requires Concat(arrivals) == ResponseBytes(server, status, headers, keepAlive, body)
    requires |Concat(arrivals)| <= CAP && forall a | a in arrivals :: a != []
    ensures var read := Buffered([], arrivals + later);
      && read == Concat(arrivals)
      && ParseResponse(read) == Some(Response(status, [Field(SERVER, server)] + Forwarded(headers, DROPPED), body))
  {
    hide *;
    HeadReadsBack(server, status, headers, keepAlive, body);
    MessageRoundTrip(StatusLine(status), AllWritten(ResponseFields(server, headers, keepAlive)), body, arrivals, later);
    DroppedFromResponse(server, headers, keepAlive);
  }
}

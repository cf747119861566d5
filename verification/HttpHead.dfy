/** The HTTP/1.1 request-head parser and the slicing of the body at the start of dispatch. */
module HttpHead {
  import opened Common
  import opened Ascii
  import opened CrlfScan

  const MAX_METHOD_LEN: nat := 16
  const MAX_URI_LEN: nat := 8192
  const MAX_VERSION_LEN: nat := 16
  const MAX_REQUEST_LINE: nat := MAX_METHOD_LEN + 1 + MAX_URI_LEN + 1 + MAX_VERSION_LEN + 2
  const MAX_HEADER_COUNT: nat := 100
  const MAX_HEADER_NAME_LEN: nat := 256
  const MAX_HEADER_VALUE_LEN: nat := 8192
  const MAX_HEADERS_TOTAL_BYTES: nat := 65536
  const MAX_HEADER_BUFFER: nat := MAX_HEADERS_TOTAL_BYTES + MAX_REQUEST_LINE

  const BLANK: set<Byte> := {SP, TAB}

  datatype Error =
    | RequestLineIncomplete | RequestLineTooLong | MalformedRequestLine
    | MethodTooLong | UriTooLong | VersionTooLong
    | HeaderBufferOverflow | HeadersIncomplete | HeaderLineIncomplete | MalformedHeaderLine
    | HeaderNameTooLong | HeaderValueTooLong | HeadersTooLarge | TooManyHeaders

  datatype Result<+T> = Ok(value: T) | Err(error: Error)

  datatype RequestLine = RequestLine(verb: Bytes, uri: Bytes, version: Bytes)

  datatype Field = Field(name: Bytes, value: Bytes)

  // ---- Request line ----

  function IndexOf(b: Byte, s: Bytes): (r: Option<nat>)
    ensures r.Some? ==> r.value < |s| && s[r.value] == b && b !in s[..r.value]
    ensures r.None? <==> b !in s
  {
    if s == [] then None
    else if s[0] == b then Some(0)
    else
      match IndexOf(b, s[1..])
      case None => None
      case Some(i) =>
        assert s[..i + 1] == [s[0]] + s[1..][..i];
        Some(i + 1)
  }

  function LastIndexOf(b: Byte, s: Bytes): (r: Option<nat>)
    ensures r.Some? ==> r.value < |s| && s[r.value] == b && b !in s[r.value + 1..]
    ensures r.None? <==> b !in s
  {
    if s == [] then None
    else if s[|s| - 1] == b then Some(|s| - 1)
    else
      match LastIndexOf(b, s[..|s| - 1])
      case None => None
      case Some(i) =>
        assert s[i + 1..] == s[..|s| - 1][i + 1..] + [s[|s| - 1]];
        Some(i)
  }

  /** The request line without its CRLF: method up to the first space, version after the last. */
  function SplitRequestLine(line: Bytes): Result<RequestLine> {
    if |line| > MAX_REQUEST_LINE then Err(RequestLineTooLong)
    else
      match IndexOf(SP, line)
      case None => Err(MalformedRequestLine)
      case Some(sp1) =>
        if sp1 > MAX_METHOD_LEN then Err(MethodTooLong)
        else
          var rest := line[sp1 + 1..];
          match LastIndexOf(SP, rest)
          case None => Err(MalformedRequestLine)
          case Some(sp2) =>
            if sp2 > MAX_URI_LEN then Err(UriTooLong)
            else if |rest| - sp2 - 1 > MAX_VERSION_LEN then Err(VersionTooLong)
            else Ok(RequestLine(line[..sp1], rest[..sp2], rest[sp2 + 1..]))
  }

  function ParseRequestLine(buf: Bytes): (r: Result<(RequestLine, nat)>)
    ensures r.Ok? ==> r.value.1 <= |buf|
  {
    match FindCrlfScalar(buf)
    case None => Err(RequestLineIncomplete)
    case Some(p) =>
      match SplitRequestLine(buf[..p])
      case Err(e) => Err(e)
      case Ok(rl) => Ok((rl, p + 2))
  }

  // ---- Header fields ----

  function ParseField(line: Bytes): Result<Field> {
    match IndexOf(COLON, line)
    case None => Err(MalformedHeaderLine)
    case Some(colon) =>
      var name, value := Trim(line[..colon], BLANK), Trim(line[colon + 1..], BLANK);
      if |name| > MAX_HEADER_NAME_LEN then Err(HeaderNameTooLong)
      else if |value| > MAX_HEADER_VALUE_LEN then Err(HeaderValueTooLong)
      else Ok(Field(name, value))
  }

  /** What a field adds to the running total: name, colon and space, value, CRLF. */
  function FieldSize(f: Field): nat { |f.name| + 2 + |f.value| + 2 }

  /** One header line off the front of the buffer, and the octets it took. */
  function NextField(buf: Bytes): (r: Result<(Field, nat)>)
    ensures r.Ok? ==> 0 < r.value.1 <= |buf|
  {
    if buf == [] then Err(HeadersIncomplete)
    else
      match FindCrlfScalar(buf)
      case None => Err(HeaderLineIncomplete)
      case Some(crlf) =>
        match ParseField(buf[..crlf])
        case Err(e) => Err(e)
        case Ok(f) => Ok((f, crlf + 2))
  }

  /** The header loop from a state with `count` fields and `total` octets: the fields still to come
      and the octets they take, the blank line included. */
  function FieldsFrom(buf: Bytes, count: nat, total: nat): (r: Result<(seq<Field>, nat)>)
    ensures r.Ok? ==> r.value.1 <= |buf|
    decreases |buf|
  {
    if CRLF <= buf then Ok(([], 2))
    else
      match NextField(buf)
      case Err(e) => Err(e)
      case Ok(t) =>
        var (f, n) := t;
        if total + FieldSize(f) > MAX_HEADERS_TOTAL_BYTES then Err(HeadersTooLarge)
        else if count >= MAX_HEADER_COUNT then Err(TooManyHeaders)
        else
          Extend([f], n, FieldsFrom(buf[n..], count + 1, total + FieldSize(f)))
  }

  function ParseHeadersOf(buf: Bytes): (r: Result<(seq<Field>, nat)>)
    ensures r.Ok? ==> r.value.1 <= |buf|
  {
    if |buf| > MAX_HEADER_BUFFER then Err(HeaderBufferOverflow) else FieldsFrom(buf, 0, 0)
  }

  function Extend(done: seq<Field>, pos: nat, r: Result<(seq<Field>, nat)>): Result<(seq<Field>, nat)> {
    match r case Err(e) => Err(e) case Ok(t) => Ok((done + t.0, pos + t.1))
  }

  lemma ExtendStep(done: seq<Field>, pos: nat, f: Field, n: nat, r: Result<(seq<Field>, nat)>)
    ensures Extend(done, pos, Extend([f], n, r)) == Extend(done + [f], pos + n, r)
    ensures Extend([], 0, r) == r
    ensures r.Err? ==> Extend(done, pos, r) == r
    ensures r == Ok(([], 2)) ==> Extend(done, pos, r) == Ok((done, pos + 2))
  {
    if r.Ok? {
      Assoc(done, [f], r.value.0);
      assert [] + r.value.0 == r.value.0;
      assert done + [] == done;
    }
  }

  lemma BlankLineAt(buf: Bytes, pos: nat)
    requires pos <= |buf|
    ensures CRLF <= buf[pos..] <==> pos + 2 <= |buf| && buf[pos..pos + 2] == CRLF
  {
    if pos + 2 <= |buf| { assert buf[pos..][..2] == buf[pos..pos + 2]; }
  }

  lemma FieldsStep(buf: Bytes, count: nat, total: nat)
    requires !(CRLF <= buf)
    ensures FieldsFrom(buf, count, total)
         == match NextField(buf)
            case Err(e) => Err(e)
            case Ok(t) =>
              if total + FieldSize(t.0) > MAX_HEADERS_TOTAL_BYTES then Err(HeadersTooLarge)
              else if count >= MAX_HEADER_COUNT then Err(TooManyHeaders)
              else Extend([t.0], t.1, FieldsFrom(buf[t.1..], count + 1, total + FieldSize(t.0)))
  {
    hide NextField;
  }

  lemma BlankLineEnds(buf: Bytes, done: seq<Field>, pos: nat, total: nat)
    requires CRLF <= buf
    ensures Extend(done, pos, FieldsFrom(buf, |done|, total)) == Ok((done, pos + 2))
  {
    ExtendStep(done, pos, Field([], []), 0, Ok(([], 2)));
  }

  method ParseHeaders(buf: Bytes) returns (r: Result<(seq<Field>, nat)>)
    ensures r == ParseHeadersOf(buf)
  {
    hide NextField, FieldsFrom, Extend;
    if |buf| > MAX_HEADER_BUFFER {
      return Err(HeaderBufferOverflow);
    }
    var headers: seq<Field> := [];
    var totalBytes: nat := 0;
    var pos: nat := 0;
    assert buf[0..] == buf;
    ExtendStep([], 0, Field([], []), 0, FieldsFrom(buf, 0, 0));
    while true
      invariant pos <= |buf|
      invariant FieldsFrom(buf, 0, 0) == Extend(headers, pos, FieldsFrom(buf[pos..], |headers|, totalBytes))
      decreases |buf| - pos
    {
      BlankLineAt(buf, pos);
      if pos + 2 <= |buf| && buf[pos..pos + 2] == CRLF {
        BlankLineEnds(buf[pos..], headers, pos, totalBytes);
        return Ok((headers, pos + 2));
      }
      FieldsStep(buf[pos..], |headers|, totalBytes);
      ExtendStep(headers, pos, Field([], []), 0, FieldsFrom(buf[pos..], |headers|, totalBytes));
      var next := NextField(buf[pos..]);
      if next.Err? { return Err(next.error); }
      var (f, n) := next.value;
      totalBytes := totalBytes + FieldSize(f);
      if totalBytes > MAX_HEADERS_TOTAL_BYTES { return Err(HeadersTooLarge); }
      if |headers| >= MAX_HEADER_COUNT { return Err(TooManyHeaders); }
      assert buf[pos..][n..] == buf[pos + n..];
      ExtendStep(headers, pos, f, n, FieldsFrom(buf[pos + n..], |headers| + 1, totalBytes));
      headers := headers + [f];
      pos := pos + n;
    }
  }

  // ---- Reading back what a writer produced ----

  const COLON_SP: Bytes := [COLON, SP]

  function FieldText(f: Field): Bytes { f.name + COLON_SP + f.value }

  function Render(fs: seq<Field>): Bytes {
    if fs == [] then [] else FieldText(fs[0]) + CRLF + Render(fs[1..])
  }

  lemma {:induction false} RenderAppend(fs: seq<Field>, gs: seq<Field>)
    ensures Render(fs + gs) == Render(fs) + Render(gs)
  {
    hide FieldText;
    if fs == [] {
      assert fs + gs == gs;
    } else {
      RenderAppend(fs[1..], gs);
      assert (fs + gs)[1..] == fs[1..] + gs;
      Assoc(FieldText(fs[0]) + CRLF, Render(fs[1..]), Render(gs));
    }
  }

  /** Pushing one header line onto what has been written. */
  lemma PushField(start: Bytes, done: seq<Field>, f: Field)
    ensures start + Render(done) + (FieldText(f) + CRLF) == start + Render(done + [f])
  {
    hide FieldText;
    RenderAppend(done, [f]);
    assert Render([f]) == FieldText(f) + CRLF + Render([f][1..]);
    assert Render([f]) == FieldText(f) + CRLF;
    Assoc(start, Render(done), Render([f]));
  }

  /** The fields a writer forwards, in order: those not skipped. */
  function Forwarded(fs: seq<Field>, skip: seq<Bytes>): (r: seq<Field>)
    ensures forall f | f in r :: f in fs && !NameIn(f.name, skip)
  {
    if fs == [] then []
    else (if NameIn(fs[0].name, skip) then [] else [fs[0]]) + Forwarded(fs[1..], skip)
  }

  ghost predicate NoCrlf(s: Bytes) { forall q: nat :: !CrlfAt(s, q) }

  /** What a field must be to survive: trimmed parts, no colon in the name, no CRLF in either. A lone
      CR or LF does not matter. */
  ghost predicate Clean(f: Field) {
    && Trimmed(f.name, BLANK) && Trimmed(f.value, BLANK)
    && COLON !in f.name && NoCrlf(f.name) && NoCrlf(f.value)
  }

  predicate ShortField(f: Field) { |f.name| <= MAX_HEADER_NAME_LEN && |f.value| <= MAX_HEADER_VALUE_LEN }

  ghost predicate Fits(fs: seq<Field>, count: nat, total: nat) {
    && (forall f | f in fs :: ShortField(f))
    && (fs == [] || (count + |fs| <= MAX_HEADER_COUNT && total + |Render(fs)| <= MAX_HEADERS_TOTAL_BYTES))
  }

  /** The first CRLF after text without one is the one that ends it. */
  lemma CrlfAfter(s: Bytes, rest: Bytes)
    requires NoCrlf(s)
    ensures FindCrlfScalar(s + CRLF + rest) == Some(|s|)
  {
    hide FindCrlfScalar;
    var buf := s + CRLF + rest;
    assert CrlfAt(buf, |s|);
    forall q: nat | q < |s| ensures !CrlfAt(buf, q) {
      assert !CrlfAt(s, q);
    }
  }

  lemma {:induction false} FirstOf(b: Byte, before: Bytes, after: Bytes)
    requires b !in before
    ensures IndexOf(b, before + [b] + after) == Some(|before|)
  {
    if before != [] {
      assert before[0] in before;
      assert (before + [b] + after)[1..] == before[1..] + [b] + after;
      FirstOf(b, before[1..], after);
    }
  }

  lemma {:induction false} LastOf(b: Byte, before: Bytes, after: Bytes)
    requires b !in after
    ensures LastIndexOf(b, before + [b] + after) == Some(|before|)
    decreases |after|
  {
    var s, n := before + [b] + after, |after|;
    if after == [] {
      assert s[|s| - 1] == b;
    } else {
      assert s[|s| - 1] == after[n - 1] && after[n - 1] in after;
      assert s[..|s| - 1] == before + [b] + after[..n - 1];
      LastOf(b, before, after[..n - 1]);
    }
  }

  // ---- Every spelling of a field ----

  /** A field with blanks before and behind its name and its value. */
  datatype Spelling = Spelling(field: Field, lead: Bytes, trail: Bytes, left: Bytes, right: Bytes)

  function NamePart(s: Spelling): Bytes { s.lead + s.field.name + s.trail }

  function ValuePart(s: Spelling): Bytes { s.left + s.field.value + s.right }

  function Spelled(s: Spelling): Bytes { NamePart(s) + [COLON] + ValuePart(s) }

  predicate Blanks(b: Bytes) { forall i | 0 <= i < |b| :: b[i] == SP || b[i] == TAB }

  predicate BlankPads(s: Spelling) { Blanks(s.lead) && Blanks(s.trail) && Blanks(s.left) && Blanks(s.right) }

  function SpelledLines(ss: seq<Spelling>): Bytes {
    if ss == [] then [] else Spelled(ss[0]) + CRLF + SpelledLines(ss[1..])
  }

  function FieldsOf(ss: seq<Spelling>): (fs: seq<Field>)
    ensures |fs| == |ss| && forall i | 0 <= i < |ss| :: fs[i] == ss[i].field
  {
    seq(|ss|, i requires 0 <= i < |ss| => ss[i].field)
  }

  ghost predicate CleanSpelling(s: Spelling) { Clean(s.field) && BlankPads(s) }

  lemma NameAndValue(s: Spelling)
    requires CleanSpelling(s)
    ensures Trim(NamePart(s), BLANK) == s.field.name && Trim(ValuePart(s), BLANK) == s.field.value
    ensures COLON !in NamePart(s)
  {
    TrimPadding(s.lead, s.field.name, s.trail, BLANK);
    TrimPadding(s.left, s.field.value, s.right, BLANK);
  }

  lemma SpellingReadsBack(s: Spelling)
    requires CleanSpelling(s)
    ensures ShortField(s.field) ==> ParseField(Spelled(s)) == Ok(s.field)
    ensures !ShortField(s.field) ==> ParseField(Spelled(s)).Err?
  {
    NameAndValue(s);
    FirstOf(COLON, NamePart(s), ValuePart(s));
    CutAppend(NamePart(s) + [COLON], ValuePart(s));
    CutAppend(NamePart(s), [COLON] + ValuePart(s));
    Assoc(NamePart(s), [COLON], ValuePart(s));
    hide IndexOf, Trim, NamePart, ValuePart;
  }

  lemma JoinHasNoCrlf(a: Bytes, b: Bytes)
    requires NoCrlf(a) && NoCrlf(b) && (a == [] || b == [] || a[|a| - 1] != CR || b[0] != LF)
    ensures NoCrlf(a + b)
  {
    forall q: nat ensures !CrlfAt(a + b, q) {
      if q + 1 < |a| { assert !CrlfAt(a, q); } else if q >= |a| { assert !CrlfAt(b, q - |a|); }
    }
  }

  lemma BlanksHaveNoCrlf(b: Bytes)
    requires Blanks(b)
    ensures NoCrlf(b) && (b != [] ==> b[0] != LF && b[|b| - 1] != CR)
  {
  }

  lemma PaddedHasNoCrlf(left: Bytes, s: Bytes, right: Bytes)
    requires Blanks(left) && NoCrlf(s) && Blanks(right)
    ensures NoCrlf(left + s + right)
  {
    BlanksHaveNoCrlf(left);
    BlanksHaveNoCrlf(right);
    JoinHasNoCrlf(left, s);
    JoinHasNoCrlf(left + s, right);
  }

  lemma SpelledHasNoCrlf(s: Spelling)
    requires CleanSpelling(s)
    ensures NoCrlf(Spelled(s))
  {
    PaddedHasNoCrlf(s.lead, s.field.name, s.trail);
    PaddedHasNoCrlf(s.left, s.field.value, s.right);
    hide NamePart, ValuePart, NoCrlf;
    assert NoCrlf([COLON]) by { ColonHasNoCrlf(); }
    JoinHasNoCrlf(NamePart(s), [COLON]);
    JoinHasNoCrlf(NamePart(s) + [COLON], ValuePart(s));
  }

  lemma ColonHasNoCrlf()
    ensures NoCrlf([COLON])
  {
  }

  lemma NextSpellingReadsBack(s: Spelling, rest: Bytes)
    requires CleanSpelling(s)
    ensures !(CRLF <= Spelled(s) + CRLF + rest)
    ensures ShortField(s.field) ==> NextField(Spelled(s) + CRLF + rest) == Ok((s.field, |Spelled(s)| + 2))
    ensures !ShortField(s.field) ==> NextField(Spelled(s) + CRLF + rest).Err?
  {
    var line := Spelled(s);
    var buf := line + CRLF + rest;
    assert line[|NamePart(s)|] == COLON;
    SpelledHasNoCrlf(s);
    SpellingReadsBack(s);
    hide Spelled, FindCrlfScalar, ParseField, CleanSpelling, NoCrlf;
    CrlfAfter(line, rest);
    StartsWithoutCrlf(line, rest);
    assert buf[..|line|] == line;
  }

  lemma StartsWithoutCrlf(line: Bytes, rest: Bytes)
    requires NoCrlf(line) && line != []
    ensures !(CRLF <= line + CRLF + rest)
  {
    if |line| >= 2 {
      assert !CrlfAt(line, 0);
      assert (line + CRLF + rest)[..2] == line[..2];
    } else {
      assert (line + CRLF + rest)[1] == CR;
    }
  }

  lemma FitsStep(fs: seq<Field>, count: nat, total: nat)
    requires fs != []
    ensures Fits(fs, count, total)
       <==> ShortField(fs[0]) && count < MAX_HEADER_COUNT && total + FieldSize(fs[0]) <= MAX_HEADERS_TOTAL_BYTES
            && Fits(fs[1..], count + 1, total + FieldSize(fs[0]))
  {
    assert fs == [fs[0]] + fs[1..];
    assert |Render(fs)| == FieldSize(fs[0]) + |Render(fs[1..])|;
  }

  /** The outcome of the loop on a buffer that starts with one field and continues with more. */
  lemma OneFieldThenMore(f: Field, more: seq<Field>, buf: Bytes, n: nat, rest: Bytes, m: nat, count: nat, total: nat)
    requires !(CRLF <= buf) && |buf| >= n && buf[n..] == rest
    requires ShortField(f) ==> NextField(buf) == Ok((f, n))
    requires !ShortField(f) ==> NextField(buf).Err?
    requires var r := FieldsFrom(rest, count + 1, total + FieldSize(f));
      (r == Ok((more, m)) || r.Err?) && (r.Ok? <==> Fits(more, count + 1, total + FieldSize(f)))
    ensures var r := FieldsFrom(buf, count, total);
      (r == Ok(([f] + more, n + m)) || r.Err?) && (r.Ok? <==> Fits([f] + more, count, total))
  {
    hide NextField, FieldsFrom, Fits, ShortField, Render, FieldSize;
    FitsStep([f] + more, count, total);
    FieldsStep(buf, count, total);
    assert ([f] + more)[1..] == more;
  }

  /** The header loop on fields in any spelling, each with its own blanks around name and value, a blank
      line and anything after it: the fields come back in order, without the blanks, and the blank line
      is the last thing consumed, exactly when the limits are met. */
  lemma {:induction false} SpelledReadsBack(ss: seq<Spelling>, body: Bytes, count: nat, total: nat)
    requires forall s | s in ss :: CleanSpelling(s)
    ensures var r := FieldsFrom(SpelledLines(ss) + (CRLF + body), count, total);
      (r == Ok((FieldsOf(ss), |SpelledLines(ss)| + 2)) || r.Err?) && (r.Ok? <==> Fits(FieldsOf(ss), count, total))
    decreases |ss|
  {
    hide *;
    if ss == [] {
      NothingSpelled(body, count, total);
    } else {
      var s, more := ss[0], ss[1..];
      var line, rest := Spelled(s), SpelledLines(more) + (CRLF + body);
      SpelledStep(ss, CRLF + body);
      NextSpellingReadsBack(s, rest);
      SpelledReadsBack(more, body, count + 1, total + FieldSize(s.field));
      OneFieldThenMore(s.field, FieldsOf(more), line + CRLF + rest, |line| + 2, rest, |SpelledLines(more)| + 2,
        count, total);
    }
  }

  lemma NothingSpelled(body: Bytes, count: nat, total: nat)
    ensures FieldsFrom(SpelledLines([]) + (CRLF + body), count, total) == Ok((FieldsOf([]), |SpelledLines([])| + 2))
    ensures Fits(FieldsOf([]), count, total)
  {
    assert SpelledLines([]) + (CRLF + body) == CRLF + body;
  }

  lemma SpelledStep(ss: seq<Spelling>, after: Bytes)
    requires ss != []
    ensures var line, rest := Spelled(ss[0]), SpelledLines(ss[1..]) + after;
      && SpelledLines(ss) + after == line + CRLF + rest && (line + CRLF + rest)[|line| + 2..] == rest
      && |SpelledLines(ss)| == |line| + 2 + |SpelledLines(ss[1..])|
    ensures FieldsOf(ss) == [ss[0].field] + FieldsOf(ss[1..])
  {
    hide Spelled;
    var line := Spelled(ss[0]);
    Assoc(line + CRLF, SpelledLines(ss[1..]), after);
    CutAppend(line + CRLF, SpelledLines(ss[1..]) + after);
  }

  // ---- The spelling of the writers: one space before the value ----

  function Written(f: Field): Spelling { Spelling(f, [], [], [SP], []) }

  function AllWritten(fs: seq<Field>): (ss: seq<Spelling>)
    ensures |ss| == |fs| && forall i | 0 <= i < |fs| :: ss[i] == Written(fs[i])
  {
    seq(|fs|, i requires 0 <= i < |fs| => Written(fs[i]))
  }

  lemma WrittenIsSpelled(f: Field)
    ensures Spelled(Written(f)) == FieldText(f)
  {
    var s := Written(f);
    assert NamePart(s) == f.name && ValuePart(s) == [SP] + f.value;
    assert [COLON] + ([SP] + f.value) == COLON_SP + f.value;
    Assoc(f.name, [COLON], [SP] + f.value);
    Assoc(f.name, COLON_SP, f.value);
  }

  lemma {:induction false} AllWrittenAreSpelled(fs: seq<Field>)
    ensures SpelledLines(AllWritten(fs)) == Render(fs) && FieldsOf(AllWritten(fs)) == fs
  {
    hide Spelled, FieldText;
    if fs != [] {
      WrittenIsSpelled(fs[0]);
      AllWrittenAreSpelled(fs[1..]);
      assert AllWritten(fs)[1..] == AllWritten(fs[1..]);
    }
  }

  /** The header loop on rendered fields, a blank line and anything after it: the fields come back in
      order and the blank line is the last thing consumed, exactly when the limits are met. */
  lemma FieldsReadBack(fs: seq<Field>, body: Bytes, count: nat, total: nat)
    requires forall f | f in fs :: Clean(f)
    ensures var r := FieldsFrom(Render(fs) + (CRLF + body), count, total);
      (r == Ok((fs, |Render(fs)| + 2)) || r.Err?) && (r.Ok? <==> Fits(fs, count, total))
  {
    hide FieldsFrom, Fits, Clean, SpelledLines, Render;
    AllWrittenAreSpelled(fs);
    SpelledReadsBack(AllWritten(fs), body, count, total);
  }

  // ---- What an accepted header block is ----

  lemma SliceHasNoCrlf(s: Bytes, i: nat, j: nat)
    requires NoCrlf(s) && i <= j <= |s|
    ensures NoCrlf(s[i..j])
  {
    forall q: nat ensures !CrlfAt(s[i..j], q) { assert !CrlfAt(s, i + q); }
  }

  lemma TrimmedSlice(s: Bytes)
    requires NoCrlf(s)
    ensures NoCrlf(Trim(s, BLANK)) && Trimmed(Trim(s, BLANK), BLANK)
    ensures COLON !in s ==> COLON !in Trim(s, BLANK)
  {
    var i, j := TrimSlice(s, BLANK);
    hide Trim;
    SliceHasNoCrlf(s, i, j);
  }

  lemma ParsedFieldIsClean(line: Bytes, f: Field)
    requires NoCrlf(line) && ParseField(line) == Ok(f)
    ensures Clean(f) && ShortField(f)
  {
    hide Trim, Trimmed;
    var colon := IndexOf(COLON, line).value;
    hide IndexOf;
    SliceHasNoCrlf(line, 0, colon);
    SliceHasNoCrlf(line, colon + 1, |line|);
    assert line[0..colon] == line[..colon] && line[colon + 1..|line|] == line[colon + 1..];
    TrimmedSlice(line[..colon]);
    TrimmedSlice(line[colon + 1..]);
  }

  lemma NextFieldIsClean(buf: Bytes, f: Field, n: nat)
    requires NextField(buf) == Ok((f, n))
    ensures Clean(f) && ShortField(f)
  {
    hide ParseField, Clean;
    var crlf := FindCrlfScalar(buf).value;
    var line := buf[..crlf];
    hide FindCrlfScalar;
    forall q: nat ensures !CrlfAt(line, q) {
      if q < crlf { assert !CrlfAt(buf, q); }
    }
    ParsedFieldIsClean(line, f);
  }

  /** Whatever the header loop accepts is clean and within the limits. */
  lemma {:induction false} AcceptedFieldsAreClean(buf: Bytes, count: nat, total: nat)
    requires FieldsFrom(buf, count, total).Ok?
    ensures (forall f | f in FieldsFrom(buf, count, total).value.0 :: Clean(f))
    ensures Fits(FieldsFrom(buf, count, total).value.0, count, total)
    decreases |buf|
  {
    hide NextField, Clean, Fits, ShortField;
    var fs := FieldsFrom(buf, count, total).value.0;
    if CRLF <= buf {
      FitsNothing(count, total);
    } else {
      FieldsStep(buf, count, total);
      var (f, n) := NextField(buf).value;
      NextFieldIsClean(buf, f, n);
      AcceptedFieldsAreClean(buf[n..], count + 1, total + FieldSize(f));
      assert fs == [f] + fs[1..];
      FitsStep(fs, count, total);
    }
  }

  lemma FitsNothing(count: nat, total: nat)
    ensures Fits([], count, total)
  {
  }

  /** Rendering is a normal form: an accepted header block, rendered again, is accepted with the
      same fields. */
  lemma AcceptedFieldsRenderAgain(buf: Bytes, fs: seq<Field>, n: nat)
    requires ParseHeadersOf(buf) == Ok((fs, n))
    ensures ParseHeadersOf(Render(fs) + (CRLF + [])) == Ok((fs, |Render(fs)| + 2))
  {
    hide FieldsFrom, Clean;
    AcceptedFieldsAreClean(buf, 0, 0);
    FieldsReadBack(fs, [], 0, 0);
  }

  // ---- The whole head, as dispatch reads it ----

  const VERSION: Bytes := Text("HTTP/1.1")
  const CONTENT_LENGTH: Bytes := Text("content-length")
  const CONNECTION: Bytes := Text("Connection")
  const KEEP_ALIVE: Bytes := Text("keep-alive")

  datatype Head = Head(line: RequestLine, fields: seq<Field>, bodyOffset: nat)

  function ParseHead(raw: Bytes): Result<Head> {
    match ParseRequestLine(raw)
    case Err(e) => Err(e)
    case Ok((line, n)) =>
      match ParseHeadersOf(raw[n..])
      case Err(e) => Err(e)
      case Ok((fields, m)) => Ok(Head(line, fields, n + m))
  }

  /** The value of the first field with a lower-case name, as `get_header` finds it. */
  function GetHeader(fs: seq<Field>, name: Bytes): Option<Bytes> {
    if fs == [] then None
    else if Lower(fs[0].name) == name then Some(fs[0].value)
    else GetHeader(fs[1..], name)
  }

  lemma {:induction false} GetHeaderAppend(fs: seq<Field>, gs: seq<Field>, name: Bytes)
    ensures GetHeader(fs + gs, name)
         == match GetHeader(fs, name) case None => GetHeader(gs, name) case Some(v) => Some(v)
  {
    if fs == [] {
      assert fs + gs == gs;
    } else {
      GetHeaderAppend(fs[1..], gs, name);
      assert (fs + gs)[1..] == fs[1..] + gs;
    }
  }

  function ContentLength(fs: seq<Field>): nat {
    match GetHeader(fs, CONTENT_LENGTH)
    case None => 0
    case Some(v) => match ParseUnsigned(v, U64) case None => 0 case Some(n) => n
  }

  /** The body dispatch hands on: at most Content-Length octets of what follows the head. */
  function BodyOf(raw: Bytes, head: Head): Bytes {
    var rest := Drop(raw, head.bodyOffset);
    rest[..Min(|rest|, ContentLength(head.fields))]
  }

  function RequestLineText(verb: Bytes, uri: Bytes, version: Bytes): Bytes { verb + [SP] + (uri + [SP] + version) }

  function LineText(verb: Bytes, uri: Bytes): Bytes { RequestLineText(verb, uri, VERSION) }

  function RequestBytes(verb: Bytes, uri: Bytes, fs: seq<Field>, body: Bytes): Bytes {
    LineText(verb, uri) + CRLF + (Render(fs) + (CRLF + body))
  }

  ghost predicate CleanLine(verb: Bytes, uri: Bytes, version: Bytes) {
    SP !in verb && SP !in version && NoCrlf(verb) && NoCrlf(uri) && NoCrlf(version)
  }

  ghost predicate CleanRequest(verb: Bytes, uri: Bytes, fs: seq<Field>) {
    SP !in verb && NoCrlf(verb) && NoCrlf(uri) && forall f | f in fs :: Clean(f)
  }

  predicate ShortLine(verb: Bytes, uri: Bytes, version: Bytes) {
    |verb| <= MAX_METHOD_LEN && |uri| <= MAX_URI_LEN && |version| <= MAX_VERSION_LEN
  }

  /** The limits on a request; the body counts towards the header buffer. */
  ghost predicate WithinLimits(verb: Bytes, uri: Bytes, fs: seq<Field>, body: Bytes) {
    && |verb| <= MAX_METHOD_LEN && |uri| <= MAX_URI_LEN && Fits(fs, 0, 0)
    && |Render(fs)| + 2 + |body| <= MAX_HEADER_BUFFER
  }

  lemma VersionText()
    ensures |VERSION| == 8 && SP !in VERSION && CR !in VERSION && LF !in VERSION
  {
    forall i | 0 <= i < 8 ensures VERSION[i] != SP && VERSION[i] != CR && VERSION[i] != LF {
      assert VERSION[i] == "HTTP/1.1"[i] as int % 256;
    }
  }

  lemma SplitsAtSpaces(verb: Bytes, uri: Bytes, version: Bytes)
    requires SP !in verb && SP !in version
    ensures var r := SplitRequestLine(RequestLineText(verb, uri, version));
      if ShortLine(verb, uri, version) then r == Ok(RequestLine(verb, uri, version)) else r.Err?
  {
    var rest := uri + [SP] + version;
    var line := verb + [SP] + rest;
    FirstOf(SP, verb, rest);
    LastOf(SP, uri, version);
    CutAppend(verb, [SP] + rest);
    CutAppend(verb + [SP], rest);
    CutAppend(uri, [SP] + version);
    CutAppend(uri + [SP], version);
    Assoc(verb, [SP], rest);
    Assoc(uri, [SP], version);
    hide IndexOf, LastIndexOf, SplitRequestLine;
    SplitIs(line, rest, |verb|, |uri|);
  }

  lemma SplitIs(line: Bytes, rest: Bytes, sp1: nat, sp2: nat)
    requires IndexOf(SP, line) == Some(sp1) && rest == line[sp1 + 1..] && LastIndexOf(SP, rest) == Some(sp2)
    ensures var r := SplitRequestLine(line);
      if sp1 <= MAX_METHOD_LEN && sp2 <= MAX_URI_LEN && |rest| - sp2 - 1 <= MAX_VERSION_LEN
      then r == Ok(RequestLine(line[..sp1], rest[..sp2], rest[sp2 + 1..])) else r.Err?
  {
    hide IndexOf, LastIndexOf;
  }

  lemma LineHasNoCrlf(verb: Bytes, uri: Bytes, version: Bytes)
    requires NoCrlf(verb) && NoCrlf(uri) && NoCrlf(version)
    ensures NoCrlf(RequestLineText(verb, uri, version))
  {
    SpaceHasNoCrlf();
    hide NoCrlf;
    JoinHasNoCrlf(uri, [SP]);
    JoinHasNoCrlf(uri + [SP], version);
    JoinHasNoCrlf(verb, [SP]);
    JoinHasNoCrlf(verb + [SP], uri + [SP] + version);
  }

  lemma SpaceHasNoCrlf()
    ensures NoCrlf([SP])
  {
  }

  lemma RequestLineReadsBack(verb: Bytes, uri: Bytes, version: Bytes, rest: Bytes)
    requires CleanLine(verb, uri, version)
    ensures var line := RequestLineText(verb, uri, version);
      var r := ParseRequestLine(line + CRLF + rest);
      if ShortLine(verb, uri, version) then r == Ok((RequestLine(verb, uri, version), |line| + 2)) else r.Err?
  {
    hide NoCrlf, SplitRequestLine, FindCrlfScalar, RequestLineText;
    var line := RequestLineText(verb, uri, version);
    LineHasNoCrlf(verb, uri, version);
    SplitsAtSpaces(verb, uri, version);
    CrlfAfter(line, rest);
    Assoc(line, CRLF, rest);
    CutAppend(line, CRLF + rest);
  }

  /** A request in any spelling: any version, and any blanks around the names and the values. */
  function SpelledRequest(verb: Bytes, uri: Bytes, version: Bytes, ss: seq<Spelling>, body: Bytes): Bytes {
    RequestLineText(verb, uri, version) + CRLF + (SpelledLines(ss) + (CRLF + body))
  }

  ghost predicate SpelledFits(verb: Bytes, uri: Bytes, version: Bytes, ss: seq<Spelling>, body: Bytes) {
    && ShortLine(verb, uri, version) && Fits(FieldsOf(ss), 0, 0)
    && |SpelledLines(ss)| + 2 + |body| <= MAX_HEADER_BUFFER
  }

  /** A request of clean parts, in any spelling, parses back to the same method, URI, version and header
      list, in order and without the blanks, with exactly the body left over. It does so if and only if
      it is within the limits. */
  lemma SpelledRequestReadsBack(verb: Bytes, uri: Bytes, version: Bytes, ss: seq<Spelling>, body: Bytes)
    requires CleanLine(verb, uri, version) && forall s | s in ss :: CleanSpelling(s)
    ensures var raw := SpelledRequest(verb, uri, version, ss, body);
      var head := Head(RequestLine(verb, uri, version), FieldsOf(ss), |raw| - |body|);
      && Drop(raw, head.bodyOffset) == body
      && if SpelledFits(verb, uri, version, ss, body) then ParseHead(raw) == Ok(head) else ParseHead(raw).Err?
  {
    var line, lines := RequestLineText(verb, uri, version), SpelledLines(ss);
    hide SpelledLines, RequestLineText, ParseHead, ParseRequestLine, FieldsFrom, Fits, CleanSpelling, NoCrlf;
    BytesLayout(line, lines, body);
    RequestLineReadsBack(verb, uri, version, lines + (CRLF + body));
    SpelledReadsBack(ss, body, 0, 0);
    HeadOfParts(line + CRLF + (lines + (CRLF + body)), RequestLine(verb, uri, version), |line| + 2,
      lines + (CRLF + body), FieldsOf(ss), |lines| + 2);
  }

  lemma RequestIsSpelled(verb: Bytes, uri: Bytes, fs: seq<Field>, body: Bytes)
    ensures RequestBytes(verb, uri, fs, body) == SpelledRequest(verb, uri, VERSION, AllWritten(fs), body)
    ensures WithinLimits(verb, uri, fs, body) <==> SpelledFits(verb, uri, VERSION, AllWritten(fs), body)
  {
    VersionText();
    AllWrittenAreSpelled(fs);
    hide SpelledLines, RequestLineText, Fits, Render, VERSION, AllWritten;
  }

  lemma RequestIsClean(verb: Bytes, uri: Bytes, fs: seq<Field>)
    requires CleanRequest(verb, uri, fs)
    ensures CleanLine(verb, uri, VERSION) && forall s | s in AllWritten(fs) :: CleanSpelling(s)
  {
    VersionText();
    VersionHasNoCrlf();
    CleanFieldsAreClean(fs);
    hide NoCrlf, Clean, CleanSpelling, VERSION, AllWritten;
  }

  /** A request written from clean parts parses back to the same method, URI and header list, in
      order, with exactly the body left over. It does so if and only if it is within the limits. */
  lemma RequestReadsBack(verb: Bytes, uri: Bytes, fs: seq<Field>, body: Bytes)
    requires CleanRequest(verb, uri, fs)
    ensures var raw := RequestBytes(verb, uri, fs, body);
      var head := Head(RequestLine(verb, uri, VERSION), fs, |raw| - |body|);
      && Drop(raw, head.bodyOffset) == body
      && (WithinLimits(verb, uri, fs, body) ==> ParseHead(raw) == Ok(head))
      && (!WithinLimits(verb, uri, fs, body) ==> ParseHead(raw).Err?)
  {
    hide *;
    RequestIsClean(verb, uri, fs);
    RequestIsSpelled(verb, uri, fs, body);
    AllWrittenAreSpelled(fs);
    SpelledRequestReadsBack(verb, uri, VERSION, AllWritten(fs), body);
  }

  lemma CleanFieldsAreClean(fs: seq<Field>)
    requires forall f | f in fs :: Clean(f)
    ensures forall s | s in AllWritten(fs) :: CleanSpelling(s)
  {
    hide Clean;
  }

  lemma VersionHasNoCrlf()
    ensures NoCrlf(VERSION)
  {
    VersionText();
    forall q: nat ensures !CrlfAt(VERSION, q) {
      if q < |VERSION| { assert VERSION[q] in VERSION; }
    }
  }

  lemma BytesLayout(line: Bytes, fields: Bytes, body: Bytes)
    ensures var raw := line + CRLF + (fields + (CRLF + body));
      && raw[|line| + 2..] == fields + (CRLF + body)
      && |raw| - |body| == |line| + 2 + (|fields| + 2)
      && Drop(raw, |line| + 2 + (|fields| + 2)) == body
  {
    CutAppend(line + CRLF, fields + (CRLF + body));
    Assoc(fields, CRLF, body);
    Assoc(line + CRLF, fields + CRLF, body);
    CutAppend(line + CRLF + (fields + CRLF), body);
  }

  lemma HeadOfParts(raw: Bytes, rl: RequestLine, n: nat, rest: Bytes, fs: seq<Field>, m: nat)
    requires n <= |raw| && raw[n..] == rest
    requires ParseRequestLine(raw) == Ok((rl, n)) || ParseRequestLine(raw).Err?
    requires FieldsFrom(rest, 0, 0) == Ok((fs, m)) || FieldsFrom(rest, 0, 0).Err?
    ensures ParseHead(raw) == Ok(Head(rl, fs, n + m)) || ParseHead(raw).Err?
    ensures ParseHead(raw).Ok?
       <==> ParseRequestLine(raw).Ok? && FieldsFrom(rest, 0, 0).Ok? && |rest| <= MAX_HEADER_BUFFER
  {
    hide ParseRequestLine, FieldsFrom;
  }

  /** Dispatch then recovers the body exactly when the first Content-Length announces enough. */
  lemma BodyReadsBack(verb: Bytes, uri: Bytes, fs: seq<Field>, body: Bytes)
    requires CleanRequest(verb, uri, fs) && ParseHead(RequestBytes(verb, uri, fs, body)).Ok?
    ensures var raw := RequestBytes(verb, uri, fs, body);
      BodyOf(raw, ParseHead(raw).value) == body <==> body == [] || ContentLength(fs) >= |body|
  {
    RequestReadsBack(verb, uri, fs, body);
    hide ParseHead, RequestBytes, ContentLength;
    assert body[..|body|] == body;
  }
}

/** The two writers of HTTP/1.1 requests: the reverse proxy and the HTTP/2 bridge. */
module RequestWriters {
  import opened Common
  import opened Ascii
  import opened CrlfScan
  import opened HttpHead

  const HOST: Bytes := Text("Host")
  const CONTENT_LENGTH_NAME: Bytes := Text("Content-Length")
  const XFF_NAME: Bytes := Text("X-Forwarded-For")
  const XFF: Bytes := Text("x-forwarded-for")

  const HOP_BY_HOP: seq<Bytes> := [
    Text("connection"), Text("keep-alive"), Text("proxy-authenticate"), Text("proxy-authorization"),
    Text("te"), Text("trailers"), Text("transfer-encoding"), Text("upgrade")
  ]
  const NOT_IN_HTTP2: seq<Bytes> := [
    Text("connection"), Text("transfer-encoding"), Text("upgrade"), Text("keep-alive")
  ]

  predicate HasName(fs: seq<Field>, name: Bytes) { exists f :: f in fs && Lower(f.name) == name }

  /** The headers of a proxied request: Host, the client's end-to-end headers, the configured ones,
      X-Forwarded-For when the client sent one and the configuration does not set it, and last the
      body length and the connection option. */
  function ProxyFields(host: Bytes, headers: seq<Field>, setHeaders: seq<Field>, bodyLen: nat): seq<Field> {
    [Field(HOST, host)] + Forwarded(headers, HOP_BY_HOP) + setHeaders + ForwardedFor(headers, setHeaders)
      + [Field(CONTENT_LENGTH_NAME, Decimal(bodyLen)), Field(CONNECTION, KEEP_ALIVE)]
  }

  function ForwardedFor(headers: seq<Field>, setHeaders: seq<Field>): seq<Field> {
    match GetHeader(headers, XFF)
    case None => []
    case Some(v) => if HasName(setHeaders, XFF) || v == [] then [] else [Field(XFF_NAME, v)]
  }

  method PushFields(req: Bytes, fs: seq<Field>, skip: seq<Bytes>, ghost start: Bytes, ghost done: seq<Field>)
    returns (out: Bytes)
    requires req == start + Render(done)
    ensures out == start + Render(done + Forwarded(fs, skip))
  {
    hide FieldText, Render;
    out := req;
    ghost var sofar := done;
    assert fs[0..] == fs;
    for i := 0 to |fs|
      invariant out == start + Render(sofar)
      invariant sofar + Forwarded(fs[i..], skip) == done + Forwarded(fs, skip)
    {
      assert fs[i..][0] == fs[i] && fs[i..][1..] == fs[i + 1..];
      if NameIn(fs[i].name, skip) {
        assert [] + Forwarded(fs[i + 1..], skip) == Forwarded(fs[i + 1..], skip);
        continue;
      }
      out := out + (FieldText(fs[i]) + CRLF);
      PushField(start, sofar, fs[i]);
      Assoc(sofar, [fs[i]], Forwarded(fs[i + 1..], skip));
      sofar := sofar + [fs[i]];
    }
    assert fs[|fs|..] == [] && sofar + [] == sofar;
  }

  lemma {:induction false} NothingSkipped(fs: seq<Field>)
    ensures Forwarded(fs, []) == fs
  {
    if fs != [] { NothingSkipped(fs[1..]); }
  }

  method BuildProxyRequest(host: Bytes, verb: Bytes, path: Bytes, headers: seq<Field>, setHeaders: seq<Field>,
                           body: Bytes)
    returns (out: Bytes)
    ensures out == RequestBytes(verb, path, ProxyFields(host, headers, setHeaders, |body|), body)
  {
    hide FieldText, Render, Forwarded, HasName, GetHeader;
    var start := LineText(verb, path) + CRLF;
    var hostField := Field(HOST, host);
    assert start + Render([]) == start by { EmptyRender(); }
    out := start + (FieldText(hostField) + CRLF);
    PushField(start, [], hostField);
    assert [] + [hostField] == [hostField];
    out := PushFields(out, headers, HOP_BY_HOP, start, [hostField]);
    ghost var done := [hostField] + Forwarded(headers, HOP_BY_HOP);
    NothingSkipped(setHeaders);
    out := PushFields(out, setHeaders, [], start, done);
    done := done + setHeaders;
    var existing := GetHeader(headers, XFF);
    if existing.Some? && !HasName(setHeaders, XFF) && existing.value != [] {
      var f := Field(XFF_NAME, existing.value);
      out := out + (FieldText(f) + CRLF);
      PushField(start, done, f);
      done := done + [f];
    }
    assert done == [hostField] + Forwarded(headers, HOP_BY_HOP) + setHeaders + ForwardedFor(headers, setHeaders);
    var length, connection := Field(CONTENT_LENGTH_NAME, Decimal(|body|)), Field(CONNECTION, KEEP_ALIVE);
    out := out + (FieldText(length) + CRLF);
    PushField(start, done, length);
    out := out + (FieldText(connection) + CRLF);
    PushField(start, done + [length], connection);
    assert done + [length] + [connection] == done + [length, connection];
    out := out + CRLF;
    out := out + body;
    Regroup(start, Render(done + [length, connection]), body);
  }

  lemma EmptyRender()
    ensures Render([]) == []
  {
  }

  lemma Regroup(start: Bytes, fields: Bytes, body: Bytes)
    ensures start + fields + CRLF + body == start + (fields + (CRLF + body))
  {
  }

  // ---- The HTTP/2 bridge ----

  /** A header of an HTTP/2 request; the value is `None` when it is not visible ASCII. */
  datatype H2Header = H2Header(name: Bytes, value: Option<Bytes>)

  predicate Bridged(h: H2Header) {
    !([COLON] <= h.name) && !NameIn(h.name, NOT_IN_HTTP2) && h.value.Some?
  }

  function BridgedFields(hs: seq<H2Header>): (r: seq<Field>)
    ensures forall f | f in r :: exists h :: h in hs && Bridged(h) && f == Field(h.name, h.value.value)
  {
    if hs == [] then []
    else (if Bridged(hs[0]) then [Field(hs[0].name, hs[0].value.value)] else []) + BridgedFields(hs[1..])
  }

  function BridgeFields(authority: Option<Bytes>, hs: seq<H2Header>, bodyLen: nat): seq<Field> {
    (match authority case None => [] case Some(a) => [Field(HOST, a)])
      + BridgedFields(hs)
      + (if bodyLen == 0 then [] else [Field(CONTENT_LENGTH_NAME, Decimal(bodyLen))])
  }

  /** The DATA frames joined, then the synthetic request. */
  method BridgeRequest(verb: Bytes, pathQuery: Option<Bytes>, authority: Option<Bytes>, hs: seq<H2Header>,
                       frames: seq<Bytes>)
    returns (raw: Bytes)
    ensures var uri := match pathQuery case None => [47] case Some(p) => p;
      var body := Concat(frames);
      raw == RequestBytes(verb, uri, BridgeFields(authority, hs, |body|), body)
  {
    hide FieldText, Render, Bridged;
    var body: Bytes := [];
    assert frames[0..] == frames && [] + Concat(frames) == Concat(frames);
    for i := 0 to |frames|
      invariant body + Concat(frames[i..]) == Concat(frames)
    {
      assert frames[i..][0] == frames[i] && frames[i..][1..] == frames[i + 1..];
      Assoc(body, frames[i], Concat(frames[i + 1..]));
      body := body + frames[i];
    }
    assert frames[|frames|..] == [] && body + [] == body;
    var uri := match pathQuery case None => [47] case Some(p) => p;
    var start := LineText(verb, uri) + CRLF;
    EmptyRender();
    assert start + [] == start;
    raw := start;
    ghost var done: seq<Field> := [];
    if authority.Some? {
      raw := raw + (FieldText(Field(HOST, authority.value)) + CRLF);
      PushField(start, [], Field(HOST, authority.value));
      assert [] + [Field(HOST, authority.value)] == [Field(HOST, authority.value)];
      done := [Field(HOST, authority.value)];
    }
    ghost var first := done;
    assert hs[0..] == hs;
    for i := 0 to |hs|
      invariant raw == start + Render(done)
      invariant done + BridgedFields(hs[i..]) == first + BridgedFields(hs)
    {
      assert hs[i..][0] == hs[i] && hs[i..][1..] == hs[i + 1..];
      if Bridged(hs[i]) {
        var f := Field(hs[i].name, BridgedValue(hs[i]));
        raw := raw + (FieldText(f) + CRLF);
        PushField(start, done, f);
        Assoc(done, [f], BridgedFields(hs[i + 1..]));
        done := done + [f];
      } else {
        assert [] + BridgedFields(hs[i + 1..]) == BridgedFields(hs[i + 1..]);
      }
    }
    assert hs[|hs|..] == [] && done + [] == done;
    if body != [] {
      var length := Field(CONTENT_LENGTH_NAME, Decimal(|body|));
      raw := raw + (FieldText(length) + CRLF);
      PushField(start, done, length);
      done := done + [length];
    }
    assert done == BridgeFields(authority, hs, |body|);
    raw := raw + CRLF;
    raw := raw + body;
    Regroup(start, Render(done), body);
  }

  function BridgedValue(h: H2Header): Bytes
    requires Bridged(h)
  {
    h.value.value
  }

  // ---- Both writers read back ----

  lemma TextIsName(s: string)
    requires forall i | 0 <= i < |s| :: s[i] == '-' || 'A' <= s[i] <= 'Z' || 'a' <= s[i] <= 'z'
    ensures CleanName(Text(s))
  {
    var name := Text(s);
    forall i | 0 <= i < |name| ensures name[i] !in {SP, TAB, COLON, CR, LF} {
      assert name[i] == s[i] as int % 256;
    }
    forall q: nat ensures !CrlfAt(name, q) {}
  }

  ghost predicate CleanName(name: Bytes) { NoCrlf(name) && forall i | 0 <= i < |name| :: name[i] !in {SP, TAB, COLON} }

  lemma NamesAreClean()
    ensures CleanName(HOST) && CleanName(CONTENT_LENGTH_NAME) && CleanName(CONNECTION) && CleanName(XFF_NAME)
  {
    hide CleanName, Text;
    TextIsName("Host");
    TextIsName("Content-Length");
    TextIsName("Connection");
    TextIsName("X-Forwarded-For");
  }

  lemma LiteralIsClean(name: Bytes, value: Bytes)
    requires name == HOST || name == CONTENT_LENGTH_NAME || name == CONNECTION || name == XFF_NAME
    requires Trimmed(value, BLANK) && NoCrlf(value)
    ensures Clean(Field(name, value))
  {
    NamesAreClean();
    hide HOST, CONTENT_LENGTH_NAME, CONNECTION, XFF_NAME;
    assert CleanName(name);
  }

  lemma DecimalIsClean(n: nat)
    ensures Trimmed(Decimal(n), BLANK) && NoCrlf(Decimal(n))
  {
    var d := Decimal(n);
    hide Decimal;
    assert IsDigit(d[0]) && IsDigit(d[|d| - 1]);
    forall q: nat ensures !CrlfAt(d, q) { if q < |d| { assert IsDigit(d[q]); } }
  }

  lemma KeepAliveIsClean()
    ensures Trimmed(KEEP_ALIVE, BLANK) && NoCrlf(KEEP_ALIVE)
  {
    forall i | 0 <= i < |KEEP_ALIVE| ensures KEEP_ALIVE[i] !in {SP, TAB, CR, LF} {
      assert KEEP_ALIVE[i] == "keep-alive"[i] as int % 256;
    }
    forall q: nat ensures !CrlfAt(KEEP_ALIVE, q) {}
  }

  lemma {:induction false} FirstHeaderIsListed(fs: seq<Field>, name: Bytes)
    ensures match GetHeader(fs, name)
      case None => forall f | f in fs :: Lower(f.name) != name
      case Some(v) => exists f :: f in fs && f.value == v && Lower(f.name) == name
  {
    if fs != [] && Lower(fs[0].name) != name {
      FirstHeaderIsListed(fs[1..], name);
      assert forall f | f in fs :: f == fs[0] || f in fs[1..];
    } else if fs != [] {
      assert fs[0] in fs;
    }
  }

  ghost predicate CleanText(s: Bytes) { Trimmed(s, BLANK) && NoCrlf(s) }

  lemma ProxyFieldsAreClean(host: Bytes, headers: seq<Field>, setHeaders: seq<Field>, bodyLen: nat)
    requires CleanText(host) && (forall f | f in headers + setHeaders :: Clean(f))
    ensures forall f | f in ProxyFields(host, headers, setHeaders, bodyLen) :: Clean(f)
  {
    hide Decimal, Forwarded;
    LiteralIsClean(HOST, host);
    DecimalIsClean(bodyLen);
    LiteralIsClean(CONTENT_LENGTH_NAME, Decimal(bodyLen));
    KeepAliveIsClean();
    LiteralIsClean(CONNECTION, KEEP_ALIVE);
    FirstHeaderIsListed(headers, XFF);
    if ForwardedFor(headers, setHeaders) != [] {
      var v := GetHeader(headers, XFF).value;
      var f :| f in headers && f.value == v;
      assert f in headers + setHeaders;
      LiteralIsClean(XFF_NAME, v);
    }
    hide Clean;
  }

  /** A request the proxy wrote is read back by the head parser: method, path and emitted header list
      in order, and the rest is exactly the body; if and only if it is within the parser's limits. */
  lemma ProxyRequestReadsBack(host: Bytes, verb: Bytes, path: Bytes, headers: seq<Field>, setHeaders: seq<Field>,
                              body: Bytes)
    requires SP !in verb && NoCrlf(verb) && NoCrlf(path) && CleanText(host)
    requires forall f | f in headers + setHeaders :: Clean(f)
    ensures var fs := ProxyFields(host, headers, setHeaders, |body|);
      var raw := RequestBytes(verb, path, fs, body);
      var head := Head(RequestLine(verb, path, VERSION), fs, |raw| - |body|);
      && Drop(raw, head.bodyOffset) == body
      && (WithinLimits(verb, path, fs, body) ==> ParseHead(raw) == Ok(head))
      && (!WithinLimits(verb, path, fs, body) ==> ParseHead(raw).Err?)
  {
    hide Clean, NoCrlf, ProxyFields, RequestBytes, WithinLimits, ParseHead;
    ProxyFieldsAreClean(host, headers, setHeaders, |body|);
    RequestReadsBack(verb, path, ProxyFields(host, headers, setHeaders, |body|), body);
  }

  ghost predicate CleanBridge(authority: Option<Bytes>, hs: seq<H2Header>) {
    && (authority.Some? ==> CleanText(authority.value))
    && forall h | h in hs && h.value.Some? :: Clean(Field(h.name, h.value.value))
  }

  lemma BridgeFieldsAreClean(authority: Option<Bytes>, hs: seq<H2Header>, bodyLen: nat)
    requires CleanBridge(authority, hs)
    ensures forall f | f in BridgeFields(authority, hs, bodyLen) :: Clean(f)
  {
    hide Decimal, BridgedFields;
    if authority.Some? { LiteralIsClean(HOST, authority.value); }
    DecimalIsClean(bodyLen);
    LiteralIsClean(CONTENT_LENGTH_NAME, Decimal(bodyLen));
    hide Clean;
  }

  /** The same for the HTTP/2 bridge. */
  lemma BridgeRequestReadsBack(verb: Bytes, uri: Bytes, authority: Option<Bytes>, hs: seq<H2Header>, body: Bytes)
    requires SP !in verb && NoCrlf(verb) && NoCrlf(uri) && CleanBridge(authority, hs)
    ensures var fs := BridgeFields(authority, hs, |body|);
      var raw := RequestBytes(verb, uri, fs, body);
      var head := Head(RequestLine(verb, uri, VERSION), fs, |raw| - |body|);
      && Drop(raw, head.bodyOffset) == body
      && (WithinLimits(verb, uri, fs, body) ==> ParseHead(raw) == Ok(head))
      && (!WithinLimits(verb, uri, fs, body) ==> ParseHead(raw).Err?)
  {
    hide Clean, NoCrlf, BridgeFields, RequestBytes, WithinLimits, ParseHead;
    BridgeFieldsAreClean(authority, hs, |body|);
    RequestReadsBack(verb, uri, BridgeFields(authority, hs, |body|), body);
  }

  /** Without a Content-Length of the client's own, the length the bridge adds lets dispatch recover
      the whole body; otherwise the client's first one decides. */
  lemma BridgeBodyLength(authority: Option<Bytes>, hs: seq<H2Header>, bodyLen: nat)
    requires bodyLen < U64
    ensures ContentLength(BridgeFields(authority, hs, bodyLen))
         == if GetHeader(BridgedFields(hs), CONTENT_LENGTH).Some? then ContentLength(BridgedFields(hs)) else bodyLen
  {
    var host: seq<Field> := match authority case None => [] case Some(a) => [Field(HOST, a)];
    var length: seq<Field> := if bodyLen == 0 then [] else [Field(CONTENT_LENGTH_NAME, Decimal(bodyLen))];
    assert |HOST| == 4 && |CONTENT_LENGTH| == 14;
    assert GetHeader(host, CONTENT_LENGTH) == None;
    DecimalReadsBack(bodyLen, U64);
    LengthNameFolds();
    GetHeaderAppend(host, BridgedFields(hs), CONTENT_LENGTH);
    GetHeaderAppend(host + BridgedFields(hs), length, CONTENT_LENGTH);
    hide Decimal, BridgedFields, ParseUnsigned;
  }

  // ---- The body of a proxied request ----

  lemma {:induction false} ForwardedKeeps(fs: seq<Field>, skip: seq<Bytes>, name: Bytes)
    requires name !in skip
    ensures GetHeader(Forwarded(fs, skip), name) == GetHeader(fs, name)
  {
    if fs != [] {
      ForwardedKeeps(fs[1..], skip, name);
      var first: seq<Field> := if NameIn(fs[0].name, skip) then [] else [fs[0]];
      GetHeaderAppend(first, Forwarded(fs[1..], skip), name);
      OnlyHeader(fs[0], name);
    }
  }

  lemma OnlyHeader(f: Field, name: Bytes)
    ensures GetHeader([f], name) == if Lower(f.name) == name then Some(f.value) else None
  {
    assert [f][1..] == [];
  }

  lemma LengthIsEndToEnd()
    ensures CONTENT_LENGTH !in HOP_BY_HOP
  {
    assert forall h | h in HOP_BY_HOP :: |h| != 14;
  }

  lemma NoLengthIn(headers: seq<Field>, setHeaders: seq<Field>)
    ensures GetHeader(ForwardedFor(headers, setHeaders), CONTENT_LENGTH) == None
  {
    hide HasName;
    var v := GetHeader(headers, XFF);
    assert |Lower(XFF_NAME)| == 15;
    if v.Some? { OnlyHeader(Field(XFF_NAME, v.value), CONTENT_LENGTH); }
    hide GetHeader;
  }

  /** The first Content-Length of a proxied request: the client's own, which is forwarded, else one from the
      configuration, and only then the length the proxy adds. */
  lemma ProxyBodyLength(host: Bytes, headers: seq<Field>, setHeaders: seq<Field>, bodyLen: nat)
    requires bodyLen < U64
    ensures ContentLength(ProxyFields(host, headers, setHeaders, bodyLen))
         == if GetHeader(headers, CONTENT_LENGTH).Some? then ContentLength(headers)
            else if GetHeader(setHeaders, CONTENT_LENGTH).Some? then ContentLength(setHeaders) else bodyLen
  {
    var first := [Field(HOST, host)];
    var tail := [Field(CONTENT_LENGTH_NAME, Decimal(bodyLen)), Field(CONNECTION, KEEP_ALIVE)];
    assert |Lower(HOST)| == 4;
    OnlyHeader(Field(HOST, host), CONTENT_LENGTH);
    LengthNameFolds();
    assert GetHeader(tail, CONTENT_LENGTH) == Some(Decimal(bodyLen));
    hide GetHeader, Forwarded, ForwardedFor, Decimal, ParseUnsigned, Lower;
    DecimalReadsBack(bodyLen, U64);
    LengthIsEndToEnd();
    ForwardedKeeps(headers, HOP_BY_HOP, CONTENT_LENGTH);
    NoLengthIn(headers, setHeaders);
    var ours := first + Forwarded(headers, HOP_BY_HOP);
    GetHeaderAppend(first, Forwarded(headers, HOP_BY_HOP), CONTENT_LENGTH);
    GetHeaderAppend(ours, setHeaders, CONTENT_LENGTH);
    GetHeaderAppend(ours + setHeaders, ForwardedFor(headers, setHeaders), CONTENT_LENGTH);
    GetHeaderAppend(ours + setHeaders + ForwardedFor(headers, setHeaders), tail, CONTENT_LENGTH);
  }

  /** Dispatch recovers the body of a proxied request exactly when the body is empty, or neither the client
      nor the configuration sent a Content-Length, or the first one sent announces at least the body. */
  lemma ProxyBodyReadsBack(host: Bytes, verb: Bytes, path: Bytes, headers: seq<Field>, setHeaders: seq<Field>,
                           body: Bytes)
    requires SP !in verb && NoCrlf(verb) && NoCrlf(path) && CleanText(host)
    requires forall f | f in headers + setHeaders :: Clean(f)
    requires |body| < U64 && WithinLimits(verb, path, ProxyFields(host, headers, setHeaders, |body|), body)
    ensures var raw := RequestBytes(verb, path, ProxyFields(host, headers, setHeaders, |body|), body);
      && ParseHead(raw).Ok?
      && (BodyOf(raw, ParseHead(raw).value) == body <==>
            || body == []
            || (if GetHeader(headers, CONTENT_LENGTH).Some? then ContentLength(headers) >= |body|
                else GetHeader(setHeaders, CONTENT_LENGTH).Some? ==> ContentLength(setHeaders) >= |body|))
  {
    hide Clean, NoCrlf, ProxyFields, RequestBytes, WithinLimits, ParseHead, BodyOf, ContentLength, GetHeader;
    ProxyFieldsAreClean(host, headers, setHeaders, |body|);
    ProxyRequestReadsBack(host, verb, path, headers, setHeaders, body);
    BodyReadsBack(verb, path, ProxyFields(host, headers, setHeaders, |body|), body);
    ProxyBodyLength(host, headers, setHeaders, |body|);
  }

  lemma LengthNameFolds()
    ensures Lower(CONTENT_LENGTH_NAME) == CONTENT_LENGTH
  {
    forall i | 0 <= i < 14 ensures Lower(CONTENT_LENGTH_NAME)[i] == CONTENT_LENGTH[i] {
      assert CONTENT_LENGTH_NAME[i] == "Content-Length"[i] as int % 256;
      assert CONTENT_LENGTH[i] == "content-length"[i] as int % 256;
    }
  }
}

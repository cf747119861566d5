/** What the other side of a hop reads: for every header name, the values that arrive, in order. */
module ForwardedHeaders {
  import opened Common
  import opened Ascii
  import opened HttpHead
  import opened RequestWriters
  import P = ProxyResponse

  /** The values of all fields of a name, given in lower case. */
  function All(fs: seq<Field>, name: Bytes): seq<Bytes> {
    if fs == [] then [] else (if Lower(fs[0].name) == name then [fs[0].value] else []) + All(fs[1..], name)
  }

  lemma {:induction false} AllAppend(fs: seq<Field>, gs: seq<Field>, name: Bytes)
    ensures All(fs + gs, name) == All(fs, name) + All(gs, name)
  {
    hide Lower;
    if fs == [] {
      assert fs + gs == gs && [] + All(gs, name) == All(gs, name);
    } else {
      AllAppend(fs[1..], gs, name);
      assert (fs + gs)[1..] == fs[1..] + gs;
      Assoc(if Lower(fs[0].name) == name then [fs[0].value] else [], All(fs[1..], name), All(gs, name));
    }
  }

  lemma AllOfOne(f: Field, name: Bytes)
    ensures All([f], name) == if Lower(f.name) == name then [f.value] else []
  {
    assert [f][1..] == [];
    hide Lower;
  }

  /** The first value is the one that a lookup finds. */
  lemma {:induction false} FirstOfAll(fs: seq<Field>, name: Bytes)
    ensures GetHeader(fs, name) == if All(fs, name) == [] then None else Some(All(fs, name)[0])
  {
    hide Lower;
    if fs != [] { FirstOfAll(fs[1..], name); }
  }

  /** Forwarding takes out the fields of the names to skip and leaves those of all other names. */
  lemma {:induction false} AllForwarded(fs: seq<Field>, skip: seq<Bytes>, name: Bytes)
    ensures All(Forwarded(fs, skip), name) == if name in skip then [] else All(fs, name)
  {
    hide Lower;
    if fs != [] {
      AllForwarded(fs[1..], skip, name);
      var first: seq<Field> := if NameIn(fs[0].name, skip) then [] else [fs[0]];
      AllAppend(first, Forwarded(fs[1..], skip), name);
      AllOfOne(fs[0], name);
    }
  }

  // ---- Hop-by-hop headers ----

  /** The hop-by-hop headers of section 13.5.1 of RFC 2616, as it spells them. */
  const STANDARD: seq<string> := [
    "Connection", "Keep-Alive", "Proxy-Authenticate", "Proxy-Authorization", "TE", "Trailers",
    "Transfer-Encoding", "Upgrade"]

  predicate IsHopByHop(name: Bytes) { exists i :: 0 <= i < |STANDARD| && Lower(Text(STANDARD[i])) == name }

  lemma LowersTo(s: string, low: string)
    requires |s| == |low| && forall i | 0 <= i < |s| :: LowerByte(s[i] as int % 256) == low[i] as int % 256
    ensures Lower(Text(s)) == Text(low)
  {
  }

  lemma ShortNames()
    ensures Lower(Text("Connection")) == Text("connection") && Lower(Text("Keep-Alive")) == Text("keep-alive")
    ensures Lower(Text("TE")) == Text("te") && Lower(Text("Trailers")) == Text("trailers")
    ensures Lower(Text("Upgrade")) == Text("upgrade")
  {
    hide Lower, Text;
    LowersTo("Connection", "connection");
    LowersTo("Keep-Alive", "keep-alive");
    LowersTo("TE", "te");
    LowersTo("Trailers", "trailers");
    LowersTo("Upgrade", "upgrade");
  }

  lemma LongNames()
    ensures Lower(Text("Proxy-Authenticate")) == Text("proxy-authenticate")
    ensures Lower(Text("Proxy-Authorization")) == Text("proxy-authorization")
    ensures Lower(Text("Transfer-Encoding")) == Text("transfer-encoding")
  {
    hide Lower, Text;
    LowersTo("Proxy-Authenticate", "proxy-authenticate");
    LowersTo("Proxy-Authorization", "proxy-authorization");
    LowersTo("Transfer-Encoding", "transfer-encoding");
  }

  lemma StandardInLowerCase()
    ensures |STANDARD| == |HOP_BY_HOP| && forall i | 0 <= i < |STANDARD| :: Lower(Text(STANDARD[i])) == HOP_BY_HOP[i]
  {
    hide Lower, Text;
    ShortNames();
    LongNames();
  }

  lemma HopByHopIs(name: Bytes)
    ensures IsHopByHop(name) <==> name in HOP_BY_HOP
  {
    StandardInLowerCase();
    hide Lower, Text, HOP_BY_HOP;
    if name in HOP_BY_HOP {
      var i :| 0 <= i < |HOP_BY_HOP| && HOP_BY_HOP[i] == name;
      assert Lower(Text(STANDARD[i])) == name;
    }
  }

  // ---- The proxied request ----

  /** The value of X-Forwarded-For that the proxy adds: the client's first one, unless it is empty or the
      configuration sends its own. */
  function AddedFor(clients: seq<Bytes>, configured: seq<Bytes>): seq<Bytes> {
    if clients == [] || clients[0] == [] || configured != [] then [] else [clients[0]]
  }

  /** For every header name, what the next server reads: the host of the upstream, then the client's
      fields unless they are hop-by-hop, the configured ones, and what the proxy adds itself. */
  lemma WhatTheServerReads(host: Bytes, headers: seq<Field>, setHeaders: seq<Field>, bodyLen: nat, name: Bytes)
    ensures All(ProxyFields(host, headers, setHeaders, bodyLen), name)
         == (if name == Text("host") then [host] else [])
          + (if IsHopByHop(name) then [] else All(headers, name))
          + All(setHeaders, name)
          + (if name == Text("x-forwarded-for") then AddedFor(All(headers, name), All(setHeaders, name)) else [])
          + (if name == Text("content-length") then [Decimal(bodyLen)] else [])
          + (if name == Text("connection") then [Text("keep-alive")] else [])
  {
    var length, keep := Field(CONTENT_LENGTH_NAME, Decimal(bodyLen)), Field(CONNECTION, KEEP_ALIVE);
    var added := ForwardedFor(headers, setHeaders);
    OwnNames();
    HopByHopIs(name);
    AllOfOne(Field(HOST, host), name);
    AllOfOne(length, name);
    AllOfOne(keep, name);
    AllForwarded(headers, HOP_BY_HOP, name);
    AddedIs(headers, setHeaders, name);
    hide All, Lower, Text, Decimal, Forwarded, ForwardedFor, IsHopByHop, AddedFor;
    AllAppend([Field(HOST, host)], Forwarded(headers, HOP_BY_HOP), name);
    AllAppend([Field(HOST, host)] + Forwarded(headers, HOP_BY_HOP), setHeaders, name);
    AllAppend([Field(HOST, host)] + Forwarded(headers, HOP_BY_HOP) + setHeaders, added, name);
    AllAppend([Field(HOST, host)] + Forwarded(headers, HOP_BY_HOP) + setHeaders + added, [length, keep], name);
    assert [length, keep] == [length] + [keep];
    AllAppend([length], [keep], name);
    Assoc(All([Field(HOST, host)] + Forwarded(headers, HOP_BY_HOP) + setHeaders + added, name),
      All([length], name), All([keep], name));
  }

  lemma OwnNames()
    ensures Lower(HOST) == Text("host") && Lower(CONTENT_LENGTH_NAME) == Text("content-length")
    ensures Lower(CONNECTION) == Text("connection") && Lower(XFF_NAME) == Text("x-forwarded-for")
    ensures KEEP_ALIVE == Text("keep-alive")
  {
    LowersTo("Host", "host");
    LowersTo("Content-Length", "content-length");
    LowersTo("Connection", "connection");
    LowersTo("X-Forwarded-For", "x-forwarded-for");
    hide Lower, Text;
  }

  lemma AddedIs(headers: seq<Field>, setHeaders: seq<Field>, name: Bytes)
    ensures All(ForwardedFor(headers, setHeaders), name)
      == if name == Text("x-forwarded-for") then AddedFor(All(headers, name), All(setHeaders, name)) else []
  {
    OwnNames();
    FirstOfAll(headers, XFF);
    HasNone(setHeaders, XFF);
    var v := GetHeader(headers, XFF);
    if v.Some? { AllOfOne(Field(XFF_NAME, v.value), name); }
    hide Lower, Text, GetHeader;
  }

  lemma {:induction false} HasNone(fs: seq<Field>, name: Bytes)
    ensures HasName(fs, name) <==> All(fs, name) != []
  {
    hide Lower;
    if fs != [] {
      HasNone(fs[1..], name);
      assert fs == [fs[0]] + fs[1..];
    }
  }

  // ---- The bridged request ----

  function BridgedValues(hs: seq<H2Header>, name: Bytes): seq<Bytes> {
    if hs == [] then []
    else
      (if hs[0].value.Some? && Lower(hs[0].name) == name then [hs[0].value.value] else [])
      + BridgedValues(hs[1..], name)
  }

  /** The connection headers that RFC 9113, section 8.2.2, keeps out of HTTP/2, as far as the bridge drops
      them. */
  predicate NotInHttp2(name: Bytes) {
    name == Text("connection") || name == Text("keep-alive") || name == Text("transfer-encoding")
    || name == Text("upgrade")
  }

  function BridgedOne(h: H2Header): seq<Field> { if Bridged(h) then [Field(h.name, h.value.value)] else [] }

  lemma BridgedName(h: H2Header)
    requires h.value.Some?
    ensures Bridged(h) <==> !([COLON] <= Lower(h.name)) && !NotInHttp2(Lower(h.name))
  {
    PseudoInAnyCase(h.name);
    hide Lower, Text;
  }

  lemma OneBridged(h: H2Header, name: Bytes)
    ensures All(BridgedOne(h), name) == if [COLON] <= name || NotInHttp2(name) then [] else BridgedValues([h], name)
  {
    hide Lower, NotInHttp2;
    assert [h][1..] == [];
    if h.value.Some? {
      BridgedName(h);
      if Bridged(h) { AllOfOne(Field(h.name, h.value.value), name); }
    }
    hide Bridged;
  }

  lemma {:induction false} AllBridged(hs: seq<H2Header>, name: Bytes)
    ensures All(BridgedFields(hs), name)
         == if [COLON] <= name || NotInHttp2(name) then [] else BridgedValues(hs, name)
  {
    hide Lower, NotInHttp2, Bridged, All;
    if hs == [] {
      NothingBridged(name);
    } else {
      AllBridged(hs[1..], name);
      AllAppend(BridgedOne(hs[0]), BridgedFields(hs[1..]), name);
      OneBridged(hs[0], name);
      assert [hs[0]][1..] == [];
    }
  }

  lemma NothingBridged(name: Bytes)
    ensures All(BridgedFields([]), name) == []
  {
  }

  lemma PseudoInAnyCase(name: Bytes)
    ensures [COLON] <= name <==> [COLON] <= Lower(name)
  {
  }

  /** For every header name, what dispatch reads of a request that came over HTTP/2: the authority as the
      host, the client's fields that are neither pseudo-headers nor connection headers and whose values
      are text, and the length of a body. */
  lemma WhatDispatchReads(authority: Option<Bytes>, hs: seq<H2Header>, bodyLen: nat, name: Bytes)
    ensures All(BridgeFields(authority, hs, bodyLen), name)
         == (if name == Text("host") && authority.Some? then [authority.value] else [])
          + (if [COLON] <= name || NotInHttp2(name) then [] else BridgedValues(hs, name))
          + (if name == Text("content-length") && bodyLen > 0 then [Decimal(bodyLen)] else [])
  {
    var host: seq<Field> := match authority case None => [] case Some(a) => [Field(HOST, a)];
    var length: seq<Field> := if bodyLen == 0 then [] else [Field(CONTENT_LENGTH_NAME, Decimal(bodyLen))];
    OwnNames();
    if authority.Some? { AllOfOne(host[0], name); }
    if bodyLen > 0 { AllOfOne(length[0], name); }
    AllBridged(hs, name);
    hide Lower, Text, Decimal, BridgedFields, BridgedValues, NotInHttp2;
    AllAppend(host, BridgedFields(hs), name);
    AllAppend(host + BridgedFields(hs), length, name);
  }

  // ---- The proxied response ----

  /** Of the hop-by-hop headers, the ones that a response loses. */
  predicate LostInResponse(name: Bytes) {
    IsHopByHop(name) && name !in [Text("proxy-authenticate"), Text("proxy-authorization"), Text("trailers")]
  }

  lemma LostInResponseIs(name: Bytes)
    ensures LostInResponse(name) <==> name in P.DROPPED
  {
    HopByHopIs(name);
    assert |Text("connection")| == 10 && |Text("keep-alive")| == 10 && |Text("te")| == 2 && |Text("upgrade")| == 7;
    assert |Text("transfer-encoding")| == 17 && |Text("trailers")| == 8;
    assert |Text("proxy-authenticate")| == 18 && |Text("proxy-authorization")| == 19;
    hide Text, IsHopByHop;
  }

  /** For every header name, what the client reads of a proxied response: the fields of the response, in
      whatever spelling they came, less the five names that are dropped. */
  lemma WhatTheClientReads(line: Bytes, ss: seq<Spelling>, body: Bytes, name: Bytes)
    requires P.Framed(line, ss, body)
    ensures var r := P.ParseResponse(P.Message(line, ss, body));
      r.Some? && All(r.value.fields, name) == if LostInResponse(name) then [] else All(FieldsOf(ss), name)
  {
    hide P.Framed, P.ParseResponse, P.Message, P.IsComplete, All, LostInResponse;
    P.MessageReadsBack(line, ss, body);
    LostInResponseIs(name);
    AllForwarded(FieldsOf(ss), P.DROPPED, name);
  }
}

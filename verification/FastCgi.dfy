/** The FastCGI client: record and name-value writers, the response read loop, and the readers
    that the FastCGI Specification (sections 3.3, 3.4 and 5) describes for the other side. */
module FastCgi {
  import opened Common

  const VERSION: Byte := 1
  const BEGIN_REQUEST: Byte := 1
  const END_REQUEST: Byte := 3
  const PARAMS: Byte := 4
  const STDIN: Byte := 5
  const STDOUT: Byte := 6
  const RESPONDER: nat := 1
  const REQUEST_ID: nat := 1
  const CHUNK: nat := 65000

  type Pair = (Bytes, Bytes)

  // ---- What the client writes ----

  function Header(kind: Byte, id: nat, len: nat): (h: Bytes)
    requires id < U16 && len < U16
    ensures |h| == 8
  {
    [VERSION, kind, id / 256, id % 256, len / 256, len % 256, 0, 0]
  }

  /** A record as `make_record` lays it out; the length field keeps the low 16 bits only. */
  function Record(kind: Byte, id: nat, content: Bytes): Bytes
    requires id < U16
  {
    Header(kind, id, |content| % U16) + content
  }

  function BeginRequest(id: nat): Bytes
    requires id < U16
  {
    Record(BEGIN_REQUEST, id, [RESPONDER / 256, RESPONDER % 256, 0, 0, 0, 0, 0, 0])
  }

  /** A stream of one record type: chunks of at most 65000 octets, then an empty record. */
  function StreamOf(kind: Byte, data: Bytes): Bytes
    decreases |data|
  {
    if data == [] then Record(kind, REQUEST_ID, [])
    else
      var n := Min(CHUNK, |data|);
      Record(kind, REQUEST_ID, data[..n]) + StreamOf(kind, data[n..])
  }

  /** One octet below 128, else four with the top bit set; bits from the 32nd up are lost and the
      31st is overwritten. */
  function LengthField(len: nat): Bytes {
    if len < 128 then [len]
    else [128 + len / 0x100_0000 % 128, len / 0x1_0000 % 256, len / 256 % 256, len % 256]
  }

  function PairBytes(p: Pair): Bytes { LengthField(|p.0|) + LengthField(|p.1|) + p.0 + p.1 }

  function PairsBytes(ps: seq<Pair>): Bytes {
    if ps == [] then [] else PairBytes(ps[0]) + PairsBytes(ps[1..])
  }

  function RequestBytes(ps: seq<Pair>, body: Bytes): Bytes {
    BeginRequest(REQUEST_ID) + StreamOf(PARAMS, PairsBytes(ps)) + StreamOf(STDIN, body)
  }

  /** `ps` lists the entries of the map at the keys `done`, once each, in some order. */
  ghost predicate Lists(ps: seq<Pair>, m: map<Bytes, Bytes>, done: set<Bytes>) {
    && done <= m.Keys
    && (forall i, j | 0 <= i < j < |ps| :: ps[i].0 != ps[j].0)
    && (forall i | 0 <= i < |ps| :: ps[i].0 in done && m[ps[i].0] == ps[i].1)
    && (forall k | k in done :: exists i :: 0 <= i < |ps| && ps[i].0 == k)
  }

  ghost predicate Enumerates(ps: seq<Pair>, m: map<Bytes, Bytes>) { Lists(ps, m, m.Keys) }

  method MakeRecord(kind: Byte, id: nat, content: Bytes) returns (rec: Bytes)
    requires id < U16
    ensures rec == Record(kind, id, content)
  {
    var len := |content| % U16;
    rec := [VERSION];
    rec := rec + [kind];
    rec := rec + [id / 256];
    rec := rec + [id % 256];
    rec := rec + [len / 256];
    rec := rec + [len % 256];
    rec := rec + [0];
    rec := rec + [0];
    rec := rec + content;
  }

  method EncodeLength(buf: Bytes, len: nat) returns (out: Bytes)
    ensures out == buf + LengthField(len)
  {
    if len < 128 {
      out := buf + [len];
    } else {
      out := buf + [128 + len / 0x100_0000 % 128];
      out := out + [len / 0x1_0000 % 256];
      out := out + [len / 256 % 256];
      out := out + [len % 256];
    }
  }

  lemma {:induction false} PairsBytesAppend(ps: seq<Pair>, p: Pair)
    ensures PairsBytes(ps + [p]) == PairsBytes(ps) + PairBytes(p)
  {
    if ps == [] {
      assert ps + [p] == [p];
      assert PairsBytes([p]) == PairBytes(p) + PairsBytes([p][1..]);
    } else {
      PairsBytesAppend(ps[1..], p);
      assert (ps + [p])[1..] == ps[1..] + [p];
    }
  }

  lemma ListsOneMore(ps: seq<Pair>, m: map<Bytes, Bytes>, done: set<Bytes>, k: Bytes)
    requires Lists(ps, m, done) && k in m && k !in done
    ensures Lists(ps + [(k, m[k])], m, done + {k})
  {
    var longer := ps + [(k, m[k])];
    assert longer[|ps|].0 == k;
    forall k' | k' in done ensures exists i :: 0 <= i < |longer| && longer[i].0 == k' {
      var i :| 0 <= i < |ps| && ps[i].0 == k';
      assert longer[i] == ps[i];
    }
  }

  /** The parameter map in the order its iteration happens to take. */
  method EncodeParams(params: map<Bytes, Bytes>) returns (out: Bytes)
    ensures exists order :: Enumerates(order, params) && out == PairsBytes(order)
  {
    out := [];
    ghost var order: seq<Pair> := [];
    var left := params.Keys;
    while left != {}
      invariant left <= params.Keys
      invariant out == PairsBytes(order) && Lists(order, params, params.Keys - left)
      decreases left
    {
      var k :| k in left;
      out := EncodePair(out, k, params[k]);
      PairsBytesAppend(order, (k, params[k]));
      ListsOneMore(order, params, params.Keys - left, k);
      assert params.Keys - left + {k} == params.Keys - (left - {k});
      left, order := left - {k}, order + [(k, params[k])];
    }
    assert params.Keys - left == params.Keys;
  }

  method EncodePair(buf: Bytes, k: Bytes, v: Bytes) returns (out: Bytes)
    ensures out == buf + PairBytes((k, v))
  {
    out := EncodeLength(buf, |k|);
    out := EncodeLength(out, |v|);
    out := out + k;
    out := out + v;
    Regroup(buf, LengthField(|k|), LengthField(|v|), k, v);
  }

  lemma Regroup(buf: Bytes, a: Bytes, b: Bytes, c: Bytes, d: Bytes)
    ensures buf + a + b + c + d == buf + (a + b + c + d)
  {
  }

  method WriteStream(sent: Bytes, kind: Byte, data: Bytes) returns (out: Bytes)
    ensures out == sent + StreamOf(kind, data)
  {
    out := sent;
    var pos: nat := 0;
    while pos < |data|
      invariant pos <= |data|
      invariant out + StreamOf(kind, data[pos..]) == sent + StreamOf(kind, data)
    {
      var n := Min(CHUNK, |data| - pos);
      ghost var rest := data[pos..];
      assert rest[..n] == data[pos..pos + n] && rest[n..] == data[pos + n..];
      var rec := MakeRecord(kind, REQUEST_ID, data[pos..pos + n]);
      assert out + StreamOf(kind, rest) == out + rec + StreamOf(kind, data[pos + n..]);
      out := out + rec;
      pos := pos + n;
    }
    var end := MakeRecord(kind, REQUEST_ID, []);
    out := out + end;
  }

  // ---- What a reader of the specification recovers ----

  datatype Received = Received(kind: Byte, id: nat, content: Bytes, rest: Bytes)

  function ReadRecord(input: Bytes): Option<Received> {
    if |input| < 8 || input[0] != VERSION then None
    else
      var n := Be16(input[4], input[5]);
      if |input| < 8 + n + input[6] as nat then None
      else Some(Received(input[1], Be16(input[2], input[3]), input[8..8 + n], input[8 + n + input[6] as nat..]))
  }

  /** The data of one stream, up to its empty record, and the octets after it. */
  function ReadStream(kind: Byte, input: Bytes): Option<(Bytes, Bytes)>
    decreases |input|
  {
    match ReadRecord(input)
    case None => None
    case Some(r) =>
      if r.kind != kind || r.id != REQUEST_ID then None
      else if r.content == [] then Some(([], r.rest))
      else
        match ReadStream(kind, r.rest)
        case None => None
        case Some(t) => Some((r.content + t.0, t.1))
  }

  function Be32(a: Byte, b: Byte, c: Byte, d: Byte): nat {
    Be16(a, b) * U16 + Be16(c, d)
  }

  function ReadLength(input: Bytes): Option<(nat, Bytes)> {
    if input == [] then None
    else if input[0] < 128 then Some((input[0], input[1..]))
    else if |input| < 4 then None
    else Some(((input[0] - 128) * 0x100_0000 + input[1] * 0x1_0000 + Be16(input[2], input[3]), input[4..]))
  }

  function ReadPair(input: Bytes): Option<(Pair, Bytes)> {
    match ReadLength(input)
    case None => None
    case Some(k) =>
      match ReadLength(k.1)
      case None => None
      case Some(v) =>
        CutPair(k.0, v.0, v.1)
  }

  function ReadPairs(input: Bytes): Option<seq<Pair>>
    decreases |input|
  {
    if input == [] then Some([])
    else
      match ReadPair(input)
      case None => None
      case Some(p) =>
        match ReadPairs(p.1)
        case None => None
        case Some(ps) => Some([p.0] + ps)
  }

  datatype Request = Request(role: nat, flags: Byte, params: seq<Pair>, body: Bytes)

  function ReadRequest(input: Bytes): Option<Request> {
    match ReadRecord(input)
    case None => None
    case Some(b) =>
      if b.kind != BEGIN_REQUEST || b.id != REQUEST_ID || |b.content| != 8 then None
      else
        match ReadStream(PARAMS, b.rest)
        case None => None
        case Some(p) =>
          match (ReadPairs(p.0), ReadStream(STDIN, p.1))
          case (Some(ps), Some(s)) =>
            if s.1 == [] then Some(Request(Be16(b.content[0], b.content[1]), b.content[2], ps, s.0)) else None
          case _ => None
  }

  lemma RecordReadsBack(kind: Byte, id: nat, content: Bytes, rest: Bytes)
    requires id < U16 && |content| < U16
    ensures ReadRecord(Record(kind, id, content) + rest) == Some(Received(kind, id, content, rest))
  {
    var h := Header(kind, id, |content|);
    var input := Record(kind, id, content) + rest;
    Assoc(h, content, rest);
    CutAppend(h, content + rest);
    assert input[..8] == h;
    assert input[8..8 + |content|] == content && input[8 + |content|..] == rest;
  }

  /** Splitting into 65000-octet records loses nothing, whatever follows on the connection. */
  lemma {:induction false} StreamReadsBack(kind: Byte, data: Bytes, rest: Bytes)
    ensures ReadStream(kind, StreamOf(kind, data) + rest) == Some((data, rest))
    decreases |data|
  {
    if data == [] {
      RecordReadsBack(kind, REQUEST_ID, [], rest);
    } else {
      var n := Min(CHUNK, |data|);
      var more := StreamOf(kind, data[n..]) + rest;
      RecordReadsBack(kind, REQUEST_ID, data[..n], more);
      StreamReadsBack(kind, data[n..], rest);
      Assoc(Record(kind, REQUEST_ID, data[..n]), StreamOf(kind, data[n..]), rest);
      Rejoin(data, n);
    }
  }

  lemma LowBits(len: nat)
    ensures Be32(len / 0x100_0000 % 128, len / 0x1_0000 % 256, len / 256 % 256, len % 256) == len % 0x8000_0000
  {
    var high := len / U16;
    DivDiv(len);
    LowHalf(len);
    HighHalf(high);
    hide Be16;
    LowAndHigh(len);
  }

  lemma DivDiv(len: nat)
    ensures len / U16 / 256 == len / 0x100_0000
  {
  }

  lemma LowAndHigh(len: nat)
    ensures len / U16 % 0x8000 * U16 + len % U16 == len % 0x8000_0000
  {
  }

  lemma LowHalf(n: nat)
    ensures Be16(n / 256 % 256, n % 256) == n % U16
  {
  }

  lemma HighHalf(n: nat)
    ensures Be16(n / 256 % 128, n % 256) == n % 0x8000
  {
  }

  /** A length survives its field up to 31 bits; above that only its low 31 bits do. */
  lemma LengthReadsBack(len: nat, rest: Bytes)
    ensures ReadLength(LengthField(len) + rest) == Some((len % 0x8000_0000, rest))
  {
    var input := LengthField(len) + rest;
    assert input[|LengthField(len)|..] == rest;
    if len >= 128 {
      LowBits(len);
    }
  }

  predicate Encodable(ps: seq<Pair>) {
    forall p | p in ps :: ShortPair(p)
  }

  lemma PairLayout(kf: Bytes, vf: Bytes, k: Bytes, v: Bytes, rest: Bytes)
    ensures (kf + vf + k + v) + rest == kf + (vf + (k + (v + rest)))
    ensures var data := k + (v + rest);
      data[..|k|] == k && data[|k|..|k| + |v|] == v && data[|k| + |v|..] == rest
  {
  }

  function CutPair(k: nat, v: nat, data: Bytes): Option<(Pair, Bytes)> {
    if |data| < k + v then None else Some(((data[..k], data[k..k + v]), data[k + v..]))
  }

  lemma PairFields(p: Pair, rest: Bytes)
    ensures ReadPair(PairBytes(p) + rest)
         == CutPair(|p.0| % 0x8000_0000, |p.1| % 0x8000_0000, p.0 + (p.1 + rest))
  {
    var (kf, vf) := (LengthField(|p.0|), LengthField(|p.1|));
    var data := p.0 + (p.1 + rest);
    LengthReadsBack(|p.0|, vf + data);
    LengthReadsBack(|p.1|, data);
    PairLayout(kf, vf, p.0, p.1, rest);
  }

  lemma CutPairExact(p: Pair, rest: Bytes, r: Option<(Pair, Bytes)>)
    requires r == CutPair(|p.0| % 0x8000_0000, |p.1| % 0x8000_0000, p.0 + (p.1 + rest))
    ensures ShortPair(p) ==> r == Some((p, rest))
    ensures !ShortPair(p) && r.Some? ==> r.value.0 != p
  {
    PairLayout([], [], p.0, p.1, rest);
  }

  predicate ShortPair(p: Pair) { |p.0| < 0x8000_0000 && |p.1| < 0x8000_0000 }

  lemma PairReadsBack(p: Pair, rest: Bytes)
    ensures ShortPair(p) ==> ReadPair(PairBytes(p) + rest) == Some((p, rest))
    ensures !ShortPair(p) && ReadPair(PairBytes(p) + rest).Some? ==> ReadPair(PairBytes(p) + rest).value.0 != p
  {
    PairFields(p, rest);
    CutPairExact(p, rest, ReadPair(PairBytes(p) + rest));
  }

  /** The name-value pairs read back exactly when every length is below 2^31. */
  lemma {:induction false} PairsReadBack(ps: seq<Pair>)
    ensures ReadPairs(PairsBytes(ps)) == Some(ps) <==> Encodable(ps)
  {
    if ps != [] {
      PairReadsBack(ps[0], PairsBytes(ps[1..]));
      PairsReadBack(ps[1..]);
      assert ps == [ps[0]] + ps[1..];
      assert Encodable(ps) <==> Encodable([ps[0]]) && Encodable(ps[1..]);
    }
  }

  lemma FramesReadBack(params: Bytes, stdin: Bytes, data: Bytes, body: Bytes)
    requires ReadStream(PARAMS, params + stdin) == Some((data, stdin)) && ReadStream(STDIN, stdin) == Some((body, []))
    ensures ReadPairs(data).None? ==> ReadRequest(BeginRequest(REQUEST_ID) + (params + stdin)) == None
    ensures ReadPairs(data).Some? ==>
      ReadRequest(BeginRequest(REQUEST_ID) + (params + stdin))
        == Some(Request(RESPONDER, 0, ReadPairs(data).value, body))
  {
    hide ReadRecord, ReadStream, ReadPairs, Record;
    RecordReadsBack(BEGIN_REQUEST, REQUEST_ID, [RESPONDER / 256, RESPONDER % 256, 0, 0, 0, 0, 0, 0], params + stdin);
  }

  /** A reader of the specification recovers the request from the octets sent: role and flags, the
      parameters in the order written, and the body; for lengths from 2^31 up it does not. */
  lemma {:induction false} RequestReadsBack(ps: seq<Pair>, body: Bytes)
    ensures ReadRequest(RequestBytes(ps, body)) == Some(Request(RESPONDER, 0, ps, body)) <==> Encodable(ps)
  {
    var params, stdin := StreamOf(PARAMS, PairsBytes(ps)), StreamOf(STDIN, body);
    StreamReadsBack(PARAMS, PairsBytes(ps), stdin);
    StreamReadsBack(STDIN, body, []);
    assert stdin + [] == stdin;
    Assoc(BeginRequest(REQUEST_ID), params, stdin);
    FramesReadBack(params, stdin, PairsBytes(ps), body);
    PairsReadBack(ps);
    hide ReadRequest, ReadPairs, PairsBytes, StreamOf, BeginRequest, Encodable;
  }

  /** Everything `run_fastcgi` sends before it starts reading: a reader of the specification gets
      back the request it stands for. */
  method WriteRequest(params: map<Bytes, Bytes>, body: Bytes) returns (sent: Bytes)
    ensures exists order :: (
      && Enumerates(order, params) && sent == RequestBytes(order, body)
      && (ReadRequest(sent) == Some(Request(RESPONDER, 0, order, body)) <==> Encodable(order)))
  {
    sent := MakeRecord(BEGIN_REQUEST, REQUEST_ID, [RESPONDER / 256, RESPONDER % 256, 0, 0, 0, 0, 0, 0]);
    var encoded := EncodeParams(params);
    ghost var order :| Enumerates(order, params) && encoded == PairsBytes(order);
    sent := WriteStream(sent, PARAMS, encoded);
    sent := WriteStream(sent, STDIN, body);
    RequestReadsBack(order, body);
  }

  // ---- The response read loop ----

  datatype Head = Head(kind: Byte, content: Bytes, next: Bytes)

  /** One record as the loop reads it: header, content, and padding, where a short read of padding
      is ignored; version, id and reserved octets are not looked at. */
  function ReadHead(input: Bytes): (r: Option<Head>)
    ensures r.Some? ==> |r.value.next| < |input|
  {
    if |input| < 8 then None
    else
      var n := Be16(input[4], input[5]);
      if |input| < 8 + n then None
      else Some(Head(input[1], input[8..8 + n], Drop(input, 8 + n + input[6] as nat)))
  }

  /** The read loop over the octets the peer sends, however they are fragmented: `None` is an error
      return. */
  function StdoutOf(input: Bytes): Option<Bytes>
    decreases |input|
  {
    match ReadHead(input)
    case None => None
    case Some(h) =>
      if h.kind == END_REQUEST then Some([])
      else Prepend(if h.kind == STDOUT then h.content else [], StdoutOf(h.next))
  }

  function Prepend(head: Bytes, out: Option<Bytes>): Option<Bytes> {
    match out case None => None case Some(tail) => Some(head + tail)
  }

  lemma PrependTwice(a: Bytes, b: Bytes, out: Option<Bytes>)
    ensures Prepend(a, Prepend(b, out)) == Prepend(a + b, out)
    ensures Prepend([], out) == out
    ensures a + [] == a
  {
    if out.Some? {
      Assoc(a, b, out.value);
      assert [] + out.value == out.value;
    }
  }

  lemma DropIs(input: Bytes, pos: nat)
    requires pos <= |input|
    ensures Drop(input, pos) == input[pos..]
  {
  }

  lemma HeadIs(input: Bytes, pos: nat)
    requires pos <= |input|
    ensures ReadHead(input[pos..])
         == if |input| < pos + 8 || |input| < pos + 8 + Be16(input[pos + 4], input[pos + 5]) then None
            else
              var n := Be16(input[pos + 4], input[pos + 5]);
              Some(Head(input[pos + 1], input[pos + 8..pos + 8 + n], Drop(input, pos + 8 + n + input[pos + 6] as nat)))
  {
    hide Be16, Drop;
    var rest := input[pos..];
    if |input| >= pos + 8 {
      var n := Be16(input[pos + 4], input[pos + 5]);
      assert rest[1] == input[pos + 1] && rest[4] == input[pos + 4] && rest[5] == input[pos + 5];
      assert rest[6] == input[pos + 6];
      assert rest == Drop(input, pos) by { DropIs(input, pos); }
      if |input| >= pos + 8 + n {
        assert rest[8..8 + n] == input[pos + 8..pos + 8 + n];
        DropDrop(input, pos, 8 + n + input[pos + 6] as nat);
      }
    }
  }

  /** Reads one record at the cursor: header, content, then as much of the padding as there is. */
  method ReadOneRecord(input: Bytes, pos: nat) returns (kind: Byte, content: Bytes, next: nat, ok: bool)
    requires pos <= |input|
    ensures !ok ==> ReadHead(input[pos..]) == None
    ensures ok ==> pos < next <= |input| && ReadHead(input[pos..]) == Some(Head(kind, content, input[next..]))
  {
    HeadIs(input, pos);
    kind, content, next, ok := 0, [], pos, false;
    if |input| < pos + 8 { return; }
    kind := input[pos + 1];
    var contentLen, paddingLen := Be16(input[pos + 4], input[pos + 5]), input[pos + 6] as nat;
    if |input| < pos + 8 + contentLen { return; }
    content := input[pos + 8..pos + 8 + contentLen];
    next, ok := Min(pos + 8 + contentLen + paddingLen, |input|), true;
    assert input[next..] == Drop(input, pos + 8 + contentLen + paddingLen);
  }

  method ReadStdout(input: Bytes) returns (r: Option<Bytes>)
    ensures r == StdoutOf(input)
  {
    var stdout: Bytes := [];
    var pos: nat := 0;
    PrependTwice([], [], StdoutOf(input));
    assert input[0..] == input;
    while true
      invariant pos <= |input|
      invariant StdoutOf(input) == Prepend(stdout, StdoutOf(input[pos..]))
      decreases |input| - pos
    {
      var kind, content, next, ok := ReadOneRecord(input, pos);
      if !ok { return None; }
      PrependTwice(stdout, if kind == STDOUT then content else [], StdoutOf(input[next..]));
      if kind == END_REQUEST { return Some(stdout); }
      if kind == STDOUT { stdout := stdout + content; }
      pos := next;
    }
  }

  /** A record as any peer may send it. */
  datatype Wire = Wire(version: Byte, kind: Byte, id: (Byte, Byte), reserved: Byte, content: Bytes, padding: Bytes)

  predicate Sendable(w: Wire) { |w.content| < U16 && |w.padding| < 256 }

  function WireHead(w: Wire): (h: Bytes)
    requires Sendable(w)
    ensures |h| == 8 && h[1] == w.kind && Be16(h[4], h[5]) == |w.content| && h[6] == |w.padding|
  {
    [w.version, w.kind, w.id.0, w.id.1, |w.content| / 256, |w.content| % 256, |w.padding|, w.reserved]
  }

  function HeadAndContent(w: Wire): Bytes
    requires Sendable(w)
  {
    WireHead(w) + w.content
  }

  function WireBytes(ws: seq<Wire>): Bytes
    requires forall w | w in ws :: Sendable(w)
  {
    if ws == [] then [] else HeadAndContent(ws[0]) + ws[0].padding + WireBytes(ws[1..])
  }

  function StdoutContents(ws: seq<Wire>): Bytes {
    if ws == [] then []
    else (if ws[0].kind == STDOUT then ws[0].content else []) + StdoutContents(ws[1..])
  }

  /** `input` is the records `ws`, none of them END_REQUEST, then an END_REQUEST whose padding (and
      anything after it) lies in `tail`. */
  ghost predicate EndsAt(input: Bytes, ws: seq<Wire>, end: Wire, tail: Bytes) {
    && (forall w | w in ws :: Sendable(w) && w.kind != END_REQUEST)
    && Sendable(end) && end.kind == END_REQUEST
    && input == WireBytes(ws) + HeadAndContent(end) + tail
  }

  lemma ReadsOneRecord(w: Wire, rest: Bytes, input: Bytes)
    requires Sendable(w) && input == HeadAndContent(w) + rest
    ensures ReadHead(input) == Some(Head(w.kind, w.content, Drop(rest, |w.padding|)))
  {
    var h := WireHead(w);
    Assoc(h, w.content, rest);
    CutAppend(h, w.content + rest);
    CutAppend(w.content, rest);
    CutAppend(HeadAndContent(w), rest);
    assert input[..8] == h;
    assert input[8..][..|w.content|] == w.content;
    DropDrop(input, 8 + |w.content|, |w.padding|);
  }

  lemma {:induction false} ReadsTheStdout(input: Bytes, ws: seq<Wire>, end: Wire, tail: Bytes)
    requires EndsAt(input, ws, end, tail)
    ensures StdoutOf(input) == Some(StdoutContents(ws))
    decreases |ws|
  {
    if ws == [] {
      assert input == HeadAndContent(end) + tail;
      ReadsOneRecord(end, tail, input);
    } else {
      var w, rest := ws[0], WireBytes(ws[1..]) + HeadAndContent(end) + tail;
      ReadsTheStdout(rest, ws[1..], end, tail);
      FourParts(HeadAndContent(w), w.padding, WireBytes(ws[1..]), HeadAndContent(end), tail);
      ReadsOneRecord(w, w.padding + rest, input);
      CutAppend(w.padding, rest);
    }
  }

  lemma FourParts(a: Bytes, b: Bytes, c: Bytes, d: Bytes, e: Bytes)
    ensures a + b + c + d + e == a + (b + (c + d + e))
  {
  }

  lemma CutTwice(s: Bytes, a: nat, b: nat)
    requires a + b <= |s|
    ensures s == s[..a] + s[a..a + b] + s[a + b..]
  {
  }

  lemma SplitRecord(input: Bytes) returns (w: Wire, rest: Bytes)
    requires |input| >= 8 && |input| >= 8 + Be16(input[4], input[5])
    ensures Sendable(w) && w.kind == input[1] && input == HeadAndContent(w) + rest
    ensures |input| >= 8 + Be16(input[4], input[5]) + input[6] as nat ==> w.padding <= rest
  {
    var n, p := Be16(input[4], input[5]), input[6] as nat;
    rest := input[8 + n..];
    var padding := if p <= |rest| then rest[..p] else seq(p, i => 0);
    w := Wire(input[0], input[1], (input[2], input[3]), input[7], input[8..8 + n], padding);
    assert WireHead(w) == input[..8];
    hide WireHead;
    CutTwice(input, 8, n);
  }

  lemma HasRecord(input: Bytes)
    requires StdoutOf(input).Some?
    ensures |input| >= 8 && |input| >= 8 + Be16(input[4], input[5])
    ensures input[1] != END_REQUEST ==> |input| >= 8 + Be16(input[4], input[5]) + input[6] as nat
  {
  }

  lemma StdoutGoesOn(input: Bytes, w: Wire, rest: Bytes)
    requires StdoutOf(input).Some? && Sendable(w)
    requires ReadHead(input) == Some(Head(w.kind, w.content, Drop(rest, |w.padding|)))
    ensures w.kind != END_REQUEST ==> StdoutOf(Drop(rest, |w.padding|)).Some?
  {
    hide ReadHead;
  }

  lemma {:induction false} FindsTheEnd(input: Bytes) returns (ws: seq<Wire>, end: Wire, tail: Bytes)
    requires StdoutOf(input).Some?
    ensures EndsAt(input, ws, end, tail)
    decreases |input|
  {
    hide StdoutOf, WireHead, ReadHead, HeadAndContent;
    HasRecord(input);
    var w, rest := SplitRecord(input);
    ReadsOneRecord(w, rest, input);
    StdoutGoesOn(input, w, rest);
    if w.kind == END_REQUEST {
      ws, end, tail := [], w, rest;
      assert WireBytes([]) + HeadAndContent(w) == HeadAndContent(w);
    } else {
      var next := Drop(rest, |w.padding|);
      var more;
      more, end, tail := FindsTheEnd(next);
      Rejoin(rest, |w.padding|);
      ws := [w] + more;
      assert ws[1..] == more;
      FourParts(HeadAndContent(w), w.padding, WireBytes(more), HeadAndContent(end), tail);
    }
  }

  /** The loop succeeds exactly on inputs that hold an END_REQUEST after whole records, and then
      returns the STDOUT contents before the first one: any padding, STDERR and unknown types are
      skipped, and octets after the END_REQUEST do not matter. */
  lemma ReadLoopExact(input: Bytes, out: Bytes)
    ensures StdoutOf(input) == Some(out)
       <==> exists ws, end, tail :: EndsAt(input, ws, end, tail) && out == StdoutContents(ws)
  {
    if StdoutOf(input).Some? {
      var ws, end, tail := FindsTheEnd(input);
      ReadsTheStdout(input, ws, end, tail);
    }
    forall ws, end, tail | EndsAt(input, ws, end, tail) ensures StdoutOf(input) == Some(StdoutContents(ws)) {
      ReadsTheStdout(input, ws, end, tail);
    }
  }
}

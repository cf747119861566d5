/** What the parser makes of printed directives: each overrides what was set before or adds to it, and a
    printed value comes back as it was. */
module ConfigReadBack {
  import opened Common
  import opened Tokenizer
  import opened ConfigTypes
  import opened ConfigGrammar
  import opened ConfigLocality
  import opened ConfigReading
  import opened ConfigWords
  import opened ConfigPrinter

  /** A value that a later directive may have set. */
  function Later<T>(next: Option<T>, was: Option<T>): Option<T> { if next.Some? then next else was }

  // ---- Locations ----

  function InLocation(env: Env): Reader<Location> { BlockReader(LocationDirective(env)) }

  lemma MaybeInLocation(env: Env, name: string, args: Option<seq<string>>, was: Location, next: Location)
    requires LocationShape(name).Some?
    requires match args case None => next == was
      case Some(a) => Takes(LocationShape(name).value, a) && ApplyLocation(env, name, a, was) == Some(next)
    ensures Leads(InLocation(env), Maybe(name, args), was, next)
  {
    hide LocationShape, ApplyLocation, Leads;
    match args {
      case None => LeadsNowhere(InLocation(env), was);
      case Some(a) => LocationLine(env, name, a, was, next);
    }
  }

  /** `return` sets the answer and makes it the handler. */
  function Answering(was: Location, answer: Option<ReturnDirective>): Location {
    match answer case None => was case Some(r) => was.(answer := answer, handler := Return(r))
  }

  lemma ReturnLeads(env: Env, answer: Option<ReturnDirective>, was: Location)
    requires answer.Some? ==> PrintableReturn(answer.value)
    ensures Leads(InLocation(env), Maybe("return", ReturnArgs(answer)), was, Answering(was, answer))
  {
    match answer {
      case None =>
      case Some(r) => ReturnReads(r);
    }
    hide Leads, ParseReturn;
    MaybeInLocation(env, "return", ReturnArgs(answer), was, Answering(was, answer));
  }

  function CgiWith(was: Location, u: FastCgiUpstream, params: seq<(string, string)>): nat -> Location {
    (k: nat) => was.(handler := FastCgi(u, FirstOf(params, k), None, 60))
  }

  lemma CgiParamsLead(env: Env, u: FastCgiUpstream, params: seq<(string, string)>, was: Location)
    ensures Leads(InLocation(env), Each(ParamLines("fastcgi_param"), params),
                  was.(handler := FastCgi(u, [], None, 60)), was.(handler := FastCgi(u, params, None, 60)))
  {
    var at := CgiWith(was, u, params);
    hide Leads;
    forall k: nat | k < |params|
      ensures Leads(InLocation(env), ParamLines("fastcgi_param")(params[k]), at(k), at(k + 1))
    {
      OneMoreOf(params, k);
      LocationLine(env, "fastcgi_param", [params[k].0, params[k].1], at(k), at(k + 1));
    }
    EachLeads(InLocation(env), ParamLines("fastcgi_param"), at, params);
    assert FirstOf(params, |params|) == params && FirstOf(params, 0) == [];
  }

  lemma CgiPassLeads(env: Env, u: FastCgiUpstream, was: Location)
    requires PrintableUpstream(env, u)
    ensures Leads(InLocation(env), Line("fastcgi_pass", [UpstreamWord(u)]), was,
                  was.(handler := FastCgi(u, [], None, 60)))
  {
    UpstreamReadsBack(env, u);
    hide Leads, UpstreamWord, ParseFastCgiUpstream;
    LocationLine(env, "fastcgi_pass", [UpstreamWord(u)], was, was.(handler := FastCgi(u, [], None, 60)));
  }

  lemma CgiIndexLeads(env: Env, index: Option<string>, was: Location)
    requires was.handler.FastCgi? && was.handler.index == None
    ensures Leads(InLocation(env), Maybe("fastcgi_index", Alone(index)), was,
                  was.(handler := was.handler.(index := index)))
  {
    hide Leads;
    MaybeInLocation(env, "fastcgi_index", Alone(index), was, was.(handler := was.handler.(index := index)));
  }

  lemma CgiTimeLeads(env: Env, st: Style, time: nat, was: Location)
    requires GoodStyle(st) && time < U64 && was.handler.FastCgi?
    ensures Leads(InLocation(env), Line("fastcgi_read_timeout", [st.seconds(time)]), was,
                  was.(handler := was.handler.(cgiTimeout := time)))
  {
    hide Leads, GoodStyle, Seconds;
    NumbersRead(st, time);
    LocationLine(env, "fastcgi_read_timeout", [st.seconds(time)], was,
                 was.(handler := was.handler.(cgiTimeout := time)));
  }

  lemma CgiLeads(env: Env, st: Style, h: Handler, was: Location)
    requires GoodStyle(st) && h.FastCgi? && PrintableHandler(env, h)
    ensures Leads(InLocation(env), HandlerLines(st, h), was, was.(handler := h))
  {
    var read := InLocation(env);
    var a := was.(handler := FastCgi(h.upstream, [], None, 60));
    var b := was.(handler := FastCgi(h.upstream, h.params, None, 60));
    var c := was.(handler := FastCgi(h.upstream, h.params, h.index, 60));
    hide Leads, GoodStyle, Line, Each, Maybe, UpstreamWord, PrintableUpstream, InLocation;
    var l0, l1 := Line("fastcgi_pass", [UpstreamWord(h.upstream)]), Each(ParamLines("fastcgi_param"), h.params);
    var l2, l3 := Maybe("fastcgi_index", Alone(h.index)), Line("fastcgi_read_timeout", [st.seconds(h.cgiTimeout)]);
    CgiPassLeads(env, h.upstream, was);
    CgiParamsLead(env, h.upstream, h.params, was);
    CgiIndexLeads(env, h.index, b);
    CgiTimeLeads(env, st, h.cgiTimeout, c);
    LeadsThrough(read, l0, l1, l2, was, a, b, c);
    LeadsOn(read, l0 + l1 + l2, l3, was, c, was.(handler := h));
  }

  function ProxyWith(was: Location, url: string, headers: seq<(string, string)>): nat -> Location {
    (k: nat) => was.(handler := Proxy(url, FirstOf(headers, k), 60, true, false))
  }

  lemma ProxyHeadersLead(env: Env, url: string, headers: seq<(string, string)>, was: Location)
    ensures Leads(InLocation(env), Each(ParamLines("proxy_set_header"), headers),
                  was.(handler := Proxy(url, [], 60, true, false)),
                  was.(handler := Proxy(url, headers, 60, true, false)))
  {
    var at := ProxyWith(was, url, headers);
    hide Leads;
    forall k: nat | k < |headers|
      ensures Leads(InLocation(env), ParamLines("proxy_set_header")(headers[k]), at(k), at(k + 1))
    {
      OneMoreOf(headers, k);
      LocationLine(env, "proxy_set_header", [headers[k].0, headers[k].1], at(k), at(k + 1));
    }
    EachLeads(InLocation(env), ParamLines("proxy_set_header"), at, headers);
    assert FirstOf(headers, |headers|) == headers && FirstOf(headers, 0) == [];
  }

  lemma ProxyPassLeads(env: Env, url: string, was: Location)
    requires env.isProxyUrl(url)
    ensures Leads(InLocation(env), Line("proxy_pass", [url]), was, was.(handler := Proxy(url, [], 60, true, false)))
  {
    hide Leads;
    LocationLine(env, "proxy_pass", [url], was, was.(handler := Proxy(url, [], 60, true, false)));
  }

  lemma ProxyTimeLeads(env: Env, st: Style, time: nat, was: Location)
    requires GoodStyle(st) && time < U64 && was.handler.Proxy?
    ensures Leads(InLocation(env), Line("proxy_read_timeout", [st.seconds(time)]), was,
                  was.(handler := was.handler.(readTimeout := time)))
  {
    hide Leads, GoodStyle, Seconds;
    NumbersRead(st, time);
    LocationLine(env, "proxy_read_timeout", [st.seconds(time)], was,
                 was.(handler := was.handler.(readTimeout := time)));
  }

  lemma ProxyBufferingLeads(env: Env, st: Style, on: bool, was: Location)
    requires GoodStyle(st) && was.handler.Proxy?
    ensures Leads(InLocation(env), Line("proxy_buffering", [st.on(on)]), was,
                  was.(handler := was.handler.(buffering := on)))
  {
    hide Leads, GoodStyle;
    SwitchesRead(st, on);
    LocationLine(env, "proxy_buffering", [st.on(on)], was, was.(handler := was.handler.(buffering := on)));
  }

  lemma ProxyInternalLeads(env: Env, st: Style, on: bool, was: Location)
    requires GoodStyle(st) && was.handler.Proxy?
    ensures Leads(InLocation(env), Line("proxy_allow_internal", [st.on(on)]), was,
                  was.(handler := was.handler.(allowInternal := on)))
  {
    hide Leads, GoodStyle;
    SwitchesRead(st, on);
    LocationLine(env, "proxy_allow_internal", [st.on(on)], was, was.(handler := was.handler.(allowInternal := on)));
  }

  lemma ProxyLeads(env: Env, st: Style, h: Handler, was: Location)
    requires GoodStyle(st) && h.Proxy? && PrintableHandler(env, h)
    ensures Leads(InLocation(env), HandlerLines(st, h), was, was.(handler := h))
  {
    var read := InLocation(env);
    var a := was.(handler := Proxy(h.url, [], 60, true, false));
    var b := was.(handler := Proxy(h.url, h.setHeaders, 60, true, false));
    var c := was.(handler := Proxy(h.url, h.setHeaders, h.readTimeout, true, false));
    var e := was.(handler := Proxy(h.url, h.setHeaders, h.readTimeout, h.buffering, false));
    hide Leads, GoodStyle, Line, Each, InLocation;
    var l0, l1 := Line("proxy_pass", [h.url]), Each(ParamLines("proxy_set_header"), h.setHeaders);
    var l2 := Line("proxy_read_timeout", [st.seconds(h.readTimeout)]);
    var l3 := Line("proxy_buffering", [st.on(h.buffering)]);
    var l4 := Line("proxy_allow_internal", [st.on(h.allowInternal)]);
    ProxyPassLeads(env, h.url, was);
    ProxyHeadersLead(env, h.url, h.setHeaders, was);
    ProxyTimeLeads(env, st, h.readTimeout, b);
    ProxyBufferingLeads(env, st, h.buffering, c);
    ProxyInternalLeads(env, st, h.allowInternal, e);
    LeadsThrough(read, l0, l1, l2, was, a, b, c);
    LeadsThrough(read, l0 + l1 + l2, l3, l4, was, c, e, was.(handler := h));
  }

  function Handled(was: Location, h: Handler): Location {
    if h.FastCgi? || h.Proxy? then was.(handler := h) else was
  }

  lemma HandlerLeads(env: Env, st: Style, h: Handler, was: Location)
    requires GoodStyle(st) && PrintableHandler(env, h)
    ensures Leads(InLocation(env), HandlerLines(st, h), was, Handled(was, h))
  {
    hide Leads, GoodStyle;
    if h.FastCgi? { CgiLeads(env, st, h, was); }
    else if h.Proxy? { ProxyLeads(env, st, h, was); }
    else { LeadsNowhere(InLocation(env), was); }
  }

  lemma FilesLead(env: Env, v: Location, was: Location)
    requires PrintableBlock(env, v)
    ensures Leads(InLocation(env), FileLines(v), was, was.(
      root := Later(v.root, was.root), index := Later(v.index, was.index), tryFiles := Later(v.tryFiles, was.tryFiles)))
  {
    var read := InLocation(env);
    var a := was.(root := Later(v.root, was.root));
    var b := a.(index := Later(v.index, was.index));
    var c := b.(tryFiles := Later(v.tryFiles, was.tryFiles));
    match v.tryFiles { case None => case Some(ts) => TriesReadBack(ts); }
    hide Leads, SafeRoot, ParseTryFiles, TryWords, PrintableTry;
    var l0, l1, l2 := Maybe("root", Alone(v.root)), Maybe("index", v.index), Maybe("try_files", TryArgs(v.tryFiles));
    MaybeInLocation(env, "root", Alone(v.root), was, a);
    MaybeInLocation(env, "index", v.index, a, b);
    MaybeInLocation(env, "try_files", TryArgs(v.tryFiles), b, c);
    LeadsOn(read, l0, l1, was, a, b);
    LeadsOn(read, l0 + l1, l2, was, b, c);
  }

  lemma SizeWordReads(st: Style, n: Option<nat>)
    requires GoodStyle(st) && PrintableBody(n)
    ensures match n case None => SizeWord(st, n) == None
      case Some(v) => SizeWord(st, n).Some? && Size(SizeWord(st, n).value) == n && v == Min(v, ABSOLUTE_MAX_BODY_BYTES)
  {
    hide Size, Seconds, Unquoted;
  }

  lemma BodySizeLeads(env: Env, st: Style, n: Option<nat>, was: Location)
    requires GoodStyle(st) && PrintableBody(n)
    ensures Leads(InLocation(env), Maybe("client_max_body_size", Alone(SizeWord(st, n))), was,
                  was.(maxBody := Later(n, was.maxBody)))
  {
    hide Leads, GoodStyle, Size, SizeWord;
    SizeWordReads(st, n);
    MaybeInLocation(env, "client_max_body_size", Alone(SizeWord(st, n)), was, was.(maxBody := Later(n, was.maxBody)));
  }

  lemma GzipLeads(env: Env, st: Style, on: Option<bool>, was: Location)
    requires GoodStyle(st)
    ensures Leads(InLocation(env), Maybe("gzip", Alone(SwitchWord(st, on))), was, was.(gzip := Later(on, was.gzip)))
  {
    hide Leads, GoodStyle;
    match on { case None => case Some(b) => SwitchesRead(st, b); }
    MaybeInLocation(env, "gzip", Alone(SwitchWord(st, on)), was, was.(gzip := Later(on, was.gzip)));
  }

  lemma LimitLeads(env: Env, l: Option<LimitReq>, was: Location)
    requires l.Some? ==> PrintableLimit(l.value)
    ensures Leads(InLocation(env), Maybe("limit_req", LimitArgs(l)), was, was.(limitReq := Later(l, was.limitReq)))
  {
    match l { case None => case Some(v) => LimitReadsBack(v); }
    hide Leads, ParseLimitReq, LimitWords;
    MaybeInLocation(env, "limit_req", LimitArgs(l), was, was.(limitReq := Later(l, was.limitReq)));
  }

  lemma LimitsLead(env: Env, st: Style, v: Location, was: Location)
    requires GoodStyle(st) && PrintableBody(v.maxBody) && (v.limitReq.Some? ==> PrintableLimit(v.limitReq.value))
    ensures Leads(InLocation(env), LimitLines(st, v), was, was.(
      maxBody := Later(v.maxBody, was.maxBody), gzip := Later(v.gzip, was.gzip),
      limitReq := Later(v.limitReq, was.limitReq)))
  {
    var a := was.(maxBody := Later(v.maxBody, was.maxBody));
    var b := a.(gzip := Later(v.gzip, was.gzip));
    var c := b.(limitReq := Later(v.limitReq, was.limitReq));
    hide Leads, GoodStyle, PrintableBody, PrintableLimit, Maybe, InLocation, Later;
    BodySizeLeads(env, st, v.maxBody, was);
    GzipLeads(env, st, v.gzip, a);
    LimitLeads(env, v.limitReq, b);
    LeadsThrough(InLocation(env), Maybe("client_max_body_size", Alone(SizeWord(st, v.maxBody))),
                 Maybe("gzip", Alone(SwitchWord(st, v.gzip))), Maybe("limit_req", LimitArgs(v.limitReq)), was, a, b, c);
  }

  function HeadersTo(was: Location, hs: seq<(string, string)>): nat -> Location {
    (k: nat) => was.(addHeaders := was.addHeaders + FirstOf(hs, k))
  }

  lemma HeadersLead(env: Env, st: Style, hs: seq<(string, string)>, was: Location)
    ensures Leads(InLocation(env), Each(HeaderLines(st), hs), was, was.(addHeaders := was.addHeaders + hs))
  {
    var at := HeadersTo(was, hs);
    hide Leads;
    forall k: nat | k < |hs| ensures Leads(InLocation(env), HeaderLines(st)(hs[k]), at(k), at(k + 1)) {
      OneMoreOf(hs, k);
      Assoc(was.addHeaders, FirstOf(hs, k), [hs[k]]);
      LocationLine(env, "add_header", [hs[k].0, hs[k].1] + (if st.long then ["always"] else []), at(k), at(k + 1));
    }
    EachLeads(InLocation(env), HeaderLines(st), at, hs);
    assert FirstOf(hs, |hs|) == hs && was.addHeaders + FirstOf(hs, 0) == was.addHeaders;
  }

  function RewriteWords(st: Style, r: Rewrite): seq<string> {
    [r.pattern, r.replacement] + (if r.flag == Last && !st.long then [] else [FlagWord(r.flag)])
  }

  lemma RewriteWordsRead(st: Style, r: Rewrite)
    ensures ParseRewrite(RewriteWords(st, r)) == r
  {
    RewriteReads(r, "");
    hide ParseRewrite, FlagWord;
    if r.flag == Last && !st.long {
      assert RewriteWords(st, r) == [r.pattern, r.replacement];
    } else {
      assert RewriteWords(st, r) == [r.pattern, r.replacement, FlagWord(r.flag)];
    }
  }

  function RewritesTo(was: Location, rs: seq<Rewrite>): nat -> Location {
    (k: nat) => was.(rewrites := was.rewrites + FirstOf(rs, k))
  }

  lemma RewritesLead(env: Env, st: Style, rs: seq<Rewrite>, was: Location)
    ensures Leads(InLocation(env), Each(RewriteLines(st), rs), was, was.(rewrites := was.rewrites + rs))
  {
    var at := RewritesTo(was, rs);
    hide Leads, ParseRewrite, FlagWord;
    forall k: nat | k < |rs| ensures Leads(InLocation(env), RewriteLines(st)(rs[k]), at(k), at(k + 1)) {
      OneMoreOf(rs, k);
      Assoc(was.rewrites, FirstOf(rs, k), [rs[k]]);
      RewriteWordsRead(st, rs[k]);
      LocationLine(env, "rewrite", RewriteWords(st, rs[k]), at(k), at(k + 1));
    }
    EachLeads(InLocation(env), RewriteLines(st), at, rs);
    assert FirstOf(rs, |rs|) == rs && was.rewrites + FirstOf(rs, 0) == was.rewrites;
  }

  lemma AuthLeads(env: Env, v: Location, was: Location)
    requires v.realm != Some("off")
    ensures Leads(InLocation(env), AuthLines(v), was, was.(
      realm := Later(v.realm, was.realm), userFile := Later(v.userFile, was.userFile)))
  {
    var a := was.(realm := Later(v.realm, was.realm));
    var b := a.(userFile := Later(v.userFile, was.userFile));
    hide Leads;
    MaybeInLocation(env, "auth_basic", Alone(v.realm), was, a);
    MaybeInLocation(env, "auth_basic_user_file", Alone(v.userFile), a, b);
    LeadsOn(InLocation(env), Maybe("auth_basic", Alone(v.realm)), Maybe("auth_basic_user_file", Alone(v.userFile)),
            was, a, b);
  }

  /** The directives of location v after those of another: what v sets counts, and its lists are added. */
  function Over(was: Location, v: Location): Location {
    was.(handler := if v.handler.Static? then was.handler else v.handler, answer := Later(v.answer, was.answer),
      root := Later(v.root, was.root), index := Later(v.index, was.index), tryFiles := Later(v.tryFiles, was.tryFiles),
      maxBody := Later(v.maxBody, was.maxBody), gzip := Later(v.gzip, was.gzip),
      limitReq := Later(v.limitReq, was.limitReq), addHeaders := was.addHeaders + v.addHeaders,
      rewrites := was.rewrites + v.rewrites, realm := Later(v.realm, was.realm),
      userFile := Later(v.userFile, was.userFile))
  }

  function WorkOver(was: Location, v: Location): Location {
    was.(handler := if v.handler.Static? then was.handler else v.handler, answer := Later(v.answer, was.answer),
      root := Later(v.root, was.root), index := Later(v.index, was.index), tryFiles := Later(v.tryFiles, was.tryFiles))
  }

  function RulesOver(was: Location, v: Location): Location {
    was.(maxBody := Later(v.maxBody, was.maxBody), gzip := Later(v.gzip, was.gzip),
      limitReq := Later(v.limitReq, was.limitReq), addHeaders := was.addHeaders + v.addHeaders,
      rewrites := was.rewrites + v.rewrites)
  }

  lemma WorkLeads(env: Env, st: Style, v: Location, was: Location)
    requires GoodStyle(st) && PrintableBlock(env, v)
    ensures Leads(InLocation(env), WorkLines(st, v), was, WorkOver(was, v))
  {
    var a := Answering(was, v.answer);
    var b := Handled(a, v.handler);
    hide Leads, GoodStyle, PrintableReturn, PrintableHandler, HandlerLines, FileLines, Maybe, InLocation;
    ReturnLeads(env, v.answer, was);
    HandlerLeads(env, st, v.handler, a);
    FilesLead(env, v, b);
    LeadsThrough(InLocation(env), Maybe("return", ReturnArgs(v.answer)), HandlerLines(st, v.handler), FileLines(v),
                 was, a, b, WorkOver(was, v));
  }

  lemma RulesLead(env: Env, st: Style, v: Location, was: Location)
    requires GoodStyle(st) && PrintableBlock(env, v)
    ensures Leads(InLocation(env), RuleLines(st, v), was, RulesOver(was, v))
  {
    var a := was.(maxBody := Later(v.maxBody, was.maxBody), gzip := Later(v.gzip, was.gzip),
                  limitReq := Later(v.limitReq, was.limitReq));
    var b := a.(addHeaders := a.addHeaders + v.addHeaders);
    hide Leads, GoodStyle, PrintableBody, PrintableLimit, LimitLines, Each, InLocation, Later;
    LimitsLead(env, st, v, was);
    HeadersLead(env, st, v.addHeaders, a);
    RewritesLead(env, st, v.rewrites, b);
    LeadsThrough(InLocation(env), LimitLines(st, v), Each(HeaderLines(st), v.addHeaders),
                 Each(RewriteLines(st), v.rewrites), was, a, b, RulesOver(was, v));
  }

  lemma LocationLinesLead(env: Env, st: Style, v: Location, was: Location)
    requires GoodStyle(st) && PrintableBlock(env, v)
    ensures Leads(InLocation(env), LocationLines(st, v), was, Over(was, v))
  {
    var a := WorkOver(was, v);
    var b := RulesOver(a, v);
    WorkLeads(env, st, v, was);
    RulesLead(env, st, v, a);
    AuthLeads(env, v, b);
    hide Leads, GoodStyle, PrintableBlock, WorkLines, RuleLines, AuthLines, InLocation;
    LeadsThrough(InLocation(env), WorkLines(st, v), RuleLines(st, v), AuthLines(v), was, a, b, Over(was, v));
  }

  lemma BracedParts(head: seq<Token>, body: seq<Token>, rest: seq<Token>)
    ensures var ts := Braced(head, body) + rest; var n := |head|;
      n < |ts| == n + |body| + 2 + |rest| && ts[..n] == head && ts[n] == OpenBrace
      && ts == head + ([OpenBrace] + (body + ([CloseBrace] + rest))) && ts[n + 1..] == body + ([CloseBrace] + rest)
  {
    var inner := body + ([CloseBrace] + rest);
    Assoc(body, [CloseBrace], rest);
    Assoc([OpenBrace], body + [CloseBrace], rest);
    Assoc(head, [OpenBrace] + (body + [CloseBrace]), rest);
    CutAppend(head, [OpenBrace] + inner);
    CutAppend(head + [OpenBrace], inner);
    Assoc(head, [OpenBrace], inner);
  }

  /** A block whose lines lead from one value to the next is read to its closing brace. */
  lemma BlockRead<S(!new)>(d: Directive<S>, body: seq<Token>, was: S, next: S, rest: seq<Token>)
    requires Leads(BlockReader(d), body, was, next)
    ensures Block(d, body + ([CloseBrace] + rest), was) == Some((next, |body| + 1))
  {
    LeadsTo(BlockReader(d), body, was, next, [CloseBrace] + rest);
    BlockEnds(d, rest, next);
    hide Leads, Block;
  }

  lemma OverNew(loc: Location)
    requires CloseLocation(loc) == loc && (loc.handler.Static? ==> loc.answer.None?)
    ensures CloseLocation(Over(NewLocation(loc.pattern), loc)) == loc
  {
    assert [] + loc.addHeaders == loc.addHeaders && [] + loc.rewrites == loc.rewrites;
  }

  lemma LocationIsRead(env: Env, st: Style, loc: Location, rest: seq<Token>)
    requires GoodStyle(st) && PrintableLocation(env, loc)
    ensures var body := LocationLines(st, loc); var n := |PatternWords(loc.pattern)| + 1;
      LocationBody(env, loc.pattern, n, body + ([CloseBrace] + rest)) == Some((loc, n + |body| + 1))
  {
    var was := NewLocation(loc.pattern);
    hide Leads, GoodStyle, LocationLines, Over, Block, LocationStep, NewLocation, PatternWords, CloseLocation;
    LocationLinesLead(env, st, loc, was);
    OverNew(loc);
    BlockRead(LocationDirective(env), LocationLines(st, loc), was, Over(was, loc), rest);
  }

  /** The main result on locations: every printable location is read back from its tokens, whatever is
      behind them. */
  lemma LocationReadsBack(env: Env, st: Style, loc: Location, rest: seq<Token>)
    requires GoodStyle(st) && PrintableLocation(env, loc)
    ensures var ts := LocationTokens(st)(loc);
      ts != [] && ts[0] == Word("location") && ParseLocation(env, (ts + rest)[1..]) == Some((loc, |ts| - 1))
  {
    var head, body := PatternWords(loc.pattern), LocationLines(st, loc);
    hide GoodStyle, LocationLines, PrintablePattern, PatternWords, ParsePattern, Leading, Braced, LocationBody;
    LocationIsRead(env, st, loc, rest);
    PatternReads(env, head, loc.pattern);
    BracedParts(Words(head), body, rest);
    LeadingOfWords(head, [OpenBrace] + (body + ([CloseBrace] + rest)));
    assert Texts((Braced(Words(head), body) + rest)[..|head|]) == head;
    Assoc([Word("location")], Braced(Words(head), body), rest);
  }

  // ---- Servers ----

  function InServer(env: Env): Reader<Server> { BlockReader(ServerDirective(env)) }

  lemma MaybeInServer(env: Env, name: string, args: Option<seq<string>>, was: Server, next: Server)
    requires name != "location" && ServerShape(name).Some?
    requires match args case None => next == was
      case Some(a) => Takes(ServerShape(name).value, a) && ApplyServer(env, name, a, was) == Some(next)
    ensures Leads(InServer(env), Maybe(name, args), was, next)
  {
    hide ServerShape, ApplyServer, Leads;
    match args {
      case None => LeadsNowhere(InServer(env), was);
      case Some(a) => ServerLine(env, name, a, was, next);
    }
  }

  function ListensTo(was: Server, ls: seq<Listen>): nat -> Server {
    (k: nat) => was.(listen := was.listen + FirstOf(ls, k))
  }

  lemma ListensLead(env: Env, ls: seq<Listen>, was: Server)
    requires PortsAreNoAddresses(env) && forall l | l in ls :: PrintableListen(env, l)
    ensures Leads(InServer(env), Each(ListenLines, ls), was, was.(listen := was.listen + ls))
  {
    var at := ListensTo(was, ls);
    hide Leads, ListenWords, ParseListen, PrintableListen, PortsAreNoAddresses;
    forall k: nat | k < |ls| ensures Leads(InServer(env), ListenLines(ls[k]), at(k), at(k + 1)) {
      OneMoreOf(ls, k);
      Assoc(was.listen, FirstOf(ls, k), [ls[k]]);
      ListenReadsBack(env, ls[k]);
      ServerLine(env, "listen", ListenWords(ls[k]), at(k), at(k + 1));
    }
    EachLeads(InServer(env), ListenLines, at, ls);
    assert FirstOf(ls, |ls|) == ls && was.listen + FirstOf(ls, 0) == was.listen;
  }

  lemma NamesLead(env: Env, st: Style, ns: seq<ServerName>, was: Server)
    requires forall n | n in ns :: PrintableName(n)
    ensures Leads(InServer(env), NameLines(st, ns), was, was.(names := was.names + ns))
  {
    var a, b := FirstOf(ns, st.cut), Drop(ns, st.cut);
    assert a + b == ns;
    Assoc(was.names, a, b);
    NamesReadBack(a);
    NamesReadBack(b);
    var mid := was.(names := was.names + a);
    hide Leads, NameWords, ParseServerNames, PrintableName;
    ServerLine(env, "server_name", NameWords(a), was, mid);
    ServerLine(env, "server_name", NameWords(b), mid, was.(names := was.names + ns));
    LeadsOn(InServer(env), Line("server_name", NameWords(a)), Line("server_name", NameWords(b)), was, mid,
            was.(names := was.names + ns));
  }

  lemma RootLeadsInServer(env: Env, v: Server, was: Server)
    requires PrintableHost(env, v)
    ensures Leads(InServer(env), Maybe("root", Alone(v.root)), was, was.(root := Later(v.root, was.root)))
  {
    hide Leads, SafeRoot, PrintableListen, PrintableName;
    MaybeInServer(env, "root", Alone(v.root), was, was.(root := Later(v.root, was.root)));
  }

  lemma LogLeads(env: Env, l: Option<AccessLog>, was: Server)
    requires l.Some? ==> PrintableLog(l.value)
    ensures Leads(InServer(env), Maybe("access_log", LogArgs(l)), was, was.(accessLog := Later(l, was.accessLog)))
  {
    match l { case None => case Some(v) => LogReads(v, [""]); }
    hide Leads, LogWord, ParseAccessLog, PrintableLog;
    MaybeInServer(env, "access_log", LogArgs(l), was, was.(accessLog := Later(l, was.accessLog)));
  }

  lemma ServerBodySizeLeads(env: Env, st: Style, n: Option<nat>, was: Server)
    requires GoodStyle(st) && PrintableBody(n)
    ensures Leads(InServer(env), Maybe("client_max_body_size", Alone(SizeWord(st, n))), was,
                  was.(maxBody := Later(n, was.maxBody)))
  {
    hide Leads, GoodStyle, Size, SizeWord;
    SizeWordReads(st, n);
    MaybeInServer(env, "client_max_body_size", Alone(SizeWord(st, n)), was, was.(maxBody := Later(n, was.maxBody)));
  }

  function HostOver(was: Server, v: Server): Server {
    was.(listen := was.listen + v.listen, names := was.names + v.names, root := Later(v.root, was.root),
      index := v.index, accessLog := Later(v.accessLog, was.accessLog), maxBody := Later(v.maxBody, was.maxBody))
  }

  lemma IndexLeads(env: Env, index: seq<string>, was: Server)
    ensures Leads(InServer(env), Line("index", index), was, was.(index := index))
  {
    hide Leads;
    ServerLine(env, "index", index, was, was.(index := index));
  }

  lemma HostLeads(env: Env, st: Style, v: Server, was: Server)
    requires GoodStyle(st) && PortsAreNoAddresses(env) && PrintableHost(env, v)
    ensures Leads(InServer(env), HostLines(st, v), was, HostOver(was, v))
  {
    var read := InServer(env);
    var a := was.(listen := was.listen + v.listen);
    var b := a.(names := a.names + v.names);
    var c := b.(root := Later(v.root, b.root));
    var e := c.(index := v.index);
    var f := e.(accessLog := Later(v.accessLog, e.accessLog));
    hide Leads, GoodStyle, PrintableListen, PrintableName, PrintableLog, PrintableBody, PortsAreNoAddresses;
    hide Each, NameLines, Line, Maybe, InServer, Later;
    ListensLead(env, v.listen, was);
    NamesLead(env, st, v.names, a);
    RootLeadsInServer(env, v, b);
    IndexLeads(env, v.index, c);
    LogLeads(env, v.accessLog, e);
    ServerBodySizeLeads(env, st, v.maxBody, f);
    var l0, l1, l2 := Each(ListenLines, v.listen), NameLines(st, v.names), Maybe("root", Alone(v.root));
    var l3, l4 := Line("index", v.index), Maybe("access_log", LogArgs(v.accessLog));
    var l5 := Maybe("client_max_body_size", Alone(SizeWord(st, v.maxBody)));
    LeadsThrough(read, l0, l1, l2, was, a, b, c);
    LeadsThrough(read, l0 + l1 + l2, l3, l4, was, c, e, f);
    LeadsOn(read, l0 + l1 + l2 + l3 + l4, l5, was, f, HostOver(was, v));
  }

  function PagesTo(was: Server, ps: seq<ErrorPage>): nat -> Server {
    (k: nat) => was.(errorPages := was.errorPages + FirstOf(ps, k))
  }

  lemma PageLeads(env: Env, p: ErrorPage, was: Server)
    requires PrintableErrorPage(p)
    ensures Leads(InServer(env), ErrorPageLines(p), was, was.(errorPages := was.errorPages + [p]))
  {
    var args := CodeWords(p.codes) + [p.uri];
    assert |args| >= 2 && args[..|args| - 1] == CodeWords(p.codes) && args[|args| - 1] == p.uri;
    CodesReadBack(p.codes);
    hide Leads, CodeWords, Codes;
    ServerLine(env, "error_page", args, was, was.(errorPages := was.errorPages + [p]));
  }

  lemma PagesLead(env: Env, ps: seq<ErrorPage>, was: Server)
    requires forall p | p in ps :: PrintableErrorPage(p)
    ensures Leads(InServer(env), Each(ErrorPageLines, ps), was, was.(errorPages := was.errorPages + ps))
  {
    var at := PagesTo(was, ps);
    hide Leads, ErrorPageLines, PrintableErrorPage;
    forall k: nat | k < |ps| ensures Leads(InServer(env), ErrorPageLines(ps[k]), at(k), at(k + 1)) {
      OneMoreOf(ps, k);
      Assoc(was.errorPages, FirstOf(ps, k), [ps[k]]);
      PageLeads(env, ps[k], at(k));
    }
    EachLeads(InServer(env), ErrorPageLines, at, ps);
    assert FirstOf(ps, |ps|) == ps && was.errorPages + FirstOf(ps, 0) == was.errorPages;
  }

  function ServerHeadersTo(was: Server, hs: seq<(string, string)>): nat -> Server {
    (k: nat) => was.(addHeaders := was.addHeaders + FirstOf(hs, k))
  }

  lemma ServerHeadersLead(env: Env, st: Style, hs: seq<(string, string)>, was: Server)
    ensures Leads(InServer(env), Each(HeaderLines(st), hs), was, was.(addHeaders := was.addHeaders + hs))
  {
    var at := ServerHeadersTo(was, hs);
    hide Leads;
    forall k: nat | k < |hs| ensures Leads(InServer(env), HeaderLines(st)(hs[k]), at(k), at(k + 1)) {
      OneMoreOf(hs, k);
      Assoc(was.addHeaders, FirstOf(hs, k), [hs[k]]);
      ServerLine(env, "add_header", [hs[k].0, hs[k].1] + (if st.long then ["always"] else []), at(k), at(k + 1));
    }
    EachLeads(InServer(env), HeaderLines(st), at, hs);
    assert FirstOf(hs, |hs|) == hs && was.addHeaders + FirstOf(hs, 0) == was.addHeaders;
  }

  function ServerRewritesTo(was: Server, rs: seq<Rewrite>): nat -> Server {
    (k: nat) => was.(rewrites := was.rewrites + FirstOf(rs, k))
  }

  lemma ServerRewritesLead(env: Env, st: Style, rs: seq<Rewrite>, was: Server)
    ensures Leads(InServer(env), Each(RewriteLines(st), rs), was, was.(rewrites := was.rewrites + rs))
  {
    var at := ServerRewritesTo(was, rs);
    hide Leads, ParseRewrite, FlagWord;
    forall k: nat | k < |rs| ensures Leads(InServer(env), RewriteLines(st)(rs[k]), at(k), at(k + 1)) {
      OneMoreOf(rs, k);
      Assoc(was.rewrites, FirstOf(rs, k), [rs[k]]);
      RewriteWordsRead(st, rs[k]);
      ServerLine(env, "rewrite", RewriteWords(st, rs[k]), at(k), at(k + 1));
    }
    EachLeads(InServer(env), RewriteLines(st), at, rs);
    assert FirstOf(rs, |rs|) == rs && was.rewrites + FirstOf(rs, 0) == was.rewrites;
  }

  lemma ServerReturnLeads(env: Env, r: Option<ReturnDirective>, was: Server)
    requires r.Some? ==> PrintableReturn(r.value)
    ensures Leads(InServer(env), Maybe("return", ReturnArgs(r)), was, was.(answer := Later(r, was.answer)))
  {
    match r { case None => case Some(v) => ReturnReads(v); }
    hide Leads, ParseReturn;
    MaybeInServer(env, "return", ReturnArgs(r), was, was.(answer := Later(r, was.answer)));
  }

  lemma ServerLimitLeads(env: Env, l: Option<LimitReq>, was: Server)
    requires l.Some? ==> PrintableLimit(l.value)
    ensures Leads(InServer(env), Maybe("limit_req", LimitArgs(l)), was, was.(limitReq := Later(l, was.limitReq)))
  {
    match l { case None => case Some(v) => LimitReadsBack(v); }
    hide Leads, ParseLimitReq, LimitWords;
    MaybeInServer(env, "limit_req", LimitArgs(l), was, was.(limitReq := Later(l, was.limitReq)));
  }

  function AnswerOver(was: Server, v: Server): Server {
    was.(errorPages := was.errorPages + v.errorPages, addHeaders := was.addHeaders + v.addHeaders,
      answer := Later(v.answer, was.answer), limitReq := Later(v.limitReq, was.limitReq),
      rewrites := was.rewrites + v.rewrites)
  }

  lemma AnswerLeads(env: Env, st: Style, v: Server, was: Server)
    requires PrintableAnswer(v)
    ensures Leads(InServer(env), AnswerLines(st, v), was, AnswerOver(was, v))
  {
    var read := InServer(env);
    var a := was.(errorPages := was.errorPages + v.errorPages);
    var b := a.(addHeaders := a.addHeaders + v.addHeaders);
    var c := b.(answer := Later(v.answer, b.answer));
    var e := c.(limitReq := Later(v.limitReq, c.limitReq));
    hide Leads, PrintableErrorPage, PrintableReturn, PrintableLimit, Each, Maybe, InServer, Later;
    PagesLead(env, v.errorPages, was);
    ServerHeadersLead(env, st, v.addHeaders, a);
    ServerReturnLeads(env, v.answer, b);
    ServerLimitLeads(env, v.limitReq, c);
    ServerRewritesLead(env, st, v.rewrites, e);
    var l0, l1 := Each(ErrorPageLines, v.errorPages), Each(HeaderLines(st), v.addHeaders);
    var l2, l3 := Maybe("return", ReturnArgs(v.answer)), Maybe("limit_req", LimitArgs(v.limitReq));
    LeadsThrough(read, l0, l1, l2, was, a, b, c);
    LeadsThrough(read, l0 + l1 + l2, l3, Each(RewriteLines(st), v.rewrites), was, c, e, AnswerOver(was, v));
  }

  lemma ServerAuthLeads(env: Env, auth: Option<AuthBasic>, was: Server)
    requires auth.Some? ==> auth.value.realm != "off"
    ensures Leads(InServer(env), ServerAuthLines(auth), was, was.(auth := Later(auth, was.auth)))
  {
    hide Leads;
    match auth {
      case None => LeadsNowhere(InServer(env), was);
      case Some(v) =>
        var mid := was.(auth := Some(AuthBasic(v.realm, "")));
        ServerLine(env, "auth_basic", [v.realm], was, mid);
        ServerLine(env, "auth_basic_user_file", [v.userFile], mid, was.(auth := auth));
        LeadsOn(InServer(env), Line("auth_basic", [v.realm]), Line("auth_basic_user_file", [v.userFile]), was, mid,
                was.(auth := auth));
    }
  }

  lemma ProtocolsLead(env: Env, tls12: bool, was: Server)
    ensures Leads(InServer(env), Line("ssl_protocols", ProtocolWords(tls12)), was,
                  was.(tls := Some(TlsOf(was).(tls12 := tls12))))
  {
    assert ("TLSv1.2" in ProtocolWords(tls12)) == tls12 by { assert "TLSv1.2"[6] != "TLSv1.3"[6]; }
    hide Leads, ProtocolWords;
    ServerLine(env, "ssl_protocols", ProtocolWords(tls12), was, was.(tls := Some(TlsOf(was).(tls12 := tls12))));
  }

  lemma TlsLeads(env: Env, tls: Option<Tls>, was: Server)
    ensures Leads(InServer(env), TlsLines(tls), was, was.(tls := Later(tls, was.tls)))
  {
    var read := InServer(env);
    hide Leads, ProtocolWords;
    match tls {
      case None => LeadsNowhere(read, was);
      case Some(t) =>
        var a := was.(tls := Some(TlsOf(was).(certPath := t.certPath)));
        var b := a.(tls := Some(TlsOf(a).(keyPath := t.keyPath)));
        ServerLine(env, "ssl_certificate", [t.certPath], was, a);
        ServerLine(env, "ssl_certificate_key", [t.keyPath], a, b);
        ProtocolsLead(env, t.tls12, b);
        LeadsThrough(read, Line("ssl_certificate", [t.certPath]), Line("ssl_certificate_key", [t.keyPath]),
                     Line("ssl_protocols", ProtocolWords(t.tls12)), was, a, b, was.(tls := tls));
    }
  }

  lemma RedirectLeads(env: Env, st: Style, on: bool, was: Server)
    requires GoodStyle(st)
    ensures Leads(InServer(env), Line(Either(st, "ssl_redirect", "ssl-redirect"), [st.off(on)]), was,
                  was.(sslRedirect := on))
  {
    hide Leads, GoodStyle, Unquoted;
    SwitchesRead(st, on);
    ServerLine(env, Either(st, "ssl_redirect", "ssl-redirect"), [st.off(on)], was, was.(sslRedirect := on));
  }

  lemma SubdomainsLead(env: Env, st: Style, on: bool, was: Server)
    requires GoodStyle(st)
    ensures Leads(InServer(env), Line(Either(st, "hsts_include_subdomains", "hsts-include-subdomains"), [st.off(on)]),
                  was, was.(hstsSubdomains := on))
  {
    hide Leads, GoodStyle, Unquoted;
    SwitchesRead(st, on);
    ServerLine(env, Either(st, "hsts_include_subdomains", "hsts-include-subdomains"), [st.off(on)], was,
               was.(hstsSubdomains := on));
  }

  lemma MaxAgeLeads(env: Env, st: Style, n: nat, was: Server)
    requires GoodStyle(st) && n < U64
    ensures Leads(InServer(env), MaxAgeLines(st, Some(n)), was, was.(hstsMaxAge := Some(n)))
  {
    hide Leads, GoodStyle, Unquoted, Number, Shown;
    SwitchesRead(st, true);
    ShownReads(n, U64);
    if n == YEAR && st.long {
      ServerLine(env, "hsts", [st.off(true)], was, was.(hstsMaxAge := Some(n)));
    } else {
      ServerLine(env, Either(st, "hsts_max_age", "hsts-max-age"), [Shown(n)], was, was.(hstsMaxAge := Some(n)));
    }
  }

  lemma HstsLeads(env: Env, st: Style, v: Server, was: Server)
    requires GoodStyle(st) && PrintableSecurity(v)
    ensures Leads(InServer(env), HstsLines(st, v), was,
                  was.(hstsMaxAge := Later(v.hstsMaxAge, was.hstsMaxAge), hstsSubdomains := v.hstsSubdomains))
  {
    var mid := was.(hstsMaxAge := Later(v.hstsMaxAge, was.hstsMaxAge));
    hide Leads, GoodStyle, Line;
    match v.hstsMaxAge {
      case None => LeadsNowhere(InServer(env), was);
      case Some(n) => MaxAgeLeads(env, st, n, was);
    }
    SubdomainsLead(env, st, v.hstsSubdomains, mid);
    LeadsOn(InServer(env), MaxAgeLines(st, v.hstsMaxAge),
            Line(Either(st, "hsts_include_subdomains", "hsts-include-subdomains"), [st.off(v.hstsSubdomains)]),
            was, mid, mid.(hstsSubdomains := v.hstsSubdomains));
  }

  function SecurityOver(was: Server, v: Server): Server {
    was.(auth := Later(v.auth, was.auth), tls := Later(v.tls, was.tls), sslRedirect := v.sslRedirect,
      hstsMaxAge := Later(v.hstsMaxAge, was.hstsMaxAge), hstsSubdomains := v.hstsSubdomains)
  }

  lemma SecurityLeads(env: Env, st: Style, v: Server, was: Server)
    requires GoodStyle(st) && PrintableSecurity(v)
    ensures Leads(InServer(env), SecurityLines(st, v), was, SecurityOver(was, v))
  {
    var read := InServer(env);
    var a := was.(auth := Later(v.auth, was.auth));
    var b := a.(tls := Later(v.tls, a.tls));
    var c := b.(sslRedirect := v.sslRedirect);
    hide Leads, GoodStyle, Line, ServerAuthLines, TlsLines, HstsLines, InServer, Later;
    ServerAuthLeads(env, v.auth, was);
    TlsLeads(env, v.tls, a);
    RedirectLeads(env, st, v.sslRedirect, b);
    HstsLeads(env, st, v, c);
    var l2 := Line(Either(st, "ssl_redirect", "ssl-redirect"), [st.off(v.sslRedirect)]);
    LeadsThrough(read, ServerAuthLines(v.auth), TlsLines(v.tls), l2, was, a, b, c);
    LeadsOn(read, ServerAuthLines(v.auth) + TlsLines(v.tls) + l2, HstsLines(st, v), was, c, SecurityOver(was, v));
  }

  function LocationsTo(was: Server, ls: seq<Location>): nat -> Server {
    (k: nat) => was.(locations := was.locations + FirstOf(ls, k))
  }

  lemma LocationLeads(env: Env, st: Style, loc: Location, was: Server)
    requires GoodStyle(st) && PrintableLocation(env, loc) && |was.locations| < MAX_LOCATION_BLOCKS
    ensures Leads(InServer(env), LocationTokens(st)(loc), was, was.(locations := was.locations + [loc]))
  {
    var ts, next := LocationTokens(st)(loc), was.(locations := was.locations + [loc]);
    hide GoodStyle, PrintableLocation, LocationLines, ParseLocation, Block, Braced;
    forall rest: seq<Token> ensures LeadsBefore(InServer(env), ts, was, next, rest) {
      LocationReadsBack(env, st, loc, rest);
      OwnTokensParse(ServerDirective(env), ts, rest, "location", (ts + rest)[1..], was, next);
    }
  }

  lemma LocationsLead(env: Env, st: Style, ls: seq<Location>, was: Server)
    requires GoodStyle(st) && |was.locations| + |ls| <= MAX_LOCATION_BLOCKS
    requires forall loc | loc in ls :: PrintableLocation(env, loc)
    ensures Leads(InServer(env), Each(LocationTokens(st), ls), was, was.(locations := was.locations + ls))
  {
    var at := LocationsTo(was, ls);
    hide Leads, GoodStyle, LocationTokens, PrintableLocation;
    forall k: nat | k < |ls| ensures Leads(InServer(env), LocationTokens(st)(ls[k]), at(k), at(k + 1)) {
      OneMoreOf(ls, k);
      Assoc(was.locations, FirstOf(ls, k), [ls[k]]);
      LocationLeads(env, st, ls[k], at(k));
    }
    EachLeads(InServer(env), LocationTokens(st), at, ls);
    assert FirstOf(ls, |ls|) == ls && was.locations + FirstOf(ls, 0) == was.locations;
  }

  /** The directives of server v after those of another. */
  function ServerOver(was: Server, v: Server): Server {
    Server(was.listen + v.listen, was.names + v.names, Later(v.root, was.root), v.index, was.locations + v.locations,
      Later(v.tls, was.tls), Later(v.accessLog, was.accessLog), Later(v.maxBody, was.maxBody),
      was.errorPages + v.errorPages, was.addHeaders + v.addHeaders, Later(v.answer, was.answer),
      Later(v.limitReq, was.limitReq), was.rewrites + v.rewrites, Later(v.auth, was.auth), v.sslRedirect,
      Later(v.hstsMaxAge, was.hstsMaxAge), v.hstsSubdomains)
  }

  lemma ServerLinesLead(env: Env, st: Style, v: Server, was: Server)
    requires GoodStyle(st) && PortsAreNoAddresses(env) && PrintableServer(env, v)
    requires |was.locations| + |v.locations| <= MAX_LOCATION_BLOCKS
    ensures Leads(InServer(env), ServerLines(st, v), was, ServerOver(was, v))
  {
    var read := InServer(env);
    var a := HostOver(was, v);
    var b := AnswerOver(a, v);
    var c := SecurityOver(b, v);
    HostLeads(env, st, v, was);
    AnswerLeads(env, st, v, a);
    SecurityLeads(env, st, v, b);
    LocationsLead(env, st, v.locations, c);
    var l0, l1, l2 := HostLines(st, v), AnswerLines(st, v), SecurityLines(st, v);
    hide Leads, GoodStyle, PortsAreNoAddresses, PrintableServer, HostLines, AnswerLines, SecurityLines, Each, InServer;
    LeadsThrough(read, l0, l1, l2, was, a, b, c);
    LeadsOn(read, l0 + l1 + l2, Each(LocationTokens(st), v.locations), was, c, ServerOver(was, v));
  }

  lemma ServerOverNew(v: Server)
    ensures ServerOver(NEW_SERVER, v) == v
  {
    assert [] + v.listen == v.listen && [] + v.names == v.names && [] + v.locations == v.locations;
    assert [] + v.errorPages == v.errorPages && [] + v.addHeaders == v.addHeaders && [] + v.rewrites == v.rewrites;
  }

  lemma NamedBlock(name: string, body: seq<Token>, rest: seq<Token>)
    ensures var ts := ([Word(name)] + Braced([], body)) + rest;
      && |ts| == |body| + 3 + |rest| && ts[0] == Word(name) && ts[1] == OpenBrace
      && ts[1..][1..] == body + ([CloseBrace] + rest)
  {
    BracedParts([], body, rest);
    hide Braced;
    Assoc([Word(name)], Braced([], body), rest);
  }

  lemma ServerRead(env: Env, st: Style, srv: Server, rest: seq<Token>)
    requires GoodStyle(st) && PortsAreNoAddresses(env) && PrintableServer(env, srv)
    ensures ParseServer(env, ServerLines(st, srv) + ([CloseBrace] + rest)) == Some((srv, |ServerLines(st, srv)| + 1))
  {
    hide Leads, ServerLines, GoodStyle, ServerOver, PortsAreNoAddresses, Block, ServerStep;
    hide PrintableHost, PrintableAnswer, PrintableSecurity, PrintableLocation;
    ServerLinesLead(env, st, srv, NEW_SERVER);
    ServerOverNew(srv);
    BlockRead(ServerDirective(env), ServerLines(st, srv), NEW_SERVER, srv, rest);
  }

  /** The main result on servers: every printable server is read back from its tokens. */
  lemma ServerReadsBack(env: Env, st: Style, srv: Server, rest: seq<Token>)
    requires GoodStyle(st) && PortsAreNoAddresses(env) && PrintableServer(env, srv)
    ensures var ts := ServerTokens(st)(srv);
      && |ts| >= 2 && (ts + rest)[0] == Word("server") && (ts + rest)[1] == OpenBrace
      && ParseServer(env, (ts + rest)[1..][1..]) == Some((srv, |ts| - 2))
  {
    hide ServerLines, GoodStyle, PrintableServer, PortsAreNoAddresses, ParseServer, Braced;
    ServerRead(env, st, srv, rest);
    NamedBlock("server", ServerLines(st, srv), rest);
    NamedBlock("server", ServerLines(st, srv), []);
    assert ServerTokens(st)(srv) + [] == ServerTokens(st)(srv);
  }

  // ---- Upstream groups ----

  function PeersTo(was: UpstreamGroup, ps: seq<(string, nat)>): nat -> UpstreamGroup {
    (k: nat) => was.(peers := was.peers + FirstOf(ps, k))
  }

  lemma PeerLeads(p: (string, nat), was: UpstreamGroup)
    requires p.1 < U32
    ensures Leads(GroupReader(), PeerLines(p), was, was.(peers := was.peers + [p]))
  {
    var args := [p.0, "weight=" + Shown(p.1)];
    assert args[1..] == ["weight=" + Shown(p.1)];
    WeightReads(args[1..], 0, p.1);
    hide Leads, Shown, LastWith, Number;
    GroupLine("server", args, was, was.(peers := was.peers + [p]));
  }

  lemma PeersLead(ps: seq<(string, nat)>, was: UpstreamGroup)
    requires forall p | p in ps :: p.1 < U32
    ensures Leads(GroupReader(), Each(PeerLines, ps), was, was.(peers := was.peers + ps))
  {
    var at := PeersTo(was, ps);
    hide Leads, PeerLines;
    forall k: nat | k < |ps| ensures Leads(GroupReader(), PeerLines(ps[k]), at(k), at(k + 1)) {
      OneMoreOf(ps, k);
      Assoc(was.peers, FirstOf(ps, k), [ps[k]]);
      PeerLeads(ps[k], at(k));
    }
    EachLeads(GroupReader(), PeerLines, at, ps);
    assert FirstOf(ps, |ps|) == ps && was.peers + FirstOf(ps, 0) == was.peers;
  }

  lemma PolicyLeads(policy: string, was: UpstreamGroup)
    requires policy in ["round_robin", "least_conn", "ip_hash", "random"]
    ensures Leads(GroupReader(), PolicyLines(policy), was,
                  was.(policy := if policy == "round_robin" then was.policy else policy))
  {
    hide Leads;
    if policy == "round_robin" {
      LeadsNowhere(GroupReader(), was);
    } else {
      GroupLine(policy, [], was, was.(policy := policy));
    }
  }

  lemma KeepaliveLeads(n: nat, was: UpstreamGroup)
    requires n < U64
    ensures Leads(GroupReader(), Line("keepalive", [Shown(n)]), was, was.(keepalive := n))
  {
    hide Leads, Shown, Number;
    ShownReads(n, U64);
    GroupLine("keepalive", [Shown(n)], was, was.(keepalive := n));
  }

  lemma FailTimeoutLeads(st: Style, n: nat, was: UpstreamGroup)
    requires GoodStyle(st) && n < U64
    ensures Leads(GroupReader(), Line("fail_timeout", [st.seconds(n)]), was, was.(failTimeout := n))
  {
    hide Leads, GoodStyle, Seconds;
    NumbersRead(st, n);
    GroupLine("fail_timeout", [st.seconds(n)], was, was.(failTimeout := n));
  }

  lemma MaxFailsLeads(n: nat, was: UpstreamGroup)
    requires n < U32
    ensures Leads(GroupReader(), Line("max_fails", [Shown(n)]), was, was.(maxFails := n))
  {
    hide Leads, Shown, Number;
    ShownReads(n, U32);
    GroupLine("max_fails", [Shown(n)], was, was.(maxFails := n));
  }

  lemma HealthWordsRead(st: Style, g: UpstreamGroup) returns (a: string, b: string)
    ensures LastWith(HealthWords(st, g), "interval=") == Some(a) && |a| >= 9 && a[9..] == st.seconds(g.healthInterval)
    ensures LastWith(HealthWords(st, g), "timeout=") == Some(b) && |b| >= 8 && b[8..] == st.seconds(g.healthTimeout)
  {
    var args := HealthWords(st, g);
    a, b := args[0], args[1];
    assert a[0] == 'i' && b[0] == 't';
    hide LastWith;
    LastWithIs(args, "interval=", 0);
    LastWithIs(args, "timeout=", 1);
  }

  lemma HealthIs(args: seq<string>, a: string, b: string, interval: nat, time: nat, was: UpstreamGroup)
    requires LastWith(args, "interval=") == Some(a) && |a| >= 9 && Seconds(a[9..]) == Some(interval)
    requires LastWith(args, "timeout=") == Some(b) && |b| >= 8 && Seconds(b[8..]) == Some(time)
    ensures ApplyGroup("health_check", args, was) == Some(was.(healthInterval := interval, healthTimeout := time))
  {
    hide Seconds, LastWith;
  }

  lemma HealthReads(st: Style, g: UpstreamGroup) returns (a: string, b: string)
    requires GoodStyle(st) && g.healthInterval < U64 && g.healthTimeout < U64
    ensures LastWith(HealthWords(st, g), "interval=") == Some(a)
    ensures |a| >= 9 && Seconds(a[9..]) == Some(g.healthInterval)
    ensures LastWith(HealthWords(st, g), "timeout=") == Some(b)
    ensures |b| >= 8 && Seconds(b[8..]) == Some(g.healthTimeout)
  {
    hide GoodStyle, Seconds, LastWith, HealthWords;
    NumbersRead(st, g.healthInterval);
    NumbersRead(st, g.healthTimeout);
    a, b := HealthWordsRead(st, g);
  }

  lemma HealthLeads(st: Style, g: UpstreamGroup, was: UpstreamGroup)
    requires GoodStyle(st) && g.healthInterval < U64 && g.healthTimeout < U64
    ensures Leads(GroupReader(), Line("health_check", HealthWords(st, g)), was,
                  was.(healthInterval := g.healthInterval, healthTimeout := g.healthTimeout))
  {
    hide Leads, GoodStyle, Seconds, LastWith, HealthWords, ApplyGroup;
    var a, b := HealthReads(st, g);
    HealthIs(HealthWords(st, g), a, b, g.healthInterval, g.healthTimeout, was);
    GroupLine("health_check", HealthWords(st, g), was,
              was.(healthInterval := g.healthInterval, healthTimeout := g.healthTimeout));
  }

  /** The directives of group g after those of another. */
  function GroupOver(was: UpstreamGroup, g: UpstreamGroup): UpstreamGroup {
    UpstreamGroup(was.name, was.peers + g.peers, if g.policy == "round_robin" then was.policy else g.policy,
      g.healthInterval, g.healthTimeout, g.failTimeout, g.maxFails, g.keepalive)
  }

  lemma GroupLinesLead(st: Style, g: UpstreamGroup, was: UpstreamGroup)
    requires GoodStyle(st) && PrintableGroup(g)
    ensures Leads(GroupReader(), GroupLines(st, g), was, GroupOver(was, g))
  {
    var read := GroupReader();
    var a := was.(peers := was.peers + g.peers);
    var b := a.(policy := if g.policy == "round_robin" then a.policy else g.policy);
    var c := b.(keepalive := g.keepalive);
    var e := c.(failTimeout := g.failTimeout);
    var f := e.(maxFails := g.maxFails);
    hide Leads, GoodStyle, Line, Each, PolicyLines, GroupReader;
    PeersLead(g.peers, was);
    PolicyLeads(g.policy, a);
    KeepaliveLeads(g.keepalive, b);
    FailTimeoutLeads(st, g.failTimeout, c);
    MaxFailsLeads(g.maxFails, e);
    HealthLeads(st, g, f);
    var l0, l1, l2 := Each(PeerLines, g.peers), PolicyLines(g.policy), Line("keepalive", [Shown(g.keepalive)]);
    var l3, l4 := Line("fail_timeout", [st.seconds(g.failTimeout)]), Line("max_fails", [Shown(g.maxFails)]);
    LeadsThrough(read, l0, l1, l2, was, a, b, c);
    LeadsThrough(read, l0 + l1 + l2, l3, l4, was, c, e, f);
    LeadsOn(read, l0 + l1 + l2 + l3 + l4, Line("health_check", HealthWords(st, g)), was, f, GroupOver(was, g));
  }

  lemma GroupRead(st: Style, g: UpstreamGroup, rest: seq<Token>)
    requires GoodStyle(st) && PrintableGroup(g)
    ensures GroupBlock(GroupLines(st, g) + ([CloseBrace] + rest), NewGroup(g.name))
         == Some((g, |GroupLines(st, g)| + 1))
  {
    hide Leads, GoodStyle, GroupLines;
    GroupLinesLead(st, g, NewGroup(g.name));
    assert [] + g.peers == g.peers;
    LeadsTo(GroupReader(), GroupLines(st, g), NewGroup(g.name), g, [CloseBrace] + rest);
  }

  /** The main result on upstream groups: every printable group is read back from its tokens. */
  lemma GroupReadsBack(st: Style, g: UpstreamGroup, rest: seq<Token>)
    requires GoodStyle(st) && PrintableGroup(g)
    ensures var ts := GroupTokens(st)(g);
      ts != [] && (ts + rest)[0] == Word("upstream") && ParseGroup((ts + rest)[1..]) == Some((g, |ts| - 1))
  {
    var body := GroupLines(st, g);
    hide GoodStyle, GroupLines, GroupBlock, Braced, PrintableGroup;
    GroupRead(st, g, rest);
    BracedParts([Word(g.name)], body, rest);
    BracedParts([Word(g.name)], body, []);
    Assoc([Word("upstream")], Braced([Word(g.name)], body), rest);
    var after := Braced([Word(g.name)], body) + rest;
    assert after[..1][0] == after[0];
    assert after[2..] == body + ([CloseBrace] + rest);
  }

  // ---- Http ----

  function InHttp(env: Env, path: string): Reader<Http> { BlockReader(HttpDirective(env, path)) }

  lemma GzipLinesLead(env: Env, path: string, st: Style, on: bool, types: seq<string>, min: nat, was: Http)
    requires GoodStyle(st) && min < U64
    ensures Leads(InHttp(env, path), Line("gzip", [st.on(on)]) + Line("gzip_types", types)
      + Line("gzip_min_length", [st.size(min)]), was, was.(gzip := on, gzipTypes := types, gzipMinLength := min))
  {
    hide Leads, GoodStyle, Size;
    NumbersRead(st, min);
    SwitchesRead(st, on);
    var a, b := was.(gzip := on), was.(gzip := on, gzipTypes := types);
    HttpLine(env, path, "gzip", [st.on(on)], was, a);
    HttpLine(env, path, "gzip_types", types, a, b);
    HttpLine(env, path, "gzip_min_length", [st.size(min)], b, b.(gzipMinLength := min));
    LeadsThrough(InHttp(env, path), Line("gzip", [st.on(on)]), Line("gzip_types", types),
                 Line("gzip_min_length", [st.size(min)]), was, a, b, b.(gzipMinLength := min));
  }

  lemma BrotliLinesLead(env: Env, path: string, st: Style, on: bool, types: seq<string>, min: nat, was: Http)
    requires GoodStyle(st) && min < U64
    ensures Leads(InHttp(env, path), Line("brotli", [st.on(on)]) + Line("brotli_types", types)
      + Line("brotli_min_length", [st.size(min)]), was,
                  was.(brotli := on, brotliTypes := types, brotliMinLength := min))
  {
    hide Leads, GoodStyle, Size;
    NumbersRead(st, min);
    SwitchesRead(st, on);
    var a, b := was.(brotli := on), was.(brotli := on, brotliTypes := types);
    HttpLine(env, path, "brotli", [st.on(on)], was, a);
    HttpLine(env, path, "brotli_types", types, a, b);
    HttpLine(env, path, "brotli_min_length", [st.size(min)], b, b.(brotliMinLength := min));
    LeadsThrough(InHttp(env, path), Line("brotli", [st.on(on)]), Line("brotli_types", types),
                 Line("brotli_min_length", [st.size(min)]), was, a, b, b.(brotliMinLength := min));
  }

  lemma SizesLead(env: Env, path: string, st: Style, log: AccessLog, body: nat, was: Http)
    requires GoodStyle(st) && body <= ABSOLUTE_MAX_BODY_BYTES && PrintableLog(log)
    ensures Leads(InHttp(env, path), Line("access_log", [LogWord(log)]) + Line("client_max_body_size", [st.size(body)]),
                  was, was.(accessLog := log, maxBody := body))
  {
    hide Leads, GoodStyle, Size, ParseAccessLog, LogWord, PrintableLog;
    LogReads(log, [""]);
    NumbersRead(st, body);
    var a := was.(accessLog := log);
    HttpLine(env, path, "access_log", [LogWord(log)], was, a);
    HttpLine(env, path, "client_max_body_size", [st.size(body)], a, a.(maxBody := body));
    LeadsOn(InHttp(env, path), Line("access_log", [LogWord(log)]), Line("client_max_body_size", [st.size(body)]),
            was, a, a.(maxBody := body));
  }

  lemma KeepTimeLeads(env: Env, path: string, st: Style, n: nat, was: Http)
    requires GoodStyle(st) && n < U64
    ensures Leads(InHttp(env, path), Line("keepalive_timeout", [st.seconds(n)]), was, was.(keepaliveTimeout := n))
  {
    hide Leads, GoodStyle, Seconds;
    NumbersRead(st, n);
    HttpLine(env, path, "keepalive_timeout", [st.seconds(n)], was, was.(keepaliveTimeout := n));
  }

  lemma SendTimeLeads(env: Env, path: string, st: Style, n: nat, was: Http)
    requires GoodStyle(st) && n < U64
    ensures Leads(InHttp(env, path), Line("send_timeout", [st.seconds(n)]), was, was.(sendTimeout := n))
  {
    hide Leads, GoodStyle, Seconds;
    NumbersRead(st, n);
    HttpLine(env, path, "send_timeout", [st.seconds(n)], was, was.(sendTimeout := n));
  }

  lemma TimesLead(env: Env, path: string, st: Style, keep: nat, send: nat, was: Http)
    requires GoodStyle(st) && keep < U64 && send < U64
    ensures Leads(InHttp(env, path), Line("keepalive_timeout", [st.seconds(keep)])
      + Line("send_timeout", [st.seconds(send)]), was, was.(keepaliveTimeout := keep, sendTimeout := send))
  {
    hide Leads, GoodStyle, Line, InHttp;
    KeepTimeLeads(env, path, st, keep, was);
    SendTimeLeads(env, path, st, send, was.(keepaliveTimeout := keep));
    LeadsOn(InHttp(env, path), Line("keepalive_timeout", [st.seconds(keep)]), Line("send_timeout", [st.seconds(send)]),
            was, was.(keepaliveTimeout := keep), was.(keepaliveTimeout := keep, sendTimeout := send));
  }

  lemma AdminLeads(env: Env, path: string, key: string, user: string, password: string, was: Http)
    ensures Leads(InHttp(env, path), Line("api_key", [key]) + Line("webui_admin_user", [user])
      + Line("webui_admin_password", [password]), was,
                  was.(apiKey := key, adminUser := user, adminPassword := password))
  {
    hide Leads;
    var a, b := was.(apiKey := key), was.(apiKey := key, adminUser := user);
    HttpLine(env, path, "api_key", [key], was, a);
    HttpLine(env, path, "webui_admin_user", [user], a, b);
    HttpLine(env, path, "webui_admin_password", [password], b, b.(adminPassword := password));
    LeadsThrough(InHttp(env, path), Line("api_key", [key]), Line("webui_admin_user", [user]),
                 Line("webui_admin_password", [password]), was, a, b, b.(adminPassword := password));
  }

  function ValuesOver(was: Http, h: Http): Http {
    h.(zones := was.zones, upstreams := was.upstreams, servers := was.servers)
  }

  lemma ValuesLead(env: Env, path: string, st: Style, h: Http, was: Http)
    requires GoodStyle(st) && PrintableValues(h)
    ensures Leads(InHttp(env, path), CompressionLines(st, h) + ValueLines(st, h), was, ValuesOver(was, h))
  {
    var read := InHttp(env, path);
    var a := was.(gzip := h.gzip, gzipTypes := h.gzipTypes, gzipMinLength := h.gzipMinLength);
    var b := a.(brotli := h.brotli, brotliTypes := h.brotliTypes, brotliMinLength := h.brotliMinLength);
    var c := b.(accessLog := h.accessLog, maxBody := h.maxBody);
    var e := c.(keepaliveTimeout := h.keepaliveTimeout, sendTimeout := h.sendTimeout);
    hide Leads, GoodStyle, Line, LogWord, PrintableLog, InHttp;
    GzipLinesLead(env, path, st, h.gzip, h.gzipTypes, h.gzipMinLength, was);
    BrotliLinesLead(env, path, st, h.brotli, h.brotliTypes, h.brotliMinLength, a);
    LeadsOn(read, GzipLines(st, h), BrotliLines(st, h), was, a, b);
    SizesLead(env, path, st, h.accessLog, h.maxBody, b);
    TimesLead(env, path, st, h.keepaliveTimeout, h.sendTimeout, c);
    AdminLeads(env, path, h.apiKey, h.adminUser, h.adminPassword, e);
    LeadsThrough(read, SizeLines(st, h), TimeLines(st, h), AdminLines(h), b, c, e, ValuesOver(was, h));
    LeadsOn(read, CompressionLines(st, h), ValueLines(st, h), was, b, ValuesOver(was, h));
  }

  function ZonesTo(was: Http, zs: seq<(string, real)>): nat -> Http {
    (k: nat) => was.(zones := was.zones + FirstOf(zs, k))
  }

  lemma ZonesLead(env: Env, path: string, st: Style, zs: seq<(string, real)>, was: Http)
    requires forall z | z in zs :: PrintableZone(z) && PrintsReal(env, st.rate, z.1)
    ensures Leads(InHttp(env, path), Each(ZoneLines(st), zs), was, was.(zones := was.zones + zs))
  {
    var at := ZonesTo(was, zs);
    hide Leads, PrintableZone, PrintsReal, ParseZone, ZoneWords;
    forall k: nat | k < |zs| ensures Leads(InHttp(env, path), ZoneLines(st)(zs[k]), at(k), at(k + 1)) {
      OneMoreOf(zs, k);
      Assoc(was.zones, FirstOf(zs, k), [zs[k]]);
      ZoneReadsBack(env, st.rate, zs[k]);
      HttpLine(env, path, "limit_req_zone", ["$binary_remote_addr"] + ZoneWords(st.rate, zs[k]), at(k), at(k + 1));
    }
    EachLeads(InHttp(env, path), ZoneLines(st), at, zs);
    assert FirstOf(zs, |zs|) == zs && was.zones + FirstOf(zs, 0) == was.zones;
  }

  function GroupsTo(was: Http, gs: seq<UpstreamGroup>): nat -> Http {
    (k: nat) => was.(upstreams := was.upstreams + FirstOf(gs, k))
  }

  lemma GroupLeads(env: Env, path: string, st: Style, g: UpstreamGroup, was: Http)
    requires GoodStyle(st) && PrintableGroup(g)
    ensures Leads(InHttp(env, path), GroupTokens(st)(g), was, was.(upstreams := was.upstreams + [g]))
  {
    var ts, next := GroupTokens(st)(g), was.(upstreams := was.upstreams + [g]);
    hide GoodStyle, PrintableGroup, GroupTokens, ParseGroup, Block;
    forall rest: seq<Token> ensures LeadsBefore(InHttp(env, path), ts, was, next, rest) {
      GroupReadsBack(st, g, rest);
      OwnTokensParse(HttpDirective(env, path), ts, rest, "upstream", (ts + rest)[1..], was, next);
    }
  }

  lemma GroupsLead(env: Env, path: string, st: Style, gs: seq<UpstreamGroup>, was: Http)
    requires GoodStyle(st) && forall g | g in gs :: PrintableGroup(g)
    ensures Leads(InHttp(env, path), Each(GroupTokens(st), gs), was, was.(upstreams := was.upstreams + gs))
  {
    var at := GroupsTo(was, gs);
    hide Leads, GoodStyle, GroupTokens, PrintableGroup;
    forall k: nat | k < |gs| ensures Leads(InHttp(env, path), GroupTokens(st)(gs[k]), at(k), at(k + 1)) {
      OneMoreOf(gs, k);
      Assoc(was.upstreams, FirstOf(gs, k), [gs[k]]);
      GroupLeads(env, path, st, gs[k], at(k));
    }
    EachLeads(InHttp(env, path), GroupTokens(st), at, gs);
    assert FirstOf(gs, |gs|) == gs && was.upstreams + FirstOf(gs, 0) == was.upstreams;
  }

  function ServersTo(was: Http, ss: seq<Server>): nat -> Http {
    (k: nat) => was.(servers := was.servers + FirstOf(ss, k))
  }

  lemma ServerLeads(env: Env, path: string, st: Style, srv: Server, was: Http)
    requires GoodStyle(st) && PortsAreNoAddresses(env) && PrintableServer(env, srv)
    requires |was.servers| < MAX_SERVER_BLOCKS
    ensures Leads(InHttp(env, path), ServerTokens(st)(srv), was, was.(servers := was.servers + [srv]))
  {
    var ts, next := ServerTokens(st)(srv), was.(servers := was.servers + [srv]);
    hide GoodStyle, PortsAreNoAddresses, PrintableServer, ServerTokens, ParseServer, Block;
    forall rest: seq<Token> ensures LeadsBefore(InHttp(env, path), ts, was, next, rest) {
      ServerReadsBack(env, st, srv, rest);
      OwnTokensParse(HttpDirective(env, path), ts, rest, "server", (ts + rest)[1..], was, next);
    }
  }

  lemma ServersLead(env: Env, path: string, st: Style, ss: seq<Server>, was: Http)
    requires GoodStyle(st) && PortsAreNoAddresses(env) && PrintableServers(env, ss)
    requires |was.servers| + |ss| <= MAX_SERVER_BLOCKS
    ensures Leads(InHttp(env, path), Each(ServerTokens(st), ss), was, was.(servers := was.servers + ss))
  {
    var at := ServersTo(was, ss);
    hide Leads, GoodStyle, ServerTokens, PrintableServer, PortsAreNoAddresses;
    forall k: nat | k < |ss| ensures Leads(InHttp(env, path), ServerTokens(st)(ss[k]), at(k), at(k + 1)) {
      OneMoreOf(ss, k);
      Assoc(was.servers, FirstOf(ss, k), [ss[k]]);
      ServerLeads(env, path, st, ss[k], at(k));
    }
    EachLeads(InHttp(env, path), ServerTokens(st), at, ss);
    assert FirstOf(ss, |ss|) == ss && was.servers + FirstOf(ss, 0) == was.servers;
  }

  /** The directives of http block h after those of another. */
  function HttpOver(was: Http, h: Http): Http {
    h.(zones := was.zones + h.zones, upstreams := was.upstreams + h.upstreams, servers := was.servers + h.servers)
  }

  lemma HttpLinesLead(env: Env, path: string, st: Style, h: Http, was: Http)
    requires GoodStyle(st) && PortsAreNoAddresses(env) && PrintableHttp(env, h) && RatesPrint(env, st, h)
    requires |was.servers| + |h.servers| <= MAX_SERVER_BLOCKS
    ensures Leads(InHttp(env, path), HttpLines(st, h), was, HttpOver(was, h))
  {
    var read := InHttp(env, path);
    var a := ValuesOver(was, h);
    var b := a.(zones := was.zones + h.zones);
    var c := b.(upstreams := was.upstreams + h.upstreams);
    hide Leads, GoodStyle, PortsAreNoAddresses, PrintableValues, PrintableZone, PrintableGroup, PrintableServers;
    hide PrintsReal, CompressionLines, ValueLines, Each, InHttp;
    ValuesLead(env, path, st, h, was);
    ZonesLead(env, path, st, h.zones, a);
    GroupsLead(env, path, st, h.upstreams, b);
    ServersLead(env, path, st, h.servers, c);
    var l0, l1 := CompressionLines(st, h) + ValueLines(st, h), Each(ZoneLines(st), h.zones);
    LeadsThrough(read, l0, l1, Each(GroupTokens(st), h.upstreams), was, a, b, c);
    LeadsOn(read, l0 + l1 + Each(GroupTokens(st), h.upstreams), Each(ServerTokens(st), h.servers), was, c,
            HttpOver(was, h));
  }

  lemma HttpOverNew(h: Http)
    ensures DEFAULT_HTTP.servers == [] && HttpOver(DEFAULT_HTTP, h) == h
  {
    assert [] + h.zones == h.zones && [] + h.upstreams == h.upstreams && [] + h.servers == h.servers;
  }

  /** The main result on http blocks: every printable block of at most 256 servers is read back. */
  lemma HttpReadsBack(env: Env, path: string, st: Style, h: Http, rest: seq<Token>)
    requires GoodStyle(st) && PortsAreNoAddresses(env) && PrintableHttp(env, h) && RatesPrint(env, st, h)
    requires |h.servers| <= MAX_SERVER_BLOCKS
    ensures ParseHttp(env, path, HttpLines(st, h) + ([CloseBrace] + rest)) == Some((h, |HttpLines(st, h)| + 1))
  {
    hide *;
    HttpOverNew(h);
    HttpLinesLead(env, path, st, h, DEFAULT_HTTP);
    HttpIsRead(env, path, HttpLines(st, h), h, rest);
  }

  lemma HttpIsRead(env: Env, path: string, body: seq<Token>, h: Http, rest: seq<Token>)
    requires Leads(InHttp(env, path), body, DEFAULT_HTTP, h)
    ensures ParseHttp(env, path, body + ([CloseBrace] + rest)) == Some((h, |body| + 1))
  {
    hide Leads, Block, HttpStep;
    BlockRead(HttpDirective(env, path), body, DEFAULT_HTTP, h, rest);
  }
}

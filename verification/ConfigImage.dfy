/** Which configurations there are: what the parser makes is printable, so that the printable values are
    exactly those that some text stands for. */
module ConfigImage {
  import opened Common
  import opened Tokenizer
  import opened ConfigTypes
  import opened ConfigGrammar
  import opened ConfigLocality
  import opened ConfigLoading
  import opened ConfigReading
  import opened ConfigWords
  import opened ConfigPrinter
  import opened ConfigReadBack
  import opened ConfigRoundTrip

  // ---- Locations ----

  lemma SecondsBelow(s: string)
    ensures Seconds(s).Some? ==> Seconds(s).value < U64
  {
    hide Number, TrimEnd;
    NumberBelow(TrimEnd(s, {'s'}), U64);
  }

  lemma SizeBelow(s: string)
    ensures Size(s).Some? ==> Size(s).value < U64
  {
    hide Number, Unspaced;
  }

  lemma WithHandler(env: Env, loc: Location, h: Handler)
    requires PrintableBlock(env, loc) && PrintableHandler(env, h) && !h.Static? && !h.Return?
    ensures PrintableBlock(env, loc.(handler := h))
  {
    hide PrintablePattern, PrintableHandler, PrintableReturn, PrintableTry, PrintableLimit, SafeRoot;
  }

  lemma HandlerOf(env: Env, loc: Location)
    requires PrintableBlock(env, loc)
    ensures PrintableHandler(env, loc.handler)
  {
    hide PrintablePattern, PrintableHandler, PrintableReturn, PrintableTry, PrintableLimit, SafeRoot;
  }

  lemma WithAnswer(env: Env, loc: Location, r: ReturnDirective)
    requires PrintableBlock(env, loc) && PrintableReturn(r)
    ensures PrintableBlock(env, loc.(answer := Some(r), handler := Return(r)))
  {
    hide PrintablePattern, PrintableReturn, PrintableTry, PrintableLimit, SafeRoot;
  }

  predicate SameWork(a: Location, b: Location) {
    a.pattern == b.pattern && a.handler == b.handler && a.answer == b.answer
  }

  /** The fields that are constrained, each on its own. */
  lemma WithRules(env: Env, loc: Location, next: Location)
    requires PrintableBlock(env, loc) && SameWork(loc, next)
    requires next.root == loc.root || (next.root.Some? && SafeRoot(next.root.value))
    requires next.tryFiles == loc.tryFiles
      || (next.tryFiles.Some? && forall t | t in next.tryFiles.value :: PrintableTry(t))
    requires next.maxBody == loc.maxBody || PrintableBody(next.maxBody)
    requires next.limitReq == loc.limitReq || (next.limitReq.Some? ==> PrintableLimit(next.limitReq.value))
    requires next.realm == loc.realm || next.realm != Some("off")
    ensures PrintableBlock(env, next)
  {
    hide PrintablePattern, PrintableHandler, PrintableReturn, PrintableTry, PrintableLimit, SafeRoot;
  }

  lemma PassStaysPrintable(env: Env, name: string, args: seq<string>, loc: Location)
    requires name in ["proxy_pass", "fastcgi_pass", "return"]
    requires LocationShape(name).Some? && Takes(LocationShape(name).value, args)
    requires PrintableBlock(env, loc) && ApplyLocation(env, name, args, loc).Some?
    ensures PrintableBlock(env, ApplyLocation(env, name, args, loc).value)
  {
    hide PrintableBlock, PrintableUpstream, PrintableReturn, ParseFastCgiUpstream, ParseReturn;
    if name == "proxy_pass" {
      WithHandler(env, loc, Proxy(args[0], [], 60, true, false));
    } else if name == "fastcgi_pass" {
      var u := ParseFastCgiUpstream(env, args[0]).value;
      ParsedUpstreamIsPrintable(env, args[0], u);
      WithHandler(env, loc, FastCgi(u, [], None, 60));
    } else {
      ParsedReturnIsPrintable(args, ParseReturn(args).value);
      WithAnswer(env, loc, ParseReturn(args).value);
    }
  }

  predicate IsHandlerSetting(name: string) {
    name in ["fastcgi_param", "fastcgi_index", "fastcgi_read_timeout", "proxy_set_header", "proxy_read_timeout",
             "proxy_buffering", "proxy_allow_internal"]
  }

  lemma SettingStaysPrintable(env: Env, name: string, args: seq<string>, loc: Location)
    requires IsHandlerSetting(name) && LocationShape(name).Some? && Takes(LocationShape(name).value, args)
    requires PrintableBlock(env, loc)
    ensures var r := ApplyLocation(env, name, args, loc); r.Some? && PrintableBlock(env, r.value)
  {
    hide PrintableBlock, PrintableUpstream, Seconds;
    SecondsBelow(args[0]);
    HandlerOf(env, loc);
    var h := ApplyLocation(env, name, args, loc).value.handler;
    if loc.handler.FastCgi? || loc.handler.Proxy? { WithHandler(env, loc, h); }
  }

  lemma RuleStaysPrintable(env: Env, name: string, args: seq<string>, loc: Location)
    requires !IsHandlerSetting(name) && name !in ["proxy_pass", "fastcgi_pass", "return"]
    requires LocationShape(name).Some? && Takes(LocationShape(name).value, args)
    requires PrintableBlock(env, loc) && ApplyLocation(env, name, args, loc).Some?
    ensures PrintableBlock(env, ApplyLocation(env, name, args, loc).value)
  {
    hide PrintableBlock, PrintableTry, PrintableLimit, SafeRoot, Size, ParseTryFiles, ParseLimitReq, ParseRewrite;
    ParsedTriesArePrintable(args);
    ParsedLimitIsPrintable(args);
    WithRules(env, loc, ApplyLocation(env, name, args, loc).value);
  }

  lemma LocationStaysPrintable(env: Env, name: string, ts: seq<Token>, loc: Location)
    requires PrintableBlock(env, loc) && LocationStep(env, name, ts, loc).Some?
    ensures PrintableBlock(env, LocationStep(env, name, ts, loc).value.0)
  {
    hide PrintableBlock, ApplyLocation, LocationShape, SkipUnknown, Args, IsHandlerSetting;
    match LocationShape(name) {
      case None =>
      case Some(shape) =>
        var args := Args(shape, ts).value.0;
        if name in ["proxy_pass", "fastcgi_pass", "return"] { PassStaysPrintable(env, name, args, loc); }
        else if IsHandlerSetting(name) { SettingStaysPrintable(env, name, args, loc); }
        else { RuleStaysPrintable(env, name, args, loc); }
    }
  }

  lemma ParsedBlockIsPrintable(env: Env, pattern: Pattern, ts: seq<Token>)
    requires PrintablePattern(env, pattern) && Block(LocationDirective(env), ts, NewLocation(pattern)).Some?
    ensures PrintableBlock(env, Block(LocationDirective(env), ts, NewLocation(pattern)).value.0)
  {
    assert PrintableBlock(env, NewLocation(pattern));
    hide PrintableBlock, LocationStep, Block;
    forall name, ts', s | PrintableBlock(env, s) && LocationDirective(env)(name, ts', s).Some?
      ensures PrintableBlock(env, LocationDirective(env)(name, ts', s).value.0)
    {
      LocationStaysPrintable(env, name, ts', s);
    }
    BlockKeeps(LocationDirective(env), s => PrintableBlock(env, s), ts, NewLocation(pattern));
  }

  lemma ClosedIsPrintable(env: Env, loc: Location)
    requires PrintableBlock(env, loc)
    ensures PrintableLocation(env, CloseLocation(loc))
  {
    hide PrintablePattern, PrintableHandler, PrintableReturn, PrintableTry, PrintableLimit, SafeRoot;
  }

  lemma ParsedLocationIsPrintable(env: Env, ts: seq<Token>)
    requires ParseLocation(env, ts).Some?
    ensures PrintableLocation(env, ParseLocation(env, ts).value.0)
  {
    hide Leading, ParsePattern, PrintablePattern, PrintableBlock, Block, CloseLocation, PatternWords, PrintableLocation;
    hide LocationStep, NewLocation;
    var k := Leading(ts);
    var pattern := ParsePattern(env, Texts(ts[..k])).value;
    PatternReads(env, Texts(ts[..k]), pattern);
    ParsedBlockIsPrintable(env, pattern, ts[k + 1..]);
    ClosedIsPrintable(env, Block(LocationDirective(env), ts[k + 1..], NewLocation(pattern)).value.0);
  }

  // ---- Servers ----

  /** What a directive may do to the constrained fields of a server. */
  lemma WithHost(env: Env, srv: Server, next: Server, ls: seq<Listen>, ns: seq<ServerName>)
    requires PrintableHost(env, srv)
    requires next.listen == srv.listen + ls && forall l | l in ls :: PrintableListen(env, l)
    requires next.names == srv.names + ns && forall n | n in ns :: PrintableName(n)
    requires next.root == srv.root || (next.root.Some? && SafeRoot(next.root.value))
    requires next.accessLog == srv.accessLog || (next.accessLog.Some? && PrintableLog(next.accessLog.value))
    requires next.maxBody == srv.maxBody || PrintableBody(next.maxBody)
    ensures PrintableHost(env, next)
  {
    hide PrintableListen, PrintableName, SafeRoot, PrintableLog, PrintableBody;
  }

  lemma WithAnswers(srv: Server, next: Server, ps: seq<ErrorPage>)
    requires PrintableAnswer(srv)
    requires next.errorPages == srv.errorPages + ps && forall p | p in ps :: PrintableErrorPage(p)
    requires next.answer == srv.answer || (next.answer.Some? && PrintableReturn(next.answer.value))
    requires next.limitReq == srv.limitReq || (next.limitReq.Some? ==> PrintableLimit(next.limitReq.value))
    ensures PrintableAnswer(next)
  {
    hide PrintableErrorPage, PrintableReturn, PrintableLimit;
  }

  predicate IsHostDirective(name: string) {
    name in ["listen", "server_name", "root", "index", "access_log", "client_max_body_size"]
  }

  predicate IsAnswerDirective(name: string) { name in ["error_page", "return", "limit_req", "add_header", "rewrite"] }

  lemma HostStaysPrintable(env: Env, name: string, args: seq<string>, srv: Server)
    requires ServerShape(name).Some? && Takes(ServerShape(name).value, args) && IsHostDirective(name)
    requires PrintableHost(env, srv) && ApplyServer(env, name, args, srv).Some?
    ensures var next := ApplyServer(env, name, args, srv).value;
      && PrintableHost(env, next)
      && next == srv.(listen := next.listen, names := next.names, root := next.root, index := next.index,
                      accessLog := next.accessLog, maxBody := next.maxBody)
  {
    hide PrintableHost, PrintableListen, PrintableName, SafeRoot, PrintableLog, PrintableBody;
    hide ParseListen, ParseServerNames, ParseAccessLog, Size;
    var next := ApplyServer(env, name, args, srv).value;
    if name == "listen" {
      var l := ParseListen(env, args).value;
      ParsedListenIsPrintable(env, args, l);
      assert srv.names + [] == srv.names;
      WithHost(env, srv, next, [l], []);
    } else if name == "server_name" {
      ParsedNamesArePrintable(args);
      assert srv.listen + [] == srv.listen;
      WithHost(env, srv, next, [], ParseServerNames(args));
    } else {
      if args != [] { LogReads(LogOff, args); }
      assert srv.listen + [] == srv.listen && srv.names + [] == srv.names;
      BodyIsBounded(next.maxBody);
      WithHost(env, srv, next, [], []);
    }
  }

  lemma BodyIsBounded(n: Option<nat>)
    ensures n.Some? && n.value <= ABSOLUTE_MAX_BODY_BYTES ==> PrintableBody(n)
  {
  }

  lemma AnswerStaysPrintable(env: Env, name: string, args: seq<string>, srv: Server)
    requires ServerShape(name).Some? && Takes(ServerShape(name).value, args) && IsAnswerDirective(name)
    requires PrintableAnswer(srv) && ApplyServer(env, name, args, srv).Some?
    ensures var next := ApplyServer(env, name, args, srv).value;
      && PrintableAnswer(next)
      && next == srv.(errorPages := next.errorPages, addHeaders := next.addHeaders, answer := next.answer,
                      limitReq := next.limitReq, rewrites := next.rewrites)
  {
    hide PrintableAnswer, PrintableReturn, PrintableLimit, PrintableCodes;
    hide Codes, ParseReturn, ParseLimitReq, ParseRewrite;
    var next := ApplyServer(env, name, args, srv).value;
    if name == "error_page" {
      var codes := if |args| >= 2 then Codes(args[..|args| - 1]) else [];
      if codes == [] {
        assert srv.errorPages + [] == srv.errorPages;
        WithAnswers(srv, next, []);
      } else {
        ParsedCodesArePrintable(args[..|args| - 1]);
        WithAnswers(srv, next, [ErrorPage(codes, args[|args| - 1])]);
      }
    } else {
      assert srv.errorPages + [] == srv.errorPages;
      if name == "return" { ParsedReturnIsPrintable(args, ParseReturn(args).value); }
      ParsedLimitIsPrintable(args);
      WithAnswers(srv, next, []);
    }
  }

  predicate IsTlsDirective(name: string) { name in ["ssl_certificate", "ssl_certificate_key", "ssl_protocols"] }

  predicate IsAgeDirective(name: string) { name in ["hsts_max_age", "hsts-max-age"] }

  predicate OnlySecurity(srv: Server, next: Server) {
    next == srv.(auth := next.auth, tls := next.tls, sslRedirect := next.sslRedirect, hstsMaxAge := next.hstsMaxAge,
                 hstsSubdomains := next.hstsSubdomains)
  }

  lemma AuthStaysPrintable(env: Env, name: string, args: seq<string>, srv: Server)
    requires ServerShape(name).Some? && Takes(ServerShape(name).value, args) && name == "auth_basic"
    requires PrintableSecurity(srv) && ApplyServer(env, name, args, srv).Some?
    ensures PrintableSecurity(ApplyServer(env, name, args, srv).value)
    ensures OnlySecurity(srv, ApplyServer(env, name, args, srv).value)
  {
  }

  lemma UserFileStaysPrintable(env: Env, name: string, args: seq<string>, srv: Server)
    requires ServerShape(name).Some? && Takes(ServerShape(name).value, args) && name == "auth_basic_user_file"
    requires PrintableSecurity(srv) && ApplyServer(env, name, args, srv).Some?
    ensures PrintableSecurity(ApplyServer(env, name, args, srv).value)
    ensures OnlySecurity(srv, ApplyServer(env, name, args, srv).value)
  {
    assert "Restricted"[0] != "off"[0];
  }

  lemma YearStaysPrintable(env: Env, name: string, args: seq<string>, srv: Server)
    requires ServerShape(name).Some? && Takes(ServerShape(name).value, args) && name == "hsts"
    requires PrintableSecurity(srv) && ApplyServer(env, name, args, srv).Some?
    ensures PrintableSecurity(ApplyServer(env, name, args, srv).value)
    ensures OnlySecurity(srv, ApplyServer(env, name, args, srv).value)
  {
    hide Unquoted;
  }

  lemma TlsStaysPrintable(env: Env, name: string, args: seq<string>, srv: Server)
    requires ServerShape(name).Some? && Takes(ServerShape(name).value, args) && IsTlsDirective(name)
    requires PrintableSecurity(srv) && ApplyServer(env, name, args, srv).Some?
    ensures PrintableSecurity(ApplyServer(env, name, args, srv).value)
    ensures OnlySecurity(srv, ApplyServer(env, name, args, srv).value)
  {
    hide TlsOf;
  }

  lemma AgeStaysPrintable(env: Env, name: string, args: seq<string>, srv: Server)
    requires ServerShape(name).Some? && Takes(ServerShape(name).value, args) && IsAgeDirective(name)
    requires PrintableSecurity(srv) && ApplyServer(env, name, args, srv).Some?
    ensures PrintableSecurity(ApplyServer(env, name, args, srv).value)
    ensures OnlySecurity(srv, ApplyServer(env, name, args, srv).value)
  {
    hide Number, Unquoted;
    NumberBelow(args[0], U64);
  }

  lemma SwitchStaysPrintable(env: Env, name: string, args: seq<string>, srv: Server)
    requires ServerShape(name).Some? && Takes(ServerShape(name).value, args)
    requires !IsHostDirective(name) && !IsAnswerDirective(name)
    requires name !in ["auth_basic", "auth_basic_user_file", "hsts"] && !IsTlsDirective(name) && !IsAgeDirective(name)
    requires PrintableSecurity(srv) && ApplyServer(env, name, args, srv).Some?
    ensures PrintableSecurity(ApplyServer(env, name, args, srv).value)
    ensures OnlySecurity(srv, ApplyServer(env, name, args, srv).value)
  {
    hide Unquoted, TlsOf, Number, ParseListen, ParseServerNames, SafeRoot, ParseAccessLog, Size, ParseLimitReq;
    hide ParseRewrite, Codes, ParseReturn;
  }

  lemma ApplyServerStaysPrintable(env: Env, name: string, args: seq<string>, srv: Server)
    requires ServerShape(name).Some? && Takes(ServerShape(name).value, args)
    requires PrintableServer(env, srv) && ApplyServer(env, name, args, srv).Some?
    ensures PrintableServer(env, ApplyServer(env, name, args, srv).value)
  {
    hide ServerShape, ApplyServer, PrintableLocations;
    hide IsHostDirective, IsAnswerDirective, IsTlsDirective, IsAgeDirective;
    var next := ApplyServer(env, name, args, srv).value;
    if IsHostDirective(name) {
      HostStaysPrintable(env, name, args, srv);
      hide PrintableHost;
    } else if IsAnswerDirective(name) {
      AnswerStaysPrintable(env, name, args, srv);
      hide PrintableAnswer;
    } else {
      if name == "auth_basic" { AuthStaysPrintable(env, name, args, srv); }
      else if name == "auth_basic_user_file" { UserFileStaysPrintable(env, name, args, srv); }
      else if name == "hsts" { YearStaysPrintable(env, name, args, srv); }
      else if IsTlsDirective(name) { TlsStaysPrintable(env, name, args, srv); }
      else if IsAgeDirective(name) { AgeStaysPrintable(env, name, args, srv); }
      else { SwitchStaysPrintable(env, name, args, srv); }
      hide PrintableSecurity;
    }
  }

  lemma ServerStaysPrintable(env: Env, name: string, ts: seq<Token>, srv: Server)
    requires PrintableServer(env, srv) && ServerStep(env, name, ts, srv).Some?
    ensures PrintableServer(env, ServerStep(env, name, ts, srv).value.0)
  {
    hide ApplyServer, ServerShape, SkipUnknown, Args, ParseLocation, PrintableLocation;
    if name == "location" {
      ParsedLocationIsPrintable(env, ts);
      hide PrintableListen, PrintableName, PrintableErrorPage;
    } else if ServerShape(name).Some? {
      hide PrintableServer;
      ApplyServerStaysPrintable(env, name, Args(ServerShape(name).value, ts).value.0, srv);
    }
  }

  lemma ParsedServerIsPrintable(env: Env, ts: seq<Token>)
    requires ParseServer(env, ts).Some?
    ensures PrintableServer(env, ParseServer(env, ts).value.0)
  {
    assert PrintableServer(env, NEW_SERVER);
    hide PrintableServer, ServerStep, Block;
    forall name, ts', s | PrintableServer(env, s) && ServerDirective(env)(name, ts', s).Some?
      ensures PrintableServer(env, ServerDirective(env)(name, ts', s).value.0)
    {
      ServerStaysPrintable(env, name, ts', s);
    }
    BlockKeeps(ServerDirective(env), s => PrintableServer(env, s), ts, NEW_SERVER);
  }

  // ---- Upstream groups ----

  lemma ApplyGroupStaysPrintable(name: string, args: seq<string>, g: UpstreamGroup)
    requires GroupShape(name).Some? && Takes(GroupShape(name).value, args)
    requires PrintableGroup(g) && ApplyGroup(name, args, g).Some?
    ensures PrintableGroup(ApplyGroup(name, args, g).value)
  {
    hide Number, Seconds, LastWith;
    if args != [] {
      NumberBelow(args[0], U64);
      NumberBelow(args[0], U32);
      SecondsBelow(args[0]);
    }
    if name == "server" {
      match LastWith(args[1..], "weight=") { case None => case Some(w) => NumberBelow(w[7..], U32); }
    } else if name == "health_check" {
      match LastWith(args, "interval=") { case None => case Some(a) => SecondsBelow(a[9..]); }
      match LastWith(args, "timeout=") { case None => case Some(a) => SecondsBelow(a[8..]); }
    }
  }

  lemma GroupStaysPrintable(name: string, ts: seq<Token>, g: UpstreamGroup)
    requires PrintableGroup(g) && GroupStep(name, ts, g).Some?
    ensures PrintableGroup(GroupStep(name, ts, g).value.0)
  {
    hide PrintableGroup, ApplyGroup, GroupShape, Leading, Args;
    if GroupShape(name).Some? { ApplyGroupStaysPrintable(name, Args(GroupShape(name).value, ts).value.0, g); }
  }

  lemma {:induction false} GroupBlockStaysPrintable(ts: seq<Token>, g: UpstreamGroup)
    requires PrintableGroup(g) && GroupBlock(ts, g).Some?
    ensures PrintableGroup(GroupBlock(ts, g).value.0)
    decreases |ts|
  {
    hide PrintableGroup, GroupStep;
    if ts == [] || ts[0] == CloseBrace {
    } else if !ts[0].Word? {
      GroupBlockStaysPrintable(ts[1..], g);
    } else {
      GroupStaysPrintable(ts[0].text, ts[1..], g);
      var (next, n) := GroupStep(ts[0].text, ts[1..], g).value;
      GroupBlockStaysPrintable(Drop(ts[1..], n), next);
    }
  }

  lemma ParsedGroupIsPrintable(ts: seq<Token>)
    requires ParseGroup(ts).Some?
    ensures PrintableGroup(ParseGroup(ts).value.0)
  {
    hide GroupBlock;
    GroupBlockStaysPrintable(ts[2..], NewGroup(ts[0].text));
  }

  // ---- Http ----

  lemma {:induction false} ScannedArePrintable(env: Env, ts: seq<Token>, servers: seq<Server>)
    requires PrintableServers(env, servers) && ScanServers(env, ts, servers).Some?
    ensures PrintableServers(env, ScanServers(env, ts, servers).value)
    decreases |ts|
  {
    hide ParseServer, PrintableServer;
    if ts != [] {
      if ts[0] == Word("server") && |ts| >= 2 && ts[1] == OpenBrace {
        if |servers| < MAX_SERVER_BLOCKS {
          ParsedServerIsPrintable(env, ts[2..]);
          var (srv, n) := ParseServer(env, ts[2..]).value;
          ScannedArePrintable(env, Drop(ts[2..], n), servers + [srv]);
        } else {
          ScannedArePrintable(env, ts[2..], servers);
        }
      } else {
        ScannedArePrintable(env, ts[1..], servers);
      }
    }
  }

  lemma {:induction false} IncludedArePrintable(env: Env, files: seq<string>, servers: seq<Server>)
    requires PrintableServers(env, servers) && IncludeServers(env, files, servers).Some?
    ensures PrintableServers(env, IncludeServers(env, files, servers).value)
    decreases |files|
  {
    hide ScanServers, Tokens, PrintableServers;
    if files != [] {
      var ts := Tokens(env.read(files[0]).value);
      ScannedArePrintable(env, ts, servers);
      IncludedArePrintable(env, files[1..], ScanServers(env, ts, servers).value);
    }
  }

  predicate IsZone(name: string) { name == "limit_req_zone" }

  predicate IsSizeValue(name: string) { name in ["gzip_min_length", "client_max_body_size", "brotli_min_length"] }

  predicate IsTimeValue(name: string) { name in ["access_log", "keepalive_timeout", "send_timeout"] }

  predicate SameLists(a: Http, b: Http) { a.zones == b.zones && a.upstreams == b.upstreams && a.servers == b.servers }

  lemma SizesStayPrintable(env: Env, name: string, args: seq<string>, h: Http)
    requires HttpShape(name).Some? && Takes(HttpShape(name).value, args) && IsSizeValue(name)
    requires PrintableValues(h) && ApplyHttp(env, name, args, h).Some?
    ensures PrintableValues(ApplyHttp(env, name, args, h).value)
    ensures SameLists(h, ApplyHttp(env, name, args, h).value)
  {
    hide Size, PrintableLog;
    SizeBelow(args[0]);
  }

  lemma TimesStayPrintable(env: Env, name: string, args: seq<string>, h: Http)
    requires HttpShape(name).Some? && Takes(HttpShape(name).value, args) && IsTimeValue(name)
    requires PrintableValues(h) && ApplyHttp(env, name, args, h).Some?
    ensures PrintableValues(ApplyHttp(env, name, args, h).value)
    ensures SameLists(h, ApplyHttp(env, name, args, h).value)
  {
    hide Seconds, ParseAccessLog, PrintableLog;
    SecondsBelow(args[0]);
    LogReads(LogOff, args);
  }

  lemma TextsStayPrintable(env: Env, name: string, args: seq<string>, h: Http)
    requires HttpShape(name).Some? && Takes(HttpShape(name).value, args)
    requires !IsZone(name) && !IsSizeValue(name) && !IsTimeValue(name)
    requires PrintableValues(h) && ApplyHttp(env, name, args, h).Some?
    ensures PrintableValues(ApplyHttp(env, name, args, h).value)
    ensures SameLists(h, ApplyHttp(env, name, args, h).value)
  {
    hide Size, Seconds, ParseAccessLog, PrintableLog, ParseZone;
  }

  lemma ApplyHttpStaysPrintable(env: Env, name: string, args: seq<string>, h: Http)
    requires HttpShape(name).Some? && Takes(HttpShape(name).value, args)
    requires PrintableHttp(env, h) && ApplyHttp(env, name, args, h).Some?
    ensures PrintableHttp(env, ApplyHttp(env, name, args, h).value)
  {
    hide PrintableValues, PrintableZone, PrintableGroup, PrintableServers, ParseZone;
    if IsZone(name) {
      ParsedZonesArePrintable(env, args);
      ZonesAreNoValues(h, ParseZone(env, args));
    } else {
      hide ApplyHttp, HttpShape, IsZone, IsSizeValue, IsTimeValue;
      if IsSizeValue(name) { SizesStayPrintable(env, name, args, h); }
      else if IsTimeValue(name) { TimesStayPrintable(env, name, args, h); }
      else { TextsStayPrintable(env, name, args, h); }
    }
  }

  lemma ZonesAreNoValues(h: Http, zs: seq<(string, real)>)
    ensures PrintableValues(h) ==> PrintableValues(h.(zones := h.zones + zs))
  {
  }

  lemma HttpWith(env: Env, h: Http, servers: seq<Server>, gs: seq<UpstreamGroup>)
    requires PrintableHttp(env, h) && PrintableServers(env, servers) && forall g | g in gs :: PrintableGroup(g)
    ensures PrintableHttp(env, h.(servers := servers, upstreams := h.upstreams + gs))
  {
    hide PrintableZone, PrintableGroup, PrintableServers, PrintableLog;
  }

  lemma HttpStaysPrintable(env: Env, path: string, name: string, ts: seq<Token>, h: Http)
    requires PrintableHttp(env, h) && HttpStep(env, path, name, ts, h).Some?
    ensures PrintableHttp(env, HttpStep(env, path, name, ts, h).value.0)
  {
    assert PrintableServers(env, h.servers);
    assert h.upstreams + [] == h.upstreams;
    hide ApplyHttp, HttpShape, SkipUnknown, Args, ParseServer, ParseGroup, IncludeServers, PrintableServer;
    hide PrintableHttp, PrintableGroup;
    if name == "upstream" {
      ParsedGroupIsPrintable(ts);
      HttpWith(env, h, h.servers, [ParseGroup(ts).value.0]);
    } else if name == "server" {
      ParsedServerIsPrintable(env, ts[1..]);
      HttpWith(env, h, h.servers + [ParseServer(env, ts[1..]).value.0], []);
    } else if name == "include" {
      var files := env.expand(path, Args(OneWord, ts).value.0[0]);
      IncludedArePrintable(env, files, h.servers);
      HttpWith(env, h, IncludeServers(env, files, h.servers).value, []);
    } else if HttpShape(name).Some? {
      ApplyHttpStaysPrintable(env, name, Args(HttpShape(name).value, ts).value.0, h);
    }
  }

  lemma ParsedHttpIsPrintable(env: Env, path: string, ts: seq<Token>)
    requires ParseHttp(env, path, ts).Some?
    ensures PrintableHttp(env, ParseHttp(env, path, ts).value.0)
  {
    assert PrintableHttp(env, DEFAULT_HTTP);
    hide PrintableHttp, HttpStep, Block;
    forall name, ts', s | PrintableHttp(env, s) && HttpDirective(env, path)(name, ts', s).Some?
      ensures PrintableHttp(env, HttpDirective(env, path)(name, ts', s).value.0)
    {
      HttpStaysPrintable(env, path, name, ts', s);
    }
    BlockKeeps(HttpDirective(env, path), s => PrintableHttp(env, s), ts, DEFAULT_HTTP);
  }

  // ---- The root ----

  predicate PrintableEdit(env: Env, edit: Edit) {
    match edit
    case SetValue(name, args) => IsRootValue(name) && args != [] && RootValueOk(name, args[0])
    case SetConnections(c) => c.Some? ==> c.value < U64
    case SetHttp(h) => PrintableHttp(env, h)
    case _ => true
  }

  lemma {:induction false} EventsAreBounded(ts: seq<Token>, c: Option<nat>)
    requires c.Some? ==> c.value < U64
    ensures match EventsBlock(ts, c) case None => true case Some((r, _)) => r.Some? ==> r.value < U64
    decreases |ts|
  {
    hide Leading, Args, Number;
    if ts != [] && ts[0].Word? {
      if ts[0] == Word("worker_connections") {
        match Args(OneWord, ts[1..]) {
          case None =>
          case Some((args, n)) =>
            NumberBelow(args[0], U64);
            EventsAreBounded(ts[1 + n..], Number(args[0], U64));
        }
      } else {
        LeadingIsPositive(ts);
        var k := Leading(ts);
        EventsAreBounded(ts[if k < |ts| && ts[k] == Semicolon then k + 1 else k..], c);
      }
    }
  }

  lemma EditIsPrintable(env: Env, path: string, name: string, ts: seq<Token>)
    requires RootStep(env, path, name, ts).Some?
    ensures PrintableEdit(env, RootStep(env, path, name, ts).value.0)
  {
    hide ParseHttp, EventsBlock, SkipUnknown, Args, IsRootValue, RootValueOk, PrintableHttp;
    if name == "events" { EventsAreBounded(ts[1..], None); }
    if name == "http" { ParsedHttpIsPrintable(env, path, ts[1..]); }
  }

  predicate PrintableNumbers(cfg: Config) {
    && (cfg.workers.Some? ==> cfg.workers.value < U64) && cfg.connections < U64
    && cfg.scanWindow < U64 && cfg.scanThreshold < U64 && cfg.scanBlock < U64
  }

  lemma PartsArePrintable(env: Env, cfg: Config)
    ensures PrintableConfig(env, cfg) <==>
      && PrintableNumbers(cfg) && cfg.firewallBackend != Some("auto")
      && (cfg.abuseKey.Some? ==> NoQuotes(cfg.abuseKey.value)) && PrintableHttp(env, cfg.http)
  {
    hide NoQuotes, PrintableHttp;
  }

  /** What no key but its own may touch. */
  predicate SameTexts(a: Config, b: Config) {
    a.http == b.http && a.firewallBackend == b.firewallBackend && a.abuseKey == b.abuseKey
  }

  lemma ProcessKeys(key: RootKey, word: string, cfg: Config)
    ensures SameTexts(cfg, SetProcessKey(key, word, cfg))
    ensures PrintableNumbers(cfg) ==> PrintableNumbers(SetProcessKey(key, word, cfg))
  {
    hide Number, Unquoted;
    NumberBelow(word, U64);
  }

  lemma FirewallKeys(key: RootKey, word: string, cfg: Config)
    ensures var next := SetFirewallKey(key, word, cfg);
      && (PrintableNumbers(cfg) ==> PrintableNumbers(next)) && next.http == cfg.http && next.abuseKey == cfg.abuseKey
      && (cfg.firewallBackend != Some("auto") ==> next.firewallBackend != Some("auto"))
  {
    hide Unquoted, SaysNo;
  }

  lemma ScanKeys(env: Env, key: RootKey, word: string, cfg: Config)
    ensures SameTexts(cfg, SetScanKey(env, key, word, cfg))
    ensures PrintableNumbers(cfg) ==> PrintableNumbers(SetScanKey(env, key, word, cfg))
  {
    hide Number, Unquoted;
    NumberBelow(word, U64);
  }

  lemma KeysAre(env: Env, key: RootKey, word: string, cfg: Config)
    ensures var next := SetKey(env, key, word, cfg);
      && (PrintableNumbers(cfg) ==> PrintableNumbers(next)) && next.http == cfg.http
      && (cfg.firewallBackend != Some("auto") ==> next.firewallBackend != Some("auto"))
      && (next.abuseKey == cfg.abuseKey || next.abuseKey == Some(Unquoted(word)))
  {
    hide Unquoted, SetProcessKey, SetFirewallKey, SetScanKey;
    ProcessKeys(key, word, cfg);
    FirewallKeys(key, word, cfg);
    ScanKeys(env, key, word, cfg);
  }

  lemma ApplyRootStaysPrintable(env: Env, name: string, word: string, cfg: Config)
    requires PrintableConfig(env, cfg)
    ensures PrintableConfig(env, ApplyRoot(env, name, word, cfg))
  {
    hide PrintableConfig, KeyOf, SetKey, PrintableNumbers, Unquoted, NoQuotes, PrintableHttp;
    match KeyOf(name) {
      case None =>
      case Some(key) =>
        PartsArePrintable(env, cfg);
        PartsArePrintable(env, SetKey(env, key, word, cfg));
        KeysAre(env, key, word, cfg);
        UnquotedHasNoQuotes(word);
    }
  }

  lemma EditedIsPrintable(env: Env, edit: Edit, cfg: Config)
    requires PrintableConfig(env, cfg) && PrintableEdit(env, edit)
    ensures PrintableConfig(env, Edited(env, edit, cfg))
  {
    hide ApplyRoot, IsRootValue, RootValueOk, PrintableHttp, NoQuotes;
    match edit {
      case SetValue(name, args) => ApplyRootStaysPrintable(env, name, args[0], cfg);
      case _ =>
    }
  }

  lemma WithServers(env: Env, cfg: Config, servers: seq<Server>)
    requires PrintableConfig(env, cfg) && PrintableServers(env, servers)
    ensures PrintableConfig(env, cfg.(http := cfg.http.(servers := cfg.http.servers + servers)))
  {
    hide PrintableServer, PrintableZone, PrintableGroup, NoQuotes, PrintableLog;
  }

  lemma {:induction false} LoopIsPrintable(env: Env, path: string, depth: nat, ts: seq<Token>, cfg: Config)
    requires depth <= MAX_INCLUDE_DEPTH && PrintableConfig(env, cfg) && RootLoop(env, path, depth, ts, cfg).Some?
    ensures PrintableConfig(env, RootLoop(env, path, depth, ts, cfg).value)
    decreases MAX_INCLUDE_DEPTH - depth, 2, |ts|
  {
    hide PrintableConfig, RootStep, Edited, PrintableEdit;
    if ts != [] && ts[0].Word? {
      var (edit, n) := RootStep(env, path, ts[0].text, ts[1..]).value;
      EditIsPrintable(env, path, ts[0].text, ts[1..]);
      if edit.Include? {
        IncludeIsPrintable(env, env.expand(path, edit.pattern), depth, cfg);
      } else {
        EditedIsPrintable(env, edit, cfg);
      }
      LoopIsPrintable(env, path, depth, Drop(ts[1..], n), Merged(env, path, depth, edit, cfg).value);
    }
  }

  lemma {:induction false} IncludeIsPrintable(env: Env, files: seq<string>, depth: nat, cfg: Config)
    requires depth < MAX_INCLUDE_DEPTH && PrintableConfig(env, cfg) && IncludeFiles(env, files, depth, cfg).Some?
    ensures PrintableConfig(env, IncludeFiles(env, files, depth, cfg).value)
    decreases MAX_INCLUDE_DEPTH - depth, 0, |files|
  {
    hide PrintableConfig;
    if files != [] {
      var sub := LoadAt(env, files[0], depth + 1).value;
      LoadedIsPrintable(env, files[0], depth + 1);
      ServersOf(env, sub);
      WithServers(env, cfg, sub.http.servers);
      IncludeIsPrintable(env, files[1..], depth,
        cfg.(http := cfg.http.(servers := cfg.http.servers + sub.http.servers)));
    }
  }

  lemma ServersOf(env: Env, cfg: Config)
    requires PrintableConfig(env, cfg)
    ensures PrintableServers(env, cfg.http.servers)
  {
  }

  lemma DefaultIsPrintable(env: Env)
    ensures PrintableConfig(env, DEFAULT_CONFIG)
  {
  }

  /** Every configuration that loads is printable. */
  lemma LoadedIsPrintable(env: Env, path: string, depth: nat)
    requires depth <= MAX_INCLUDE_DEPTH && LoadAt(env, path, depth).Some?
    ensures PrintableConfig(env, LoadAt(env, path, depth).value)
    decreases MAX_INCLUDE_DEPTH - depth, 3, 0
  {
    hide PrintableConfig, RootLoop;
    DefaultIsPrintable(env);
    LoopIsPrintable(env, path, depth, Tokens(env.read(path).value), DEFAULT_CONFIG);
  }

  // ---- Printable is exactly what some text stands for ----

  predicate ReadsAsLocation(env: Env, ts: seq<Token>, loc: Location) {
    match ParseLocation(env, ts) case None => false case Some((v, _)) => v == loc
  }

  predicate ReadsAsServer(env: Env, ts: seq<Token>, srv: Server) {
    match ParseServer(env, ts) case None => false case Some((v, _)) => v == srv
  }

  predicate ReadsAsGroup(ts: seq<Token>, g: UpstreamGroup) {
    match ParseGroup(ts) case None => false case Some((v, _)) => v == g
  }

  predicate ReadsAsHttp(env: Env, path: string, ts: seq<Token>, h: Http) {
    match ParseHttp(env, path, ts) case None => false case Some((v, _)) => v == h
  }

  /** The locations that some tokens stand for are the printable ones. */
  lemma LocationsThereAre(env: Env, loc: Location)
    ensures PrintableLocation(env, loc) <==> exists ts: seq<Token> :: ReadsAsLocation(env, ts, loc)
  {
    hide PrintableLocation, ParseLocation, GoodStyle, LocationLines, Braced;
    var st := PlainStyle(v => "");
    if PrintableLocation(env, loc) {
      PlainStyleIsGood(v => "");
      LocationReadsBack(env, st, loc, []);
      assert ReadsAsLocation(env, (LocationTokens(st)(loc) + [])[1..], loc);
    }
    forall ts: seq<Token> | ReadsAsLocation(env, ts, loc) ensures PrintableLocation(env, loc) {
      ParsedLocationIsPrintable(env, ts);
    }
  }

  /** The servers that some tokens stand for are the printable ones. */
  lemma ServersThereAre(env: Env, srv: Server)
    requires PortsAreNoAddresses(env)
    ensures PrintableServer(env, srv) <==> exists ts: seq<Token> :: ReadsAsServer(env, ts, srv)
  {
    hide PrintableServer, ParseServer, GoodStyle, ServerLines, PortsAreNoAddresses;
    var st := PlainStyle(v => "");
    if PrintableServer(env, srv) {
      PlainStyleIsGood(v => "");
      ServerRead(env, st, srv, []);
      assert ReadsAsServer(env, ServerLines(st, srv) + ([CloseBrace] + []), srv);
    }
    forall ts: seq<Token> | ReadsAsServer(env, ts, srv) ensures PrintableServer(env, srv) {
      ParsedServerIsPrintable(env, ts);
    }
  }

  /** The upstream groups that some tokens stand for are the printable ones. */
  lemma GroupsThereAre(g: UpstreamGroup)
    ensures PrintableGroup(g) <==> exists ts: seq<Token> :: ReadsAsGroup(ts, g)
  {
    hide PrintableGroup, ParseGroup, GoodStyle, GroupLines, Braced;
    var st := PlainStyle(v => "");
    if PrintableGroup(g) {
      PlainStyleIsGood(v => "");
      GroupReadsBack(st, g, []);
      assert ReadsAsGroup((GroupTokens(st)(g) + [])[1..], g);
    }
    forall ts: seq<Token> | ReadsAsGroup(ts, g) ensures PrintableGroup(g) {
      ParsedGroupIsPrintable(ts);
    }
  }

  lemma FewServers(h: Http)
    ensures HttpInLimits(h) ==> |h.servers| <= MAX_SERVER_BLOCKS
  {
  }

  /** The http blocks that some tokens stand for are the printable ones with at most 256 servers, as far as
      the library prints their rates. */
  lemma HttpBlocksThereAre(env: Env, path: string, rate: real -> string, h: Http)
    requires PortsAreNoAddresses(env) && RatesPrint(env, PlainStyle(rate), h)
    ensures PrintableHttp(env, h) && |h.servers| <= MAX_SERVER_BLOCKS
       <==> exists ts: seq<Token> :: ReadsAsHttp(env, path, ts, h)
  {
    hide PrintableHttp, ParseHttp, GoodStyle, HttpLines, PortsAreNoAddresses, RatesPrint, HttpInLimits;
    var st := PlainStyle(rate);
    if PrintableHttp(env, h) && |h.servers| <= MAX_SERVER_BLOCKS {
      PlainStyleIsGood(rate);
      HttpReadsBack(env, path, st, h, []);
      assert ReadsAsHttp(env, path, HttpLines(st, h) + ([CloseBrace] + []), h);
    }
    forall ts: seq<Token> | ReadsAsHttp(env, path, ts, h)
      ensures PrintableHttp(env, h) && |h.servers| <= MAX_SERVER_BLOCKS
    {
      ParsedHttpIsPrintable(env, path, ts);
      HttpHoldsLimits(env, path, ts);
      FewServers(h);
    }
  }

  lemma EditHoldsLimit(env: Env, path: string, name: string, ts: seq<Token>, cfg: Config)
    requires RootStep(env, path, name, ts).Some? && |cfg.http.servers| <= MAX_SERVER_BLOCKS
    ensures |Edited(env, RootStep(env, path, name, ts).value.0, cfg).http.servers| <= MAX_SERVER_BLOCKS
  {
    hide ParseHttp, EventsBlock, SkipUnknown, Args, IsRootValue, RootValueOk, ApplyRoot, HttpInLimits;
    var edit := RootStep(env, path, name, ts).value.0;
    if name == "http" {
      HttpHoldsLimits(env, path, ts[1..]);
      FewServers(ParseHttp(env, path, ts[1..]).value.0);
    }
    if edit.SetValue? && edit.args != [] { RootValuesAreNoHttp(env, edit.name, edit.args[0], cfg); }
  }

  lemma RootValuesAreNoHttp(env: Env, name: string, word: string, cfg: Config)
    ensures ApplyRoot(env, name, word, cfg).http == cfg.http
  {
    hide KeyOf, SetKey;
    match KeyOf(name) { case None => case Some(key) => KeysAre(env, key, word, cfg); }
  }

  /** A file that may include no other holds at most 256 servers. */
  lemma {:induction false} LoopHoldsLimit(env: Env, path: string, ts: seq<Token>, cfg: Config)
    requires |cfg.http.servers| <= MAX_SERVER_BLOCKS && RootLoop(env, path, MAX_INCLUDE_DEPTH, ts, cfg).Some?
    ensures |RootLoop(env, path, MAX_INCLUDE_DEPTH, ts, cfg).value.http.servers| <= MAX_SERVER_BLOCKS
    decreases |ts|
  {
    hide RootStep, Edited;
    if ts != [] && ts[0].Word? {
      var (edit, n) := RootStep(env, path, ts[0].text, ts[1..]).value;
      EditHoldsLimit(env, path, ts[0].text, ts[1..], cfg);
      LoopHoldsLimit(env, path, Drop(ts[1..], n), Edited(env, edit, cfg));
    }
  }

  predicate ReadsAsConfig(env: Env, path: string, text: string, cfg: Config) {
    RootLoop(env, path, MAX_INCLUDE_DEPTH, Tokens(text), DEFAULT_CONFIG) == Some(cfg)
  }

  /** The configurations that a text without root includes stands for are the printable ones with at most
      256 servers, as far as the library prints their floats. */
  lemma ConfigsThereAre(env: Env, path: string, rate: real -> string, cfg: Config)
    requires PortsAreNoAddresses(env) && FloatsPrint(env, PlainStyle(rate), cfg)
    ensures PrintableConfig(env, cfg) && |cfg.http.servers| <= MAX_SERVER_BLOCKS
       <==> exists text: string :: ReadsAsConfig(env, path, text, cfg)
  {
    hide PrintableConfig, RootLoop, GoodStyle, ConfigTokens, PortsAreNoAddresses, FloatsPrint, Tokens, Print, Leads;
    hide InFile;
    var st, at := PlainStyle(rate), Place(env, path, MAX_INCLUDE_DEPTH);
    if PrintableConfig(env, cfg) && |cfg.http.servers| <= MAX_SERVER_BLOCKS {
      PlainStyleIsGood(rate);
      ConfigLeads(at, st, cfg, DEFAULT_CONFIG);
      LeadsToTheEnd(at, ConfigTokens(st, cfg), DEFAULT_CONFIG, cfg);
      EveryTokenSequencePrints(ConfigTokens(st, cfg));
      assert ReadsAsConfig(env, path, Print(QuoteAll(ConfigTokens(st, cfg))), cfg);
    }
    forall text: string | ReadsAsConfig(env, path, text, cfg)
      ensures PrintableConfig(env, cfg) && |cfg.http.servers| <= MAX_SERVER_BLOCKS
    {
      DefaultIsPrintable(env);
      LoopIsPrintable(env, path, MAX_INCLUDE_DEPTH, Tokens(text), DEFAULT_CONFIG);
      LoopHoldsLimit(env, path, Tokens(text), DEFAULT_CONFIG);
    }
  }
}

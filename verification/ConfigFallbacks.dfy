/** What the parser makes of words that do not read: which directives are errors, which count as if they
    were missing, and which change nothing. */
module ConfigFallbacks {
  import opened Common
  import opened Tokenizer
  import opened ConfigTypes
  import opened ConfigGrammar
  import opened ConfigLocality
  import opened ConfigWords

  // ---- Errors ----

  predicate BadUpstream(env: Env, w: string) { !("unix:" <= w) && !env.isSocketAddr(w) }

  /** A location's directive is an error only for an unsafe root, an upstream that is no address, a size or a
      status that is no number. */
  lemma LocationErrors(env: Env, name: string, args: seq<string>, loc: Location)
    requires LocationShape(name).Some? && Takes(LocationShape(name).value, args)
    ensures ApplyLocation(env, name, args, loc) == None <==>
      || (name == "root" && !SafeRoot(args[0]))
      || (name == "proxy_pass" && !env.isProxyUrl(args[0]))
      || (name == "fastcgi_pass" && BadUpstream(env, args[0]))
      || (name == "client_max_body_size" && Size(args[0]) == None)
      || (name == "return" && Number(args[0], U16) == None)
  {
    hide SafeRoot, Size, Number, Seconds, ParseTryFiles, ParseLimitReq, ParseRewrite;
  }

  lemma ServerErrors(env: Env, name: string, args: seq<string>, srv: Server)
    requires ServerShape(name).Some? && Takes(ServerShape(name).value, args)
    ensures ApplyServer(env, name, args, srv) == None <==>
      || (name == "listen" && !env.isSocketAddr(ListenWord(args)) && Number(ListenWord(args), U16) == None)
      || (name == "root" && !SafeRoot(args[0]))
      || (name == "client_max_body_size" && Size(args[0]) == None)
      || (name == "return" && Number(args[0], U16) == None)
  {
    hide SafeRoot, Size, Number, ListenWord, ParseServerNames, ParseAccessLog, ParseLimitReq, ParseRewrite, Codes;
    hide Unquoted, TlsOf;
  }

  lemma HttpErrors(env: Env, name: string, args: seq<string>, h: Http)
    requires HttpShape(name).Some? && Takes(HttpShape(name).value, args)
    ensures ApplyHttp(env, name, args, h) == None <==>
      || (name in ["gzip_min_length", "brotli_min_length", "client_max_body_size"] && Size(args[0]) == None)
      || (name in ["keepalive_timeout", "send_timeout"] && Seconds(args[0]) == None)
  {
    hide Size, Seconds, ParseAccessLog, ParseZone;
  }

  // ---- Words that count as none ----

  /** In an upstream group nothing is an error: a number that does not read leaves what a group without the
      directive has. */
  lemma GroupFallbacks(name: string, word: string, g: UpstreamGroup)
    ensures Number(word, U64) == None ==>
      ApplyGroup("keepalive", [word], g) == Some(g.(keepalive := NewGroup(name).keepalive))
    ensures Seconds(word) == None ==>
      ApplyGroup("fail_timeout", [word], g) == Some(g.(failTimeout := NewGroup(name).failTimeout))
    ensures Number(word, U32) == None ==>
      ApplyGroup("max_fails", [word], g) == Some(g.(maxFails := NewGroup(name).maxFails))
  {
    hide Number, Seconds;
  }

  /** A health check takes the last interval and the last timeout it names; one that does not read is that
      of a new group, and what it does not name stays. */
  lemma HealthFallbacks(args: seq<string>, k: nat, g: UpstreamGroup, name: string)
    requires k < |args|
    ensures "interval=" <= args[k] && !HasKeyBehind(args, "interval=", k) && Seconds(args[k][9..]) == None ==>
      ApplyGroup("health_check", args, g).value.healthInterval == NewGroup(name).healthInterval
    ensures "timeout=" <= args[k] && !HasKeyBehind(args, "timeout=", k) && Seconds(args[k][8..]) == None ==>
      ApplyGroup("health_check", args, g).value.healthTimeout == NewGroup(name).healthTimeout
    ensures !HasKey(args, "interval=") ==> ApplyGroup("health_check", args, g).value.healthInterval == g.healthInterval
    ensures !HasKey(args, "timeout=") ==> ApplyGroup("health_check", args, g).value.healthTimeout == g.healthTimeout
  {
    hide Seconds, LastWith;
    LastKey(args, "interval=", k);
    LastKey(args, "timeout=", k);
  }

  lemma LastKey(args: seq<string>, key: string, k: nat)
    requires k < |args|
    ensures key <= args[k] && !HasKeyBehind(args, key, k) ==> LastWith(args, key) == Some(args[k])
    ensures !HasKey(args, key) ==> LastWith(args, key) == None
  {
    if key <= args[k] && !HasKeyBehind(args, key, k) { LastWithIs(args, key, k); }
    if !HasKey(args, key) { LastWithNone(args, key); }
  }

  predicate HasKeyBehind(args: seq<string>, key: string, i: nat) { exists k :: i < k < |args| && key <= args[k] }

  /** A peer's weight is 1 when the last one given does not read. */
  lemma WeightFallback(args: seq<string>, i: nat)
    requires i < |args| && "weight=" <= args[i] && !HasKeyBehind(args, "weight=", i)
    ensures Number(args[i][7..], U32) == None ==> WeightOf(args) == 1
  {
    LastKey(args, "weight=", i);
    hide Number, LastWith;
  }

  /** Scan settings that do not read are those of a file without them. */
  lemma ScanFallbacks(env: Env, word: string, cfg: Config)
    ensures Number(word, U64) == None ==>
      && SetKey(env, Window, word, cfg) == cfg.(scanWindow := DEFAULT_CONFIG.scanWindow)
      && SetKey(env, Threshold, word, cfg) == cfg.(scanThreshold := DEFAULT_CONFIG.scanThreshold)
      && SetKey(env, BlockTime, word, cfg) == cfg.(scanBlock := DEFAULT_CONFIG.scanBlock)
    ensures env.float(word) == None ==>
      SetKey(env, ErrorRate, word, cfg) == cfg.(scanErrorRate := DEFAULT_CONFIG.scanErrorRate)
  {
    hide Number;
  }

  /** A time that does not read is the one that the upstream directive set. */
  lemma TimeFallbacks(env: Env, word: string, pass: string, loc: Location, passed: Location)
    requires Seconds(word) == None
    ensures ApplyLocation(env, "fastcgi_pass", [pass], loc) == Some(passed)
      ==> ApplyLocation(env, "fastcgi_read_timeout", [word], passed) == Some(passed)
    ensures ApplyLocation(env, "proxy_pass", [pass], loc) == Some(passed)
      ==> ApplyLocation(env, "proxy_read_timeout", [word], passed) == Some(passed)
  {
    hide Seconds, ParseFastCgiUpstream;
  }

  /** Certificate and key, in either order, make a server with TLS 1.2 as long as `ssl_protocols` says nothing
      else, and a user file alone makes one with the realm `Restricted`. */
  lemma PartsAreEnough(env: Env, cert: string, key: string, file: string, srv: Server, first: Server, second: Server)
    ensures srv.tls == None && ApplyServer(env, "ssl_certificate", [cert], srv) == Some(first) ==>
      ApplyServer(env, "ssl_certificate_key", [key], first) == Some(srv.(tls := Some(Tls(cert, key, true))))
    ensures srv.tls == None && ApplyServer(env, "ssl_certificate_key", [key], srv) == Some(second) ==>
      ApplyServer(env, "ssl_certificate", [cert], second) == Some(srv.(tls := Some(Tls(cert, key, true))))
    ensures srv.auth == None ==>
      ApplyServer(env, "auth_basic_user_file", [file], srv) == Some(srv.(auth := Some(AuthBasic("Restricted", file))))
  {
  }

  // ---- Directives without effect ----

  /** The settings of an upstream do nothing before the directive that sets it. */
  lemma SettingsNeedTheirUpstream(env: Env, a: string, b: string, loc: Location)
    ensures !loc.handler.FastCgi? ==>
      && ApplyLocation(env, "fastcgi_param", [a, b], loc) == Some(loc)
      && ApplyLocation(env, "fastcgi_index", [a], loc) == Some(loc)
      && ApplyLocation(env, "fastcgi_read_timeout", [a], loc) == Some(loc)
    ensures !loc.handler.Proxy? ==>
      && ApplyLocation(env, "proxy_set_header", [a, b], loc) == Some(loc)
      && ApplyLocation(env, "proxy_read_timeout", [a], loc) == Some(loc)
      && ApplyLocation(env, "proxy_buffering", [a], loc) == Some(loc)
      && ApplyLocation(env, "proxy_allow_internal", [a], loc) == Some(loc)
  {
    hide Seconds;
  }

  /** `off` does not take back what is set already, and error pages without codes are none. */
  lemma OffTakesNothingBack(env: Env, w: string, args: seq<string>, loc: Location, srv: Server)
    ensures ApplyLocation(env, "auth_basic", ["off"], loc) == Some(loc)
    ensures ApplyServer(env, "auth_basic", ["off"], srv) == Some(srv)
    ensures Unquoted(w) == "off" ==> ApplyServer(env, "hsts", [w], srv) == Some(srv)
    ensures |args| < 2 || (forall k | 0 <= k < |args| - 1 :: Number(args[k], U16) == None) ==>
      ApplyServer(env, "error_page", args, srv) == Some(srv)
  {
    hide Unquoted, Number, Codes;
    if |args| >= 2 && forall k | 0 <= k < |args| - 1 :: Number(args[k], U16) == None {
      assert forall k | 0 <= k < |args| - 1 :: args[..|args| - 1][k] == args[k];
      NoCodes(args[..|args| - 1]);
    }
  }

  lemma {:induction false} NoCodes(args: seq<string>)
    requires forall k | 0 <= k < |args| :: Number(args[k], U16) == None
    ensures Codes(args) == []
  {
    hide Number;
    if args != [] { NoCodes(args[1..]); }
  }

  // ---- Nothing said ----

  const FOUR_TYPES: seq<string> := ["text/html", "text/css", "application/javascript", "application/json"]

  /** What a file says nothing about: a megabyte of body, 75 and 60 seconds, compression off and then of four
      types from a kilobyte on, 1024 connections, a managed firewall, and scans watched for a minute with blocks
      of an hour. */
  lemma EmptyFile(env: Env, path: string, depth: nat)
    requires depth <= MAX_INCLUDE_DEPTH && env.read(path) == Some("")
    ensures match LoadAt(env, path, depth)
      case None => false
      case Some(cfg) =>
        && cfg.workers == None && cfg.connections == 1024 && !cfg.numaPin
        && cfg.firewallManage && cfg.firewallBackend == None && cfg.firewallTag == "runnginx" && cfg.icmpProtection
        && cfg.scanDetection && cfg.scanWindow == 60 && cfg.scanThreshold == 100 && cfg.scanErrorRate == 0.6
        && cfg.scanBlock == 60 * 60 && cfg.abuseKey == None && !cfg.abuseReport
        && cfg.http.servers == [] && cfg.http.zones == [] && cfg.http.upstreams == []
        && !cfg.http.gzip && cfg.http.gzipTypes == FOUR_TYPES && cfg.http.gzipMinLength == 1024
        && !cfg.http.brotli && cfg.http.brotliTypes == FOUR_TYPES && cfg.http.brotliMinLength == 1024
        && cfg.http.accessLog == LogFile("/var/log/runnginx/access.log") && cfg.http.maxBody == 1024 * 1024
        && cfg.http.keepaliveTimeout == 75 && cfg.http.sendTimeout == 60
        && cfg.http.apiKey == "" && cfg.http.adminUser == "admin" && cfg.http.adminPassword == "admin"
  {
    assert Tokens("") == [] && RootLoop(env, path, depth, [], DEFAULT_CONFIG) == Some(DEFAULT_CONFIG);
    hide RootLoop, Tokens;
    assert COMPRESSED == FOUR_TYPES;
  }

  /** An empty server block, location and upstream group. */
  lemma EmptyBlocks(env: Env, name: string, rest: seq<Token>)
    ensures ParseServer(env, [CloseBrace] + rest) == Some((Server([], [], None, ["index.html", "index.htm"],
      [], None, None, None, [], [], None, None, [], None, false, None, true), 1))
    ensures !("@" <= name) ==> ParseLocation(env, [Word(name), OpenBrace, CloseBrace] + rest) == Some((
      Location(Prefix(name), Static, None, None, None, [], None, None, None, None, [], None, None, None), 3))
    ensures ParseGroup([Word(name), OpenBrace, CloseBrace] + rest) == Some((UpstreamGroup(
      name, [], "round_robin", 0, 5, 30, 3, 0), 3))
  {
    var ts := [Word(name), OpenBrace, CloseBrace] + rest;
    assert ts[2..] == [CloseBrace] + rest && ts[1..][1..] == ts[2..];
    assert ts == Words([name]) + ([OpenBrace, CloseBrace] + rest);
    LeadingOfWords([name], [OpenBrace, CloseBrace] + rest);
    assert Texts(ts[..1]) == [name];
  }
}

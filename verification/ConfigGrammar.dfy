/** The grammar of nginx.conf as the parser reads it, on the tokens that are left. `None` is an
    error; a result carries how many tokens were consumed, which passes the end by one for every
    block that the end of the text closed. */
module ConfigGrammar {
  import opened Common
  import opened Tokenizer
  import opened ConfigTypes

  // ---- Arguments ----

  /** How many words stand at the front. */
  function Leading(ts: seq<Token>): (k: nat)
    ensures k <= |ts| && (k < |ts| ==> !ts[k].Word?)
    ensures forall i | 0 <= i < k :: ts[i].Word?
  {
    if ts == [] || !ts[0].Word? then 0
    else
      assert forall i | 1 <= i < |ts| :: ts[i] == ts[1..][i - 1];
      1 + Leading(ts[1..])
  }

  function Texts(ts: seq<Token>): (r: seq<string>)
    requires forall i | 0 <= i < |ts| :: ts[i].Word?
    ensures |r| == |ts|
    ensures forall i | 0 <= i < |ts| :: r[i] == ts[i].text
  {
    seq(|ts|, i requires 0 <= i < |ts| => ts[i].text)
  }

  /** The words a simple directive takes before its semicolon. */
  datatype Shape = OneWord | TwoWords | WordMaybe | TwoMaybe | TwoAlways | SomeWords | AnyWords | NoWords

  predicate Takes(shape: Shape, args: seq<string>) {
    match shape
    case NoWords => args == []
    case OneWord => |args| == 1
    case TwoWords => |args| == 2
    case WordMaybe => 1 <= |args| <= 2
    case TwoMaybe => 2 <= |args| <= 3
    case TwoAlways => |args| == 2 || (|args| == 3 && args[2] == "always")
    case SomeWords => |args| >= 1
    case AnyWords => true
  }

  function Args(shape: Shape, ts: seq<Token>): (r: Option<(seq<string>, nat)>)
    ensures r.Some? ==> Takes(shape, r.value.0) && 0 < r.value.1 <= |ts|
  {
    var k := Leading(ts);
    if k < |ts| && ts[k] == Semicolon && Takes(shape, Texts(ts[..k])) then Some((Texts(ts[..k]), k + 1)) else None
  }

  /** The rest of a block after its opening brace: up to the brace that closes it, or the end. */
  function SkipBlock(ts: seq<Token>, depth: nat): (n: nat)
    ensures n <= |ts|
  {
    if ts == [] || depth == 0 then 0
    else 1 + SkipBlock(ts[1..], match ts[0] case OpenBrace => depth + 1 case CloseBrace => depth - 1 case _ => depth)
  }

  /** What an unrecognised directive takes after its name. */
  function SkipUnknown(ts: seq<Token>): (n: nat)
    ensures n <= |ts|
  {
    var k := Leading(ts);
    if k < |ts| && ts[k] == Semicolon then k + 1
    else if k < |ts| && ts[k] == OpenBrace then k + 1 + SkipBlock(ts[k + 1..], 1)
    else k
  }

  // ---- Blocks ----

  /** A directive: its name, the tokens after the name, the state so far. */
  type Directive<!S> = (string, seq<Token>, S) -> Option<(S, nat)>

  function Block<S>(d: Directive<S>, ts: seq<Token>, s: S): Option<(S, nat)>
    decreases |ts|
  {
    if ts == [] || ts[0] == CloseBrace then Some((s, 1))
    else if !ts[0].Word? then None
    else
      match d(ts[0].text, ts[1..], s)
      case None => None
      case Some((next, n)) => After(1 + n, Block(d, Drop(ts[1..], n), next))
  }

  function After<S>(n: nat, r: Option<(S, nat)>): Option<(S, nat)> {
    match r case None => None case Some((s, m)) => Some((s, n + m))
  }

  function Simple<S>(shape: Shape, ts: seq<Token>, apply: seq<string> --> Option<S>): Option<(S, nat)>
    requires forall args | Takes(shape, args) :: apply.requires(args)
  {
    match Args(shape, ts)
    case None => None
    case Some((args, n)) => match apply(args) case None => None case Some(s) => Some((s, n))
  }

  // ---- Location ----

  function LocationShape(name: string): Option<Shape> {
    match name
    case "root" => Some(OneWord)
    case "index" => Some(AnyWords)
    case "try_files" => Some(AnyWords)
    case "proxy_pass" => Some(OneWord)
    case "fastcgi_pass" => Some(OneWord)
    case "fastcgi_param" => Some(TwoWords)
    case "fastcgi_index" => Some(OneWord)
    case "fastcgi_read_timeout" => Some(OneWord)
    case "proxy_set_header" => Some(TwoWords)
    case "proxy_read_timeout" => Some(OneWord)
    case "proxy_buffering" => Some(OneWord)
    case "proxy_allow_internal" => Some(OneWord)
    case "add_header" => Some(TwoAlways)
    case "client_max_body_size" => Some(OneWord)
    case "return" => Some(WordMaybe)
    case "gzip" => Some(OneWord)
    case "limit_req" => Some(AnyWords)
    case "rewrite" => Some(TwoMaybe)
    case "auth_basic" => Some(OneWord)
    case "auth_basic_user_file" => Some(OneWord)
    case _ => None
  }

  function ApplyLocation(env: Env, name: string, args: seq<string>, loc: Location): Option<Location>
    requires LocationShape(name).Some? && Takes(LocationShape(name).value, args)
  {
    match name
    case "root" => if SafeRoot(args[0]) then Some(loc.(root := Some(args[0]))) else None
    case "index" => Some(loc.(index := Some(args)))
    case "try_files" => Some(loc.(tryFiles := Some(ParseTryFiles(args))))
    case "proxy_pass" =>
      if env.isProxyUrl(args[0]) then Some(loc.(handler := Proxy(args[0], [], 60, true, false))) else None
    case "fastcgi_pass" =>
      (match ParseFastCgiUpstream(env, args[0])
       case None => None
       case Some(u) => Some(loc.(handler := FastCgi(u, [], None, 60))))
    case "fastcgi_param" =>
      Some(if loc.handler.FastCgi?
           then loc.(handler := loc.handler.(params := loc.handler.params + [(args[0], args[1])])) else loc)
    case "fastcgi_index" =>
      Some(if loc.handler.FastCgi? then loc.(handler := loc.handler.(index := Some(args[0]))) else loc)
    case "fastcgi_read_timeout" =>
      Some(if loc.handler.FastCgi? then loc.(handler := loc.handler.(cgiTimeout := Or(Seconds(args[0]), 60))) else loc)
    case "proxy_set_header" =>
      Some(if loc.handler.Proxy?
           then loc.(handler := loc.handler.(setHeaders := loc.handler.setHeaders + [(args[0], args[1])])) else loc)
    case "proxy_read_timeout" =>
      Some(if loc.handler.Proxy? then loc.(handler := loc.handler.(readTimeout := Or(Seconds(args[0]), 60))) else loc)
    case "proxy_buffering" =>
      Some(if loc.handler.Proxy? then loc.(handler := loc.handler.(buffering := args[0] == "on")) else loc)
    case "proxy_allow_internal" =>
      Some(if loc.handler.Proxy? then loc.(handler := loc.handler.(allowInternal := args[0] == "on")) else loc)
    case "add_header" => Some(loc.(addHeaders := loc.addHeaders + [(args[0], args[1])]))
    case "client_max_body_size" =>
      (match Size(args[0])
       case None => None
       case Some(n) => Some(loc.(maxBody := Some(Min(n, ABSOLUTE_MAX_BODY_BYTES)))))
    case "return" =>
      (match ParseReturn(args) case None => None case Some(r) => Some(loc.(answer := Some(r), handler := Return(r))))
    case "gzip" => Some(loc.(gzip := Some(args[0] == "on")))
    case "limit_req" => Some(loc.(limitReq := ParseLimitReq(args)))
    case "rewrite" => Some(loc.(rewrites := loc.rewrites + [ParseRewrite(args)]))
    case "auth_basic" => Some(if args[0] != "off" then loc.(realm := Some(args[0])) else loc)
    case "auth_basic_user_file" => Some(loc.(userFile := Some(args[0])))
  }

  function LocationStep(env: Env, name: string, ts: seq<Token>, loc: Location): Option<(Location, nat)> {
    match LocationShape(name)
    case None => Some((loc, SkipUnknown(ts)))
    case Some(shape) =>
      Simple(shape, ts, args requires Takes(shape, args) => ApplyLocation(env, name, args, loc))
  }

  function LocationDirective(env: Env): Directive<Location> { (name, ts, loc) => LocationStep(env, name, ts, loc) }

  /** Realm and user file count only together. */
  function CloseLocation(loc: Location): Location {
    loc.(auth := if loc.realm.Some? && loc.userFile.Some?
                 then Some(AuthBasic(loc.realm.value, loc.userFile.value)) else None)
  }

  /** After the word `location`: modifier and pattern, then the block. */
  function ParseLocation(env: Env, ts: seq<Token>): Option<(Location, nat)> {
    var k := Leading(ts);
    if k < |ts| && ts[k] == OpenBrace then
      match ParsePattern(env, Texts(ts[..k]))
      case None => None
      case Some(pattern) => LocationBody(env, pattern, k + 1, ts[k + 1..])
    else None
  }

  function LocationBody(env: Env, pattern: Pattern, taken: nat, ts: seq<Token>): Option<(Location, nat)> {
    Closed(taken, Block(LocationDirective(env), ts, NewLocation(pattern)))
  }

  function Closed(taken: nat, r: Option<(Location, nat)>): Option<(Location, nat)> {
    match r case None => None case Some((loc, n)) => Some((CloseLocation(loc), taken + n))
  }

  // ---- Server ----

  function ServerShape(name: string): Option<Shape> {
    match name
    case "listen" => Some(AnyWords)
    case "server_name" => Some(AnyWords)
    case "root" => Some(OneWord)
    case "index" => Some(AnyWords)
    case "access_log" => Some(WordMaybe)
    case "client_max_body_size" => Some(OneWord)
    case "add_header" => Some(TwoAlways)
    case "limit_req" => Some(AnyWords)
    case "rewrite" => Some(TwoMaybe)
    case "auth_basic" => Some(OneWord)
    case "auth_basic_user_file" => Some(OneWord)
    case "error_page" => Some(AnyWords)
    case "return" => Some(WordMaybe)
    case "ssl_certificate" => Some(OneWord)
    case "ssl_certificate_key" => Some(OneWord)
    case "ssl_protocols" => Some(AnyWords)
    case "ssl_redirect" => Some(OneWord)
    case "ssl-redirect" => Some(OneWord)
    case "hsts" => Some(OneWord)
    case "hsts_max_age" => Some(OneWord)
    case "hsts-max-age" => Some(OneWord)
    case "hsts_include_subdomains" => Some(OneWord)
    case "hsts-include-subdomains" => Some(OneWord)
    case _ => None
  }

  function TlsOf(srv: Server): Tls { Or(srv.tls, Tls("", "", true)) }

  function ApplyServer(env: Env, name: string, args: seq<string>, srv: Server): Option<Server>
    requires ServerShape(name).Some? && Takes(ServerShape(name).value, args)
  {
    match name
    case "listen" =>
      (match ParseListen(env, args) case None => None case Some(l) => Some(srv.(listen := srv.listen + [l])))
    case "server_name" => Some(srv.(names := srv.names + ParseServerNames(args)))
    case "root" => if SafeRoot(args[0]) then Some(srv.(root := Some(args[0]))) else None
    case "index" => Some(srv.(index := args))
    case "access_log" => Some(srv.(accessLog := Some(ParseAccessLog(args))))
    case "client_max_body_size" =>
      (match Size(args[0])
       case None => None
       case Some(n) => Some(srv.(maxBody := Some(Min(n, ABSOLUTE_MAX_BODY_BYTES)))))
    case "add_header" => Some(srv.(addHeaders := srv.addHeaders + [(args[0], args[1])]))
    case "limit_req" => Some(srv.(limitReq := ParseLimitReq(args)))
    case "rewrite" => Some(srv.(rewrites := srv.rewrites + [ParseRewrite(args)]))
    case "auth_basic" => Some(if args[0] != "off" then srv.(auth := Some(AuthBasic(args[0], ""))) else srv)
    case "auth_basic_user_file" =>
      Some(srv.(auth := Some(Or(srv.auth, AuthBasic("Restricted", "")).(userFile := args[0]))))
    case "error_page" =>
      var codes := if |args| >= 2 then Codes(args[..|args| - 1]) else [];
      Some(if codes == [] then srv else srv.(errorPages := srv.errorPages + [ErrorPage(codes, args[|args| - 1])]))
    case "return" =>
      (match ParseReturn(args) case None => None case Some(r) => Some(srv.(answer := Some(r))))
    case "ssl_certificate" => Some(srv.(tls := Some(TlsOf(srv).(certPath := args[0]))))
    case "ssl_certificate_key" => Some(srv.(tls := Some(TlsOf(srv).(keyPath := args[0]))))
    case "ssl_protocols" => Some(srv.(tls := Some(TlsOf(srv).(tls12 := "TLSv1.2" in args))))
    case "ssl_redirect" => Some(srv.(sslRedirect := Unquoted(args[0]) != "off"))
    case "ssl-redirect" => Some(srv.(sslRedirect := Unquoted(args[0]) != "off"))
    case "hsts" => Some(if Unquoted(args[0]) != "off" then srv.(hstsMaxAge := Some(31536000)) else srv)
    case "hsts_max_age" => Some(srv.(hstsMaxAge := Number(args[0], U64)))
    case "hsts-max-age" => Some(srv.(hstsMaxAge := Number(args[0], U64)))
    case "hsts_include_subdomains" => Some(srv.(hstsSubdomains := Unquoted(args[0]) != "off"))
    case "hsts-include-subdomains" => Some(srv.(hstsSubdomains := Unquoted(args[0]) != "off"))
  }

  function ServerStep(env: Env, name: string, ts: seq<Token>, srv: Server): Option<(Server, nat)> {
    if name == "location" then
      if |srv.locations| >= MAX_LOCATION_BLOCKS then None
      else
        match ParseLocation(env, ts)
        case None => None
        case Some((loc, n)) => Some((srv.(locations := srv.locations + [loc]), n))
    else
      match ServerShape(name)
      case None => Some((srv, SkipUnknown(ts)))
      case Some(shape) =>
        Simple(shape, ts, args requires Takes(shape, args) => ApplyServer(env, name, args, srv))
  }

  function ServerDirective(env: Env): Directive<Server> { (name, ts, srv) => ServerStep(env, name, ts, srv) }

  /** After `server {`. */
  function ParseServer(env: Env, ts: seq<Token>): Option<(Server, nat)> {
    Block(ServerDirective(env), ts, NEW_SERVER)
  }

  // ---- Upstream groups ----

  function GroupShape(name: string): Option<Shape> {
    match name
    case "server" => Some(SomeWords)
    case "least_conn" => Some(NoWords)
    case "ip_hash" => Some(NoWords)
    case "random" => Some(NoWords)
    case "keepalive" => Some(OneWord)
    case "fail_timeout" => Some(OneWord)
    case "max_fails" => Some(OneWord)
    case "health_check" => Some(AnyWords)
    case _ => None
  }

  function ApplyGroup(name: string, args: seq<string>, g: UpstreamGroup): Option<UpstreamGroup>
    requires GroupShape(name).Some? && Takes(GroupShape(name).value, args)
  {
    match name
    case "server" =>
      var weight := match LastWith(args[1..], "weight=") case None => 1 case Some(w) => Or(Number(w[7..], U32), 1);
      Some(g.(peers := g.peers + [(args[0], weight)]))
    case "least_conn" => Some(g.(policy := name))
    case "ip_hash" => Some(g.(policy := name))
    case "random" => Some(g.(policy := name))
    case "keepalive" => Some(g.(keepalive := Or(Number(args[0], U64), 0)))
    case "fail_timeout" => Some(g.(failTimeout := Or(Seconds(args[0]), 30)))
    case "max_fails" => Some(g.(maxFails := Or(Number(args[0], U32), 3)))
    case "health_check" =>
      var interval := match LastWith(args, "interval=")
        case None => g.healthInterval
        case Some(a) => Or(Seconds(a[9..]), 0);
      var time := match LastWith(args, "timeout=") case None => g.healthTimeout case Some(a) => Or(Seconds(a[8..]), 5);
      Some(g.(healthInterval := interval, healthTimeout := time))
  }

  /** An unknown directive here takes its words and a semicolon, but no block. */
  function GroupStep(name: string, ts: seq<Token>, g: UpstreamGroup): Option<(UpstreamGroup, nat)> {
    match GroupShape(name)
    case None =>
      var k := Leading(ts);
      Some((g, if k < |ts| && ts[k] == Semicolon then k + 1 else k))
    case Some(shape) => Simple(shape, ts, args requires Takes(shape, args) => ApplyGroup(name, args, g))
  }

  /** The block of an upstream group, where stray semicolons and opening braces are stepped over. */
  function GroupBlock(ts: seq<Token>, g: UpstreamGroup): Option<(UpstreamGroup, nat)>
    decreases |ts|
  {
    if ts == [] || ts[0] == CloseBrace then Some((g, 1))
    else if !ts[0].Word? then After(1, GroupBlock(ts[1..], g))
    else
      match GroupStep(ts[0].text, ts[1..], g)
      case None => None
      case Some((next, n)) => After(1 + n, GroupBlock(Drop(ts[1..], n), next))
  }

  function NewGroup(name: string): UpstreamGroup { UpstreamGroup(name, [], "round_robin", 0, 5, 30, 3, 0) }

  function ParseGroup(ts: seq<Token>): Option<(UpstreamGroup, nat)> {
    if |ts| >= 2 && ts[0].Word? && ts[1] == OpenBrace
    then After(2, GroupBlock(ts[2..], NewGroup(ts[0].text)))
    else None
  }

  // ---- Http ----

  function HttpShape(name: string): Option<Shape> {
    match name
    case "gzip" => Some(OneWord)
    case "gzip_types" => Some(AnyWords)
    case "gzip_min_length" => Some(OneWord)
    case "access_log" => Some(WordMaybe)
    case "client_max_body_size" => Some(OneWord)
    case "keepalive_timeout" => Some(WordMaybe)
    case "send_timeout" => Some(OneWord)
    case "api_key" => Some(OneWord)
    case "webui_admin_user" => Some(OneWord)
    case "webui_admin_password" => Some(OneWord)
    case "brotli" => Some(OneWord)
    case "brotli_types" => Some(AnyWords)
    case "brotli_min_length" => Some(OneWord)
    case "limit_req_zone" => Some(AnyWords)
    case _ => None
  }

  function ApplyHttp(env: Env, name: string, args: seq<string>, h: Http): Option<Http>
    requires HttpShape(name).Some? && Takes(HttpShape(name).value, args)
  {
    match name
    case "gzip" => Some(h.(gzip := args[0] == "on"))
    case "gzip_types" => Some(h.(gzipTypes := args))
    case "gzip_min_length" => (match Size(args[0]) case None => None case Some(n) => Some(h.(gzipMinLength := n)))
    case "access_log" => Some(h.(accessLog := ParseAccessLog(args)))
    case "client_max_body_size" =>
      (match Size(args[0]) case None => None case Some(n) => Some(h.(maxBody := Min(n, ABSOLUTE_MAX_BODY_BYTES))))
    case "keepalive_timeout" =>
      (match Seconds(args[0]) case None => None case Some(n) => Some(h.(keepaliveTimeout := n)))
    case "send_timeout" => (match Seconds(args[0]) case None => None case Some(n) => Some(h.(sendTimeout := n)))
    case "api_key" => Some(h.(apiKey := args[0]))
    case "webui_admin_user" => Some(h.(adminUser := args[0]))
    case "webui_admin_password" => Some(h.(adminPassword := args[0]))
    case "brotli" => Some(h.(brotli := args[0] == "on"))
    case "brotli_types" => Some(h.(brotliTypes := args))
    case "brotli_min_length" => (match Size(args[0]) case None => None case Some(n) => Some(h.(brotliMinLength := n)))
    case "limit_req_zone" => Some(h.(zones := h.zones + ParseZone(env, args)))
  }

  /** The scan of an included file for server blocks; past the limit a block is not parsed, and the
      scan goes on inside it. */
  function ScanServers(env: Env, ts: seq<Token>, servers: seq<Server>): Option<seq<Server>>
    decreases |ts|
  {
    if ts == [] then Some(servers)
    else if ts[0] == Word("server") then
      if |ts| >= 2 && ts[1] == OpenBrace then
        if |servers| < MAX_SERVER_BLOCKS then
          match ParseServer(env, ts[2..])
          case None => None
          case Some((srv, n)) => ScanServers(env, Drop(ts[2..], n), servers + [srv])
        else ScanServers(env, ts[2..], servers)
      else ScanServers(env, ts[1..], servers)
    else ScanServers(env, ts[1..], servers)
  }

  function IncludeServers(env: Env, files: seq<string>, servers: seq<Server>): Option<seq<Server>> {
    if files == [] then Some(servers)
    else
      match env.read(files[0])
      case None => None
      case Some(src) =>
        match ScanServers(env, Tokens(src), servers)
        case None => None
        case Some(more) => IncludeServers(env, files[1..], more)
  }

  function HttpStep(env: Env, path: string, name: string, ts: seq<Token>, h: Http): Option<(Http, nat)> {
    if name == "upstream" then
      match ParseGroup(ts)
      case None => None
      case Some((g, n)) => Some((h.(upstreams := h.upstreams + [g]), n))
    else if name == "server" then
      if ts == [] || ts[0] != OpenBrace || |h.servers| >= MAX_SERVER_BLOCKS then None
      else
        match ParseServer(env, ts[1..])
        case None => None
        case Some((srv, n)) => Some((h.(servers := h.servers + [srv]), 1 + n))
    else if name == "include" then
      match Args(OneWord, ts)
      case None => None
      case Some((args, n)) =>
        match IncludeServers(env, env.expand(path, args[0]), h.servers)
        case None => None
        case Some(servers) => Some((h.(servers := servers), n))
    else
      match HttpShape(name)
      case None => Some((h, SkipUnknown(ts)))
      case Some(shape) => Simple(shape, ts, args requires Takes(shape, args) => ApplyHttp(env, name, args, h))
  }

  function HttpDirective(env: Env, path: string): Directive<Http> {
    (name, ts, h) => HttpStep(env, path, name, ts, h)
  }

  /** After `http {`. */
  function ParseHttp(env: Env, path: string, ts: seq<Token>): Option<(Http, nat)> {
    Block(HttpDirective(env, path), ts, DEFAULT_HTTP)
  }

  // ---- Root ----

  /** What a root directive does to the configuration. */
  datatype Edit =
    | Nothing
    | SetValue(name: string, args: seq<string>)
    | SetConnections(n: Option<nat>)
    | SetHttp(http: Http)
    | Include(pattern: string)

  datatype RootKey =
    | Manage | Backend | Tag | Workers | Connections | Pin | Icmp | Scan | Window | Threshold | ErrorRate | BlockTime
    | AbuseKey | AbuseReport

  function KeyOf(name: string): Option<RootKey> {
    match name
    case "firewall_manage" | "firewall" => Some(Manage)
    case "firewall_backend" => Some(Backend)
    case "firewall_tag" => Some(Tag)
    case "worker_processes" => Some(Workers)
    case "worker_connections" => Some(Connections)
    case "numa_pin" | "numa-pin" => Some(Pin)
    case "icmp_protection" | "icmp-protection" => Some(Icmp)
    case "scan_detection" | "scan-detection" => Some(Scan)
    case "scan_window" | "scan_detection_window" => Some(Window)
    case "scan_threshold" | "scan_detection_threshold" => Some(Threshold)
    case "scan_error_rate" | "scan_detection_error_rate" => Some(ErrorRate)
    case "scan_block" | "scan_detection_block" => Some(BlockTime)
    case "abuseipdb_key" | "scan_detection_abuseipdb_key" => Some(AbuseKey)
    case "abuseipdb_report" | "scan_detection_abuseipdb_report" => Some(AbuseReport)
    case _ => None
  }

  predicate IsRootValue(name: string) { KeyOf(name).Some? }

  /** The two values whose parse can fail. */
  predicate RootValueOk(name: string, word: string) {
    && (name == "worker_processes" ==> word == "auto" || Number(word, U64).Some?)
    && (name == "worker_connections" ==> Number(word, U64).Some?)
  }

  predicate SaysNo(word: string) { word in ["off", "false", "no", "0"] }

  function SetProcessKey(key: RootKey, word: string, cfg: Config): Config {
    match key
    case Workers => cfg.(workers := if word == "auto" then None else Number(word, U64))
    case Connections => cfg.(connections := Or(Number(word, U64), cfg.connections))
    case Pin => cfg.(numaPin := Unquoted(word) != "no" && Unquoted(word) != "off")
    case _ => cfg
  }

  function SetFirewallKey(key: RootKey, word: string, cfg: Config): Config {
    match key
    case Manage => cfg.(firewallManage := !SaysNo(word))
    case Backend => cfg.(firewallBackend := if word == "auto" then None else Some(word))
    case Tag => cfg.(firewallTag := word)
    case Icmp => cfg.(icmpProtection := Unquoted(word) != "off")
    case _ => cfg
  }

  function SetScanKey(env: Env, key: RootKey, word: string, cfg: Config): Config {
    match key
    case Scan => cfg.(scanDetection := Unquoted(word) != "off")
    case Window => cfg.(scanWindow := Or(Number(word, U64), 60))
    case Threshold => cfg.(scanThreshold := Or(Number(word, U64), 100))
    case ErrorRate => cfg.(scanErrorRate := Or(env.float(word), 0.6))
    case BlockTime => cfg.(scanBlock := Or(Number(word, U64), 3600))
    case _ => cfg
  }

  function SetKey(env: Env, key: RootKey, word: string, cfg: Config): Config {
    match key
    case AbuseKey => cfg.(abuseKey := Some(Unquoted(word)))
    case AbuseReport => cfg.(abuseReport := Unquoted(word) != "off")
    case Workers | Connections | Pin => SetProcessKey(key, word, cfg)
    case Manage | Backend | Tag | Icmp => SetFirewallKey(key, word, cfg)
    case _ => SetScanKey(env, key, word, cfg)
  }

  function ApplyRoot(env: Env, name: string, word: string, cfg: Config): Config {
    match KeyOf(name) case None => cfg case Some(key) => SetKey(env, key, word, cfg)
  }

  /** The events block. It ends at the first closing brace after a directive; a brace or semicolon in
      the place of a directive leaves the loop without being consumed. */
  function EventsBlock(ts: seq<Token>, connections: Option<nat>): Option<(Option<nat>, nat)>
    decreases |ts|
  {
    if ts == [] || !ts[0].Word? then Some((connections, 0))
    else if ts[0] == Word("worker_connections") then
      match Args(OneWord, ts[1..])
      case None => None
      case Some((args, n)) =>
        if Number(args[0], U64).None? then None
        else CloseEvents(ts, 1 + n, Number(args[0], U64))
    else
      var k := Leading(ts);
      CloseEvents(ts, if k < |ts| && ts[k] == Semicolon then k + 1 else k, connections)
  }

  function CloseEvents(ts: seq<Token>, n: nat, connections: Option<nat>): Option<(Option<nat>, nat)>
    requires ts != [] && ts[0].Word? && 0 < n <= |ts|
    decreases |ts|, 0
  {
    if n < |ts| && ts[n] == CloseBrace then Some((connections, n + 1))
    else After(n, EventsBlock(ts[n..], connections))
  }

  function RootStep(env: Env, path: string, name: string, ts: seq<Token>): Option<(Edit, nat)> {
    if name == "events" then
      if ts == [] || ts[0] != OpenBrace then None
      else
        match EventsBlock(ts[1..], None)
        case None => None
        case Some((c, n)) => Some((SetConnections(c), 1 + n))
    else if name == "http" then
      if ts == [] || ts[0] != OpenBrace then None
      else
        match ParseHttp(env, path, ts[1..])
        case None => None
        case Some((h, n)) => Some((SetHttp(h), 1 + n))
    else if name == "include" then
      match Args(OneWord, ts) case None => None case Some((args, n)) => Some((Include(args[0]), n))
    else if IsRootValue(name) then
      match Args(OneWord, ts)
      case None => None
      case Some((args, n)) => if RootValueOk(name, args[0]) then Some((SetValue(name, args), n)) else None
    else Some((Nothing, SkipUnknown(ts)))
  }

  function Edited(env: Env, edit: Edit, cfg: Config): Config {
    match edit
    case SetValue(name, args) => if args == [] then cfg else ApplyRoot(env, name, args[0], cfg)
    case SetConnections(Some(n)) => cfg.(connections := n)
    case SetHttp(h) => cfg.(http := h)
    case _ => cfg
  }

  /** The root loop: it stops at the first token that is not a word. */
  function RootLoop(env: Env, path: string, depth: nat, ts: seq<Token>, cfg: Config): Option<Config>
    requires depth <= MAX_INCLUDE_DEPTH
    decreases MAX_INCLUDE_DEPTH - depth, 2, |ts|
  {
    if ts == [] || !ts[0].Word? then Some(cfg)
    else
      match RootStep(env, path, ts[0].text, ts[1..])
      case None => None
      case Some((edit, n)) =>
        match Merged(env, path, depth, edit, cfg)
        case None => None
        case Some(next) => RootLoop(env, path, depth, Drop(ts[1..], n), next)
  }

  function Merged(env: Env, path: string, depth: nat, edit: Edit, cfg: Config): Option<Config>
    requires depth <= MAX_INCLUDE_DEPTH
    decreases MAX_INCLUDE_DEPTH - depth, 1, 0
  {
    if !edit.Include? then Some(Edited(env, edit, cfg))
    else if depth >= MAX_INCLUDE_DEPTH then None
    else IncludeFiles(env, env.expand(path, edit.pattern), depth, cfg)
  }

  /** Each matched file is parsed one level deeper; only its servers are taken over. */
  function IncludeFiles(env: Env, files: seq<string>, depth: nat, cfg: Config): Option<Config>
    requires depth < MAX_INCLUDE_DEPTH
    decreases MAX_INCLUDE_DEPTH - depth, 0, |files|
  {
    if files == [] then Some(cfg)
    else
      match LoadAt(env, files[0], depth + 1)
      case None => None
      case Some(sub) =>
        IncludeFiles(env, files[1..], depth,
          cfg.(http := cfg.http.(servers := cfg.http.servers + sub.http.servers)))
  }

  /** A file parsed at an include depth. */
  function LoadAt(env: Env, path: string, depth: nat): Option<Config>
    requires depth <= MAX_INCLUDE_DEPTH
    decreases MAX_INCLUDE_DEPTH - depth, 3, 0
  {
    match env.read(path)
    case None => None
    case Some(src) => RootLoop(env, path, depth, Tokens(src), DEFAULT_CONFIG)
  }
}

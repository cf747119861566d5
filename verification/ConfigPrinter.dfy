/** A printer of configurations: every location, server, upstream group, http block and root value that the
    parser can make, as the tokens of a configuration file, in the spellings the directives allow. */
module ConfigPrinter {
  import opened Common
  import opened Tokenizer
  import opened ConfigTypes
  import opened ConfigGrammar
  import opened ConfigLocality
  import opened ConfigReading
  import opened ConfigWords

  /** A way of writing: sizes, times, rates and the four kinds of switches, whether the longer of two
      spellings is taken, and how many names go on a first line of their own. */
  datatype Style = Style(
    size: nat -> string, seconds: nat -> string, rate: real -> string,
    on: bool -> string, off: bool -> string, pin: bool -> string, wall: bool -> string, long: bool, cut: nat)

  /** Sizes and times read as what they stand for; of the switches some are set by `on` alone, and the
      others by every word but those that say no. */
  ghost predicate GoodStyle(st: Style) {
    && (forall n: nat :: n < U64 ==> Size(st.size(n)) == Some(n))
    && (forall n: nat :: n < U64 ==> Seconds(st.seconds(n)) == Some(n))
    && (forall b: bool :: st.on(b) == "on" <==> b)
    && (forall b: bool :: Unquoted(st.off(b)) != "off" <==> b)
    && (forall b: bool :: Unquoted(st.pin(b)) !in ["no", "off"] <==> b)
    && (forall b: bool :: st.wall(b) !in ["off", "false", "no", "0"] <==> b)
  }

  lemma NumbersRead(st: Style, n: nat)
    requires GoodStyle(st) && n < U64
    ensures Size(st.size(n)) == Some(n) && Seconds(st.seconds(n)) == Some(n)
  {
    hide Size, Seconds, Unquoted;
  }

  lemma SwitchesRead(st: Style, b: bool)
    requires GoodStyle(st)
    ensures (st.on(b) == "on") == b && (Unquoted(st.off(b)) != "off") == b
    ensures (Unquoted(st.pin(b)) != "no" && Unquoted(st.pin(b)) != "off") == b
    ensures (st.wall(b) !in ["off", "false", "no", "0"]) == b
  {
    hide Size, Seconds, Unquoted;
  }

  function Either(st: Style, long: string, short: string): string { if st.long then long else short }

  /** A directive that may be missing. */
  function Maybe(name: string, args: Option<seq<string>>): seq<Token> {
    match args case None => [] case Some(a) => Line(name, a)
  }

  function Alone(word: Option<string>): Option<seq<string>> {
    match word case None => None case Some(w) => Some([w])
  }

  function SizeWord(st: Style, n: Option<nat>): Option<string> {
    match n case None => None case Some(v) => Some(st.size(v))
  }

  function Braced(head: seq<Token>, body: seq<Token>): seq<Token> { head + ([OpenBrace] + (body + [CloseBrace])) }

  // ---- What locations and servers share ----

  function HeaderLines(st: Style): ((string, string)) -> seq<Token> {
    (h: (string, string)) => Line("add_header", [h.0, h.1] + (if st.long then ["always"] else []))
  }

  function RewriteLines(st: Style): Rewrite -> seq<Token> {
    (r: Rewrite) => Line("rewrite",
      [r.pattern, r.replacement] + (if r.flag == Last && !st.long then [] else [FlagWord(r.flag)]))
  }

  function LimitArgs(l: Option<LimitReq>): Option<seq<string>> {
    match l case None => None case Some(v) => Some(LimitWords(v))
  }

  function ReturnArgs(r: Option<ReturnDirective>): Option<seq<string>> {
    match r case None => None case Some(v) => Some(ReturnWords(v))
  }

  // ---- Locations ----

  function ParamLines(name: string): ((string, string)) -> seq<Token> {
    (p: (string, string)) => Line(name, [p.0, p.1])
  }

  function HandlerLines(st: Style, h: Handler): seq<Token> {
    match h
    case Static => []
    case Return(_) => []
    case FastCgi(u, params, index, time) =>
      Line("fastcgi_pass", [UpstreamWord(u)]) + Each(ParamLines("fastcgi_param"), params)
        + Maybe("fastcgi_index", Alone(index)) + Line("fastcgi_read_timeout", [st.seconds(time)])
    case Proxy(url, headers, time, buffering, internal) =>
      Line("proxy_pass", [url]) + Each(ParamLines("proxy_set_header"), headers)
        + Line("proxy_read_timeout", [st.seconds(time)]) + Line("proxy_buffering", [st.on(buffering)])
        + Line("proxy_allow_internal", [st.on(internal)])
  }

  function TryArgs(ts: Option<seq<TryFile>>): Option<seq<string>> {
    match ts case None => None case Some(v) => Some(TryWords(v))
  }

  function SwitchWord(st: Style, b: Option<bool>): Option<string> {
    match b case None => None case Some(v) => Some(st.on(v))
  }

  function FileLines(loc: Location): seq<Token> {
    Maybe("root", Alone(loc.root)) + Maybe("index", loc.index) + Maybe("try_files", TryArgs(loc.tryFiles))
  }

  function LimitLines(st: Style, loc: Location): seq<Token> {
    Maybe("client_max_body_size", Alone(SizeWord(st, loc.maxBody))) + Maybe("gzip", Alone(SwitchWord(st, loc.gzip)))
      + Maybe("limit_req", LimitArgs(loc.limitReq))
  }

  function AuthLines(loc: Location): seq<Token> {
    Maybe("auth_basic", Alone(loc.realm)) + Maybe("auth_basic_user_file", Alone(loc.userFile))
  }

  function WorkLines(st: Style, loc: Location): seq<Token> {
    Maybe("return", ReturnArgs(loc.answer)) + HandlerLines(st, loc.handler) + FileLines(loc)
  }

  function RuleLines(st: Style, loc: Location): seq<Token> {
    LimitLines(st, loc) + Each(HeaderLines(st), loc.addHeaders) + Each(RewriteLines(st), loc.rewrites)
  }

  function LocationLines(st: Style, loc: Location): seq<Token> {
    WorkLines(st, loc) + RuleLines(st, loc) + AuthLines(loc)
  }

  function LocationTokens(st: Style): Location -> seq<Token> {
    (loc: Location) => [Word("location")] + Braced(Words(PatternWords(loc.pattern)), LocationLines(st, loc))
  }

  predicate PrintableHandler(env: Env, h: Handler) {
    match h
    case Static => true
    case Return(d) => PrintableReturn(d)
    case FastCgi(u, _, _, time) => PrintableUpstream(env, u) && time < U64
    case Proxy(url, _, time, _, _) => env.isProxyUrl(url) && time < U64
  }

  predicate PrintableBody(n: Option<nat>) { n.Some? ==> n.value <= ABSOLUTE_MAX_BODY_BYTES }

  /** A location before its block closes. */
  predicate PrintableBlock(env: Env, loc: Location) {
    && PrintablePattern(env, loc.pattern)
    && PrintableHandler(env, loc.handler)
    && (loc.handler.Static? ==> loc.answer.None?)
    && (loc.handler.Return? ==> loc.answer == Some(loc.handler.directive))
    && (loc.answer.Some? ==> PrintableReturn(loc.answer.value))
    && (loc.root.Some? ==> SafeRoot(loc.root.value))
    && (loc.tryFiles.Some? ==> forall t | t in loc.tryFiles.value :: PrintableTry(t))
    && PrintableBody(loc.maxBody)
    && (loc.limitReq.Some? ==> PrintableLimit(loc.limitReq.value))
    && loc.realm != Some("off")
  }

  /** The locations that can be written: `return` is the handler unless a later directive sets another,
      and realm and user file stand in `auth` exactly when there are both. */
  predicate PrintableLocation(env: Env, loc: Location) {
    PrintableBlock(env, loc) && CloseLocation(loc) == loc
  }

  // ---- Servers ----

  function ListenLines(l: Listen): seq<Token> { Line("listen", ListenWords(l)) }

  /** The names go on two lines. */
  function NameLines(st: Style, ns: seq<ServerName>): seq<Token> {
    Line("server_name", NameWords(FirstOf(ns, st.cut))) + Line("server_name", NameWords(Drop(ns, st.cut)))
  }

  function ErrorPageLines(p: ErrorPage): seq<Token> { Line("error_page", CodeWords(p.codes) + [p.uri]) }

  function LogArgs(l: Option<AccessLog>): Option<seq<string>> {
    match l case None => None case Some(v) => Some([LogWord(v)])
  }

  function ProtocolWords(tls12: bool): seq<string> { if tls12 then ["TLSv1.2", "TLSv1.3"] else ["TLSv1.3"] }

  function TlsLines(tls: Option<Tls>): seq<Token> {
    match tls
    case None => []
    case Some(t) =>
      Line("ssl_certificate", [t.certPath]) + Line("ssl_certificate_key", [t.keyPath])
        + Line("ssl_protocols", ProtocolWords(t.tls12))
  }

  function ServerAuthLines(auth: Option<AuthBasic>): seq<Token> {
    match auth
    case None => []
    case Some(a) => Line("auth_basic", [a.realm]) + Line("auth_basic_user_file", [a.userFile])
  }

  const YEAR: nat := 31536000

  function MaxAgeLines(st: Style, n: Option<nat>): seq<Token> {
    match n
    case None => []
    case Some(v) =>
      if v == YEAR && st.long then Line("hsts", [st.off(true)])
      else Line(Either(st, "hsts_max_age", "hsts-max-age"), [Shown(v)])
  }

  function HstsLines(st: Style, srv: Server): seq<Token> {
    MaxAgeLines(st, srv.hstsMaxAge)
      + Line(Either(st, "hsts_include_subdomains", "hsts-include-subdomains"), [st.off(srv.hstsSubdomains)])
  }

  function HostLines(st: Style, srv: Server): seq<Token> {
    Each(ListenLines, srv.listen) + NameLines(st, srv.names) + Maybe("root", Alone(srv.root))
      + Line("index", srv.index) + Maybe("access_log", LogArgs(srv.accessLog))
      + Maybe("client_max_body_size", Alone(SizeWord(st, srv.maxBody)))
  }

  function AnswerLines(st: Style, srv: Server): seq<Token> {
    Each(ErrorPageLines, srv.errorPages) + Each(HeaderLines(st), srv.addHeaders)
      + Maybe("return", ReturnArgs(srv.answer)) + Maybe("limit_req", LimitArgs(srv.limitReq))
      + Each(RewriteLines(st), srv.rewrites)
  }

  function SecurityLines(st: Style, srv: Server): seq<Token> {
    ServerAuthLines(srv.auth) + TlsLines(srv.tls)
      + Line(Either(st, "ssl_redirect", "ssl-redirect"), [st.off(srv.sslRedirect)]) + HstsLines(st, srv)
  }

  function ServerLines(st: Style, srv: Server): seq<Token> {
    HostLines(st, srv) + AnswerLines(st, srv) + SecurityLines(st, srv) + Each(LocationTokens(st), srv.locations)
  }

  function ServerTokens(st: Style): Server -> seq<Token> {
    (srv: Server) => [Word("server")] + Braced([], ServerLines(st, srv))
  }

  predicate PrintableErrorPage(p: ErrorPage) { p.codes != [] && PrintableCodes(p.codes) }

  predicate PrintableHost(env: Env, srv: Server) {
    && (forall l | l in srv.listen :: PrintableListen(env, l))
    && (forall n | n in srv.names :: PrintableName(n))
    && (srv.root.Some? ==> SafeRoot(srv.root.value))
    && (srv.accessLog.Some? ==> PrintableLog(srv.accessLog.value))
    && PrintableBody(srv.maxBody)
  }

  predicate PrintableAnswer(srv: Server) {
    && (forall p | p in srv.errorPages :: PrintableErrorPage(p))
    && (srv.answer.Some? ==> PrintableReturn(srv.answer.value))
    && (srv.limitReq.Some? ==> PrintableLimit(srv.limitReq.value))
  }

  predicate PrintableSecurity(srv: Server) {
    && (srv.auth.Some? ==> srv.auth.value.realm != "off")
    && (srv.hstsMaxAge.Some? ==> srv.hstsMaxAge.value < U64)
  }

  predicate PrintableLocations(env: Env, locs: seq<Location>) {
    |locs| <= MAX_LOCATION_BLOCKS && forall loc | loc in locs :: PrintableLocation(env, loc)
  }

  predicate PrintableServer(env: Env, srv: Server) {
    PrintableHost(env, srv) && PrintableAnswer(srv) && PrintableSecurity(srv) && PrintableLocations(env, srv.locations)
  }

  // ---- Upstream groups ----

  function PeerLines(p: (string, nat)): seq<Token> { Line("server", [p.0, "weight=" + Shown(p.1)]) }

  function PolicyLines(policy: string): seq<Token> { if policy == "round_robin" then [] else Line(policy, []) }

  function HealthWords(st: Style, g: UpstreamGroup): seq<string> {
    ["interval=" + st.seconds(g.healthInterval), "timeout=" + st.seconds(g.healthTimeout)]
  }

  function GroupLines(st: Style, g: UpstreamGroup): seq<Token> {
    Each(PeerLines, g.peers) + PolicyLines(g.policy) + Line("keepalive", [Shown(g.keepalive)])
      + Line("fail_timeout", [st.seconds(g.failTimeout)]) + Line("max_fails", [Shown(g.maxFails)])
      + Line("health_check", HealthWords(st, g))
  }

  function GroupTokens(st: Style): UpstreamGroup -> seq<Token> {
    (g: UpstreamGroup) => [Word("upstream")] + Braced([Word(g.name)], GroupLines(st, g))
  }

  predicate PrintableGroup(g: UpstreamGroup) {
    && (forall p | p in g.peers :: p.1 < U32)
    && g.policy in ["round_robin", "least_conn", "ip_hash", "random"]
    && g.healthInterval < U64 && g.healthTimeout < U64 && g.failTimeout < U64 && g.maxFails < U32 && g.keepalive < U64
  }

  // ---- Http ----

  function ZoneLines(st: Style): ((string, real)) -> seq<Token> {
    (z: (string, real)) => Line("limit_req_zone", ["$binary_remote_addr"] + ZoneWords(st.rate, z))
  }

  function GzipLines(st: Style, h: Http): seq<Token> {
    Line("gzip", [st.on(h.gzip)]) + Line("gzip_types", h.gzipTypes)
      + Line("gzip_min_length", [st.size(h.gzipMinLength)])
  }

  function BrotliLines(st: Style, h: Http): seq<Token> {
    Line("brotli", [st.on(h.brotli)]) + Line("brotli_types", h.brotliTypes)
      + Line("brotli_min_length", [st.size(h.brotliMinLength)])
  }

  function SizeLines(st: Style, h: Http): seq<Token> {
    Line("access_log", [LogWord(h.accessLog)]) + Line("client_max_body_size", [st.size(h.maxBody)])
  }

  function TimeLines(st: Style, h: Http): seq<Token> {
    Line("keepalive_timeout", [st.seconds(h.keepaliveTimeout)]) + Line("send_timeout", [st.seconds(h.sendTimeout)])
  }

  function AdminLines(h: Http): seq<Token> {
    Line("api_key", [h.apiKey]) + Line("webui_admin_user", [h.adminUser])
      + Line("webui_admin_password", [h.adminPassword])
  }

  function CompressionLines(st: Style, h: Http): seq<Token> { GzipLines(st, h) + BrotliLines(st, h) }

  function ValueLines(st: Style, h: Http): seq<Token> { SizeLines(st, h) + TimeLines(st, h) + AdminLines(h) }

  function HttpLines(st: Style, h: Http): seq<Token> {
    CompressionLines(st, h) + ValueLines(st, h) + Each(ZoneLines(st), h.zones) + Each(GroupTokens(st), h.upstreams)
      + Each(ServerTokens(st), h.servers)
  }

  predicate PrintableValues(h: Http) {
    && h.gzipMinLength < U64 && h.brotliMinLength < U64 && h.maxBody <= ABSOLUTE_MAX_BODY_BYTES
    && h.keepaliveTimeout < U64 && h.sendTimeout < U64 && PrintableLog(h.accessLog)
  }

  predicate PrintableServers(env: Env, servers: seq<Server>) {
    forall srv | srv in servers :: PrintableServer(env, srv)
  }

  predicate PrintableHttp(env: Env, h: Http) {
    && PrintableValues(h)
    && (forall z | z in h.zones :: PrintableZone(z))
    && (forall g | g in h.upstreams :: PrintableGroup(g))
    && PrintableServers(env, h.servers)
  }

  /** Library facts on the rates of a configuration: printed, they read back. */
  ghost predicate RatesPrint(env: Env, st: Style, h: Http) {
    forall z | z in h.zones :: PrintsReal(env, st.rate, z.1)
  }

  // ---- The root ----

  function AutoOr(word: Option<string>): string { match word case None => "auto" case Some(w) => w }

  function WorkerWord(n: Option<nat>): string { match n case None => "auto" case Some(v) => Shown(v) }

  function ConnectionLines(st: Style, n: nat): seq<Token> {
    if st.long then [Word("events")] + Braced([], Line("worker_connections", [Shown(n)]))
    else Line("worker_connections", [Shown(n)])
  }

  function ProcessLines(st: Style, cfg: Config): seq<Token> {
    Line("worker_processes", [WorkerWord(cfg.workers)]) + ConnectionLines(st, cfg.connections)
      + Line(Either(st, "numa_pin", "numa-pin"), [st.pin(cfg.numaPin)])
  }

  function FirewallLines(st: Style, cfg: Config): seq<Token> {
    Line(Either(st, "firewall_manage", "firewall"), [st.wall(cfg.firewallManage)])
      + Line("firewall_backend", [AutoOr(cfg.firewallBackend)]) + Line("firewall_tag", [cfg.firewallTag])
      + Line(Either(st, "icmp_protection", "icmp-protection"), [st.off(cfg.icmpProtection)])
  }

  function ScanLines(st: Style, cfg: Config): seq<Token> {
    Line(Either(st, "scan_detection", "scan-detection"), [st.off(cfg.scanDetection)])
      + Line(Either(st, "scan_detection_window", "scan_window"), [Shown(cfg.scanWindow)])
      + Line(Either(st, "scan_detection_threshold", "scan_threshold"), [Shown(cfg.scanThreshold)])
      + Line(Either(st, "scan_detection_error_rate", "scan_error_rate"), [st.rate(cfg.scanErrorRate)])
      + Line(Either(st, "scan_detection_block", "scan_block"), [Shown(cfg.scanBlock)])
  }

  function AbuseLines(st: Style, cfg: Config): seq<Token> {
    Maybe(Either(st, "scan_detection_abuseipdb_key", "abuseipdb_key"), Alone(cfg.abuseKey))
      + Line(Either(st, "scan_detection_abuseipdb_report", "abuseipdb_report"), [st.off(cfg.abuseReport)])
  }

  function ConfigTokens(st: Style, cfg: Config): seq<Token> {
    ProcessLines(st, cfg) + FirewallLines(st, cfg) + ScanLines(st, cfg) + AbuseLines(st, cfg)
      + ([Word("http")] + Braced([], HttpLines(st, cfg.http)))
  }

  predicate PrintableConfig(env: Env, cfg: Config) {
    && (cfg.workers.Some? ==> cfg.workers.value < U64) && cfg.connections < U64
    && cfg.scanWindow < U64 && cfg.scanThreshold < U64 && cfg.scanBlock < U64
    && cfg.firewallBackend != Some("auto")
    && (cfg.abuseKey.Some? ==> NoQuotes(cfg.abuseKey.value))
    && PrintableHttp(env, cfg.http)
  }

  /** Library facts on the floats of a configuration. */
  ghost predicate FloatsPrint(env: Env, st: Style, cfg: Config) {
    env.float(st.rate(cfg.scanErrorRate)) == Some(cfg.scanErrorRate) && RatesPrint(env, st, cfg.http)
  }
}

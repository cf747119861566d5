/** The configuration a parse produces, and what each simple directive does to it. Values that
    libraries interpret (addresses, URLs, regular expressions, floats) go through `Env`. */
module ConfigTypes {
  import opened Common
  import Ascii

  const MAX_INCLUDE_DEPTH: nat := 10
  const MAX_SERVER_BLOCKS: nat := 256
  const MAX_LOCATION_BLOCKS: nat := 1024
  const DEFAULT_MAX_BODY_BYTES: nat := 1048576
  const ABSOLUTE_MAX_BODY_BYTES: nat := 2147483648

  /** The outside world: glob expansion of an include pattern relative to a file, file contents, and
      the library parsers. */
  datatype Env = Env(
    expand: (string, string) -> seq<string>,
    read: string -> Option<string>,
    isSocketAddr: string -> bool,
    isProxyUrl: string -> bool,
    isRegex: string -> bool,
    float: string -> Option<real>
  )

  datatype AccessLog = LogOff | LogStderr | LogFile(path: string)
  datatype ListenAddr = SocketAddr(text: string) | AnyAddress(port: nat)
  datatype Listen = Listen(addr: ListenAddr, tls: bool, http2: bool, defaultServer: bool)
  datatype ServerName = ExactName(name: string) | WildcardName(name: string) | SuffixName(name: string) | CatchAll
  datatype Pattern =
    | ExactPath(path: string) | PrefixNoRegex(path: string) | Prefix(path: string)
    | Regex(source: string) | RegexInsensitive(source: string) | Named(name: string)
  datatype TryFile = TryPath(path: string) | TryStatus(code: nat) | TryNamed(name: string)
  datatype ReturnBody = NoBody | TextBody(text: string) | UrlBody(url: string)
  datatype ReturnDirective = ReturnDirective(status: nat, body: ReturnBody)
  datatype LimitReq = LimitReq(zone: string, burst: nat, nodelay: bool)
  datatype RewriteFlag = Last | Break | Redirect | Permanent
  datatype Rewrite = Rewrite(pattern: string, replacement: string, flag: RewriteFlag)
  datatype AuthBasic = AuthBasic(realm: string, userFile: string)
  datatype ErrorPage = ErrorPage(codes: seq<nat>, uri: string)
  datatype Tls = Tls(certPath: string, keyPath: string, tls12: bool)
  datatype FastCgiUpstream = UnixSocket(path: string) | TcpAddr(addr: string)

  datatype Handler =
    | Static
    | FastCgi(upstream: FastCgiUpstream, params: seq<(string, string)>, index: Option<string>, cgiTimeout: nat)
    | Proxy(url: string, setHeaders: seq<(string, string)>, readTimeout: nat, buffering: bool, allowInternal: bool)
    | Return(directive: ReturnDirective)

  /** A location block; `realm` and `userFile` are merged into `auth` when the block closes. */
  datatype Location = Location(
    pattern: Pattern, handler: Handler, root: Option<string>, index: Option<seq<string>>,
    tryFiles: Option<seq<TryFile>>, addHeaders: seq<(string, string)>, maxBody: Option<nat>,
    answer: Option<ReturnDirective>, gzip: Option<bool>, limitReq: Option<LimitReq>, rewrites: seq<Rewrite>,
    realm: Option<string>, userFile: Option<string>, auth: Option<AuthBasic>)

  datatype Server = Server(
    listen: seq<Listen>, names: seq<ServerName>, root: Option<string>, index: seq<string>,
    locations: seq<Location>, tls: Option<Tls>, accessLog: Option<AccessLog>, maxBody: Option<nat>,
    errorPages: seq<ErrorPage>, addHeaders: seq<(string, string)>, answer: Option<ReturnDirective>,
    limitReq: Option<LimitReq>, rewrites: seq<Rewrite>, auth: Option<AuthBasic>, sslRedirect: bool,
    hstsMaxAge: Option<nat>, hstsSubdomains: bool)

  datatype UpstreamGroup = UpstreamGroup(
    name: string, peers: seq<(string, nat)>, policy: string, healthInterval: nat, healthTimeout: nat,
    failTimeout: nat, maxFails: nat, keepalive: nat)

  datatype Http = Http(
    servers: seq<Server>, gzip: bool, gzipTypes: seq<string>, gzipMinLength: nat, brotli: bool,
    brotliTypes: seq<string>, brotliMinLength: nat, accessLog: AccessLog, maxBody: nat,
    keepaliveTimeout: nat, sendTimeout: nat, apiKey: string, adminUser: string, adminPassword: string,
    zones: seq<(string, real)>, upstreams: seq<UpstreamGroup>)

  datatype Config = Config(
    workers: Option<nat>, connections: nat, http: Http, firewallManage: bool,
    firewallBackend: Option<string>, firewallTag: string, icmpProtection: bool, numaPin: bool,
    scanDetection: bool, scanWindow: nat, scanThreshold: nat, scanErrorRate: real, scanBlock: nat,
    abuseKey: Option<string>, abuseReport: bool)

  const COMPRESSED: seq<string> := ["text/html", "text/css", "application/javascript", "application/json"]

  const DEFAULT_HTTP: Http := Http(
    [], false, COMPRESSED, 1024, false, COMPRESSED, 1024, LogFile("/var/log/runnginx/access.log"),
    DEFAULT_MAX_BODY_BYTES, 75, 60, "", "admin", "admin", [], [])

  const DEFAULT_CONFIG: Config := Config(
    None, 1024, DEFAULT_HTTP, true, None, "runnginx", true, false, true, 60, 100, 0.6, 3600, None, false)

  const NEW_SERVER: Server := Server(
    [], [], None, ["index.html", "index.htm"], [], None, None, None, [], [], None, None, [], None,
    false, None, true)

  function NewLocation(pattern: Pattern): Location {
    Location(pattern, Static, None, None, None, [], None, None, None, None, [], None, None, None)
  }

  // ---- Words ----

  /** `str::parse` for an unsigned type below `bound`. */
  function Number(s: string, bound: nat): Option<nat> {
    if forall i | 0 <= i < |s| :: s[i] < '\U{80}' then Ascii.ParseUnsigned(Ascii.Text(s), bound) else None
  }

  function Or<T>(o: Option<T>, default: T): T { match o case None => default case Some(v) => v }

  function Unquoted(s: string): string { TrimEnd(TrimStart(s, {'"'}), {'"'}) }

  function Unspaced(s: string): string {
    TrimEnd(TrimStart(s, {' ', '\t', '\n', '\r', '\U{B}', '\U{C}'}), {' ', '\t', '\n', '\r', '\U{B}', '\U{C}'})
  }

  /** `trim_start_matches` with a text: every leading repetition goes. */
  function Without(s: string, prefix: string): string
    requires prefix != ""
    decreases |s|
  {
    if prefix <= s then Without(s[|prefix|..], prefix) else s
  }

  function Seconds(s: string): Option<nat> { Number(TrimEnd(s, {'s'}), U64) }

  /** `1m`, `8k`, `2g`; the product wraps at 64 bits. */
  function Size(word: string): Option<nat> {
    var s := Unspaced(word);
    if s == "" then None
    else
      var last := s[|s| - 1];
      var mult := if last == 'k' || last == 'K' then 1024
        else if last == 'm' || last == 'M' then 1024 * 1024
        else if last == 'g' || last == 'G' then 1024 * 1024 * 1024 else 1;
      match Number(if mult == 1 then s else s[..|s| - 1], U64)
      case None => None
      case Some(n) => Some(n * mult % U64)
  }

  function FirstWith(args: seq<string>, prefix: string): Option<string> {
    if args == [] then None else if prefix <= args[0] then Some(args[0]) else FirstWith(args[1..], prefix)
  }

  function LastWith(args: seq<string>, prefix: string): (r: Option<string>)
    ensures r.Some? ==> prefix <= r.value
  {
    if args == [] then None
    else if prefix <= args[|args| - 1] then Some(args[|args| - 1])
    else LastWith(args[..|args| - 1], prefix)
  }

  // ---- Directive arguments ----

  function ParseAccessLog(args: seq<string>): AccessLog
    requires args != []
  {
    if args[0] == "off" then LogOff else if args[0] == "stderr" then LogStderr else LogFile(args[0])
  }

  function ListenWord(args: seq<string>): string {
    if args == [] then ""
    else
      var a := args[|args| - 1];
      if a in ["ssl", "http2", "default_server", "reuseport", "backlog", "rcvbuf", "sndbuf", "ipv6only=on",
               "ipv6only=off"]
      then ListenWord(args[..|args| - 1]) else a
  }

  function ParseListen(env: Env, args: seq<string>): Option<Listen> {
    var word := ListenWord(args);
    var addr := if env.isSocketAddr(word) then Some(SocketAddr(word))
      else match Number(word, U16) case None => None case Some(port) => Some(AnyAddress(port));
    match addr
    case None => None
    case Some(a) => Some(Listen(a, "ssl" in args, "http2" in args, "default_server" in args))
  }

  function ParseServerName(s: string): ServerName {
    if s == "_" || s == "" then CatchAll
    else if "*." <= s then WildcardName(s)
    else if "." <= s then SuffixName(s)
    else ExactName(s)
  }

  function ParseServerNames(args: seq<string>): seq<ServerName> {
    if args == [] then [] else [ParseServerName(args[0])] + ParseServerNames(args[1..])
  }

  /** A path without a NUL and without a `..` component. */
  predicate SafeRoot(p: string) { '\0' !in p && !HasParent(p) }

  predicate HasParent(p: string) {
    p == ".." || "../" <= p || (p != "" && ParentAfterSlash(p))
  }

  predicate ParentAfterSlash(p: string) {
    p != "" && ((p[0] == '/' && (p[1..] == ".." || "../" <= p[1..])) || ParentAfterSlash(p[1..]))
  }

  function ParsePattern(env: Env, args: seq<string>): Option<Pattern> {
    if |args| == 1 then Some(if "@" <= args[0] then Named(args[0]) else Prefix(args[0]))
    else if |args| != 2 then None
    else if args[0] == "=" then Some(ExactPath(args[1]))
    else if args[0] == "^~" then Some(PrefixNoRegex(args[1]))
    else if args[0] == "~" then (if env.isRegex(args[1]) then Some(Regex(args[1])) else None)
    else if args[0] == "~*" then (if env.isRegex("(?i)" + args[1]) then Some(RegexInsensitive(args[1])) else None)
    else None
  }

  function ParseTryFile(s: string): TryFile {
    if "=" <= s && Number(s[1..], U16).Some? then TryStatus(Number(s[1..], U16).value)
    else if "@" <= s then TryNamed(s)
    else TryPath(s)
  }

  function ParseTryFiles(args: seq<string>): seq<TryFile> {
    if args == [] then [] else [ParseTryFile(args[0])] + ParseTryFiles(args[1..])
  }

  function ParseFastCgiUpstream(env: Env, s: string): Option<FastCgiUpstream> {
    if "unix:" <= s then Some(UnixSocket("/" + TrimStart(s[5..], {'/'})))
    else if env.isSocketAddr(s) then Some(TcpAddr(s)) else None
  }

  function ParseReturn(args: seq<string>): Option<ReturnDirective>
    requires args != []
  {
    match Number(args[0], U16)
    case None => None
    case Some(status) =>
      var body := if |args| == 1 then NoBody
        else if 300 <= status < 400 then UrlBody(args[1]) else TextBody(args[1]);
      Some(ReturnDirective(status, body))
  }

  /** Without a `burst=` word the burst is 0. */
  function ParseLimitReq(args: seq<string>): Option<LimitReq> {
    match FirstWith(args, "zone=")
    case None => None
    case Some(z) =>
      var burst := match FirstWith(args, "burst=")
        case None => 0
        case Some(b) => Or(Number(Without(b, "burst="), U32), 0);
      Some(LimitReq(Without(z, "zone="), burst, "nodelay" in args))
  }

  function ParseRewrite(args: seq<string>): Rewrite
    requires |args| >= 2
  {
    var flag := if |args| == 2 then Last
      else if args[2] == "break" then Break else if args[2] == "redirect" then Redirect
      else if args[2] == "permanent" then Permanent else Last;
    Rewrite(args[0], args[1], flag)
  }

  function Codes(args: seq<string>): seq<nat> {
    if args == [] then []
    else (match Number(args[0], U16) case None => [] case Some(n) => [n]) + Codes(args[1..])
  }

  function ParseRate(env: Env, s: string): Option<real> {
    if |s| >= 3 && s[|s| - 3..] == "r/s" then env.float(Unspaced(s[..|s| - 3]))
    else if |s| >= 3 && s[|s| - 3..] == "r/m" then
      match env.float(Unspaced(s[..|s| - 3])) case None => None case Some(v) => Some(v / 60.0)
    else None
  }

  function UpToColon(s: string): string {
    if s == "" || s[0] == ':' then "" else [s[0]] + UpToColon(s[1..])
  }

  function ParseZone(env: Env, args: seq<string>): seq<(string, real)> {
    match (FirstWith(args, "zone="), FirstWith(args, "rate="))
    case (Some(z), Some(r)) =>
      (match ParseRate(env, Without(r, "rate="))
       case None => []
       case Some(rps) => [(UpToColon(Without(z, "zone=")), rps)])
    case _ => []
  }
}

/** The words of configuration directives: what each value is written as, in all its spellings, and that
    the parser makes that value of the words, and of no others. */
module ConfigWords {
  import opened Common
  import Ascii
  import opened ConfigTypes

  // ---- Numbers ----

  /** A number in decimal digits. */
  function Shown(n: nat): (s: string)
    ensures s != "" && forall i | 0 <= i < |s| :: '0' <= s[i] <= '9'
  {
    assert forall i | 0 <= i < |Ascii.Decimal(n)| :: Ascii.IsDigit(Ascii.Decimal(n)[i]);
    seq(|Ascii.Decimal(n)|, i requires 0 <= i < |Ascii.Decimal(n)| => Ascii.Decimal(n)[i] as int as char)
  }

  lemma ShownReads(n: nat, bound: nat)
    ensures Number(Shown(n), bound) == if n < bound then Some(n) else None
  {
    hide Shown;
    Ascii.DecimalReadsBack(n, bound);
    ShownText(n);
    hide Ascii.ParseUnsigned, Ascii.Decimal;
  }

  lemma ShownText(n: nat)
    ensures Ascii.Text(Shown(n)) == Ascii.Decimal(n)
  {
    var d := Ascii.Decimal(n);
    forall i | 0 <= i < |d| ensures Ascii.Text(Shown(n))[i] == d[i] {
      assert Ascii.IsDigit(d[i]);
    }
  }

  /** A number word: a plus sign or none, any zeros, and the digits. */
  function NumberWord(plus: bool, zeros: nat, n: nat): string {
    (if plus then "+" else "") + (seq(zeros, _ => '0') + Shown(n))
  }

  predicate IsAscii(s: string) { forall i | 0 <= i < |s| :: s[i] < '\U{80}' }

  lemma NumberWordText(plus: bool, zeros: nat, n: nat)
    ensures IsAscii(NumberWord(plus, zeros, n))
    ensures Ascii.Text(NumberWord(plus, zeros, n)) == Ascii.NumberText(plus, zeros, n)
  {
    hide Shown, Ascii.Decimal;
    ShownText(n);
    var sign, zs := if plus then "+" else "", seq(zeros, _ => '0');
    assert Ascii.Text(zs) == seq(zeros, _ => 48);
    assert Ascii.Text(sign) == if plus then [43] else [];
    assert Ascii.Text(zs + Shown(n)) == Ascii.Text(zs) + Ascii.Text(Shown(n));
    assert Ascii.Text(sign + (zs + Shown(n))) == Ascii.Text(sign) + Ascii.Text(zs + Shown(n));
  }

  lemma AsciiTextIsInjective(a: string, b: string)
    requires IsAscii(a) && IsAscii(b) && Ascii.Text(a) == Ascii.Text(b)
    ensures a == b
  {
    forall i | 0 <= i < |a| ensures a[i] == b[i] {
      assert Ascii.Text(a)[i] == Ascii.Text(b)[i];
    }
  }

  /** The words that are a number, and which: exactly these spellings, below the bound of the type. */
  lemma NumberReads(s: string, bound: nat, n: nat)
    ensures Number(s, bound) == Some(n)
       <==> n < bound && exists plus: bool, zeros: nat :: s == NumberWord(plus, zeros, n)
  {
    hide Ascii.ParseUnsigned, Ascii.NumberText, NumberWord;
    Ascii.NumbersRead(Ascii.Text(s), bound, n);
    forall plus: bool, zeros: nat
      ensures s == NumberWord(plus, zeros, n) <==> IsAscii(s) && Ascii.Text(s) == Ascii.NumberText(plus, zeros, n)
    {
      NumberWordText(plus, zeros, n);
      if IsAscii(s) && Ascii.Text(s) == Ascii.NumberText(plus, zeros, n) {
        AsciiTextIsInjective(s, NumberWord(plus, zeros, n));
      }
    }
  }

  lemma NumberBelow(s: string, bound: nat)
    ensures Number(s, bound).Some? ==> Number(s, bound).value < bound
  {
    hide Ascii.DigitsValue;
  }

  predicate AllIn(s: string, chars: set<char>) { forall c | c in s :: c in chars }

  /** Seconds may carry any number of `s` behind them. */
  lemma SecondsRead(n: nat, unit: string)
    requires AllIn(unit, {'s'})
    ensures Seconds(Shown(n) + unit) == if n < U64 then Some(n) else None
  {
    ShownReads(n, U64);
    TrimEndPadding(Shown(n), unit, {'s'});
    hide Shown;
    assert TrimEnd(Shown(n), {'s'}) == Shown(n);
  }

  function UnitOf(c: char): nat {
    if c in {'k', 'K'} then 1024
    else if c in {'m', 'M'} then 1024 * 1024
    else if c in {'g', 'G'} then 1024 * 1024 * 1024
    else 1
  }

  const SPACES: set<char> := {' ', '\t', '\n', '\r', '\U{B}', '\U{C}'}

  function UnitValue(unit: string): nat { if unit == "" then 1 else UnitOf(unit[0]) }

  lemma UnitEnds(n: nat, unit: string)
    requires |unit| <= 1 && AllIn(unit, {'k', 'K', 'm', 'M', 'g', 'G'})
    ensures var s := Shown(n) + unit;
      && s != "" && s[0] !in SPACES && s[|s| - 1] !in SPACES && UnitOf(s[|s| - 1]) == UnitValue(unit)
      && (if UnitValue(unit) == 1 then s else s[..|s| - 1]) == Shown(n)
  {
    hide Shown;
    var s := Shown(n) + unit;
    assert '0' <= Shown(n)[0] <= '9' && '0' <= Shown(n)[|Shown(n)| - 1] <= '9';
    if unit == "" {
      assert s == Shown(n);
    } else {
      assert unit[0] in unit && s[..|s| - 1] == Shown(n);
    }
  }

  /** A size is a number with at most one letter for its unit, in either case, between blanks; beyond 64
      bits it wraps. */
  lemma SizeReads(left: string, n: nat, unit: string, right: string)
    requires AllIn(left, SPACES) && AllIn(right, SPACES)
    requires |unit| <= 1 && AllIn(unit, {'k', 'K', 'm', 'M', 'g', 'G'})
    ensures Size(left + (Shown(n) + unit) + right) == if n < U64 then Some(n * UnitValue(unit) % U64) else None
  {
    hide Shown, Number, Unspaced, Size, UnitValue, UnitOf, AllIn;
    ShownReads(n, U64);
    UnitEnds(n, unit);
    UnspacedReads(left, Shown(n) + unit, right);
    SizeIs(left + (Shown(n) + unit) + right, Shown(n) + unit);
  }

  lemma SizeIs(word: string, s: string)
    requires Unspaced(word) == s && s != ""
    ensures var unit := UnitOf(s[|s| - 1]);
      Size(word) == match Number(if unit == 1 then s else s[..|s| - 1], U64) case None => None
        case Some(n) => Some(n * unit % U64)
  {
    hide Number, Unspaced;
  }

  lemma UnspacedReads(left: string, s: string, right: string)
    requires AllIn(left, SPACES) && AllIn(right, SPACES) && s != "" && s[0] !in SPACES && s[|s| - 1] !in SPACES
    ensures Unspaced(left + s + right) == s
  {
    Assoc(left, s, right);
    TrimStartPadding(left, s + right, SPACES);
    assert (s + right)[0] == s[0];
    TrimEndPadding(s, right, SPACES);
  }

  lemma PlainSizeReads(n: nat)
    requires n < U64
    ensures Size(Shown(n)) == Some(n)
  {
    hide Size, Shown;
    SizeReads("", n, "", "");
    assert "" + (Shown(n) + "") + "" == Shown(n);
    Unwrapped(n);
  }

  lemma Unwrapped(n: nat)
    requires n < U64
    ensures n * 1 % U64 == n
  {
  }

  // ---- Switches ----

  function OnOff(b: bool): string { if b then "on" else "off" }

  /** Quotes that are left around a word do not count. */
  lemma UnquotedReads(left: string, w: string, right: string)
    requires AllIn(left, {'"'}) && AllIn(right, {'"'}) && (w != "" ==> w[0] != '"' && w[|w| - 1] != '"')
    ensures Unquoted(left + w + right) == w
  {
    Assoc(left, w, right);
    TrimStartPadding(left, w + right, {'"'});
    if w == "" {
      assert w + right == right + "";
      TrimStartPadding(right, "", {'"'});
    } else {
      assert (w + right)[0] == w[0];
      TrimEndPadding(w, right, {'"'});
    }
  }

  predicate NoQuotes(w: string) { w != "" ==> w[0] != '"' && w[|w| - 1] != '"' }

  lemma NoQuotesStay(w: string)
    requires NoQuotes(w)
    ensures Unquoted(w) == w
  {
    UnquotedReads("", w, "");
    assert "" + w + "" == w;
  }

  lemma {:induction false} EndHasNoQuotes(w: string)
    ensures var t := TrimEnd(w, {'"'}); t != "" ==> t[|t| - 1] != '"' && t <= w
    decreases |w|
  {
    if w != "" && w[|w| - 1] == '"' { EndHasNoQuotes(w[..|w| - 1]); }
  }

  lemma {:induction false} StartHasNoQuotes(w: string)
    ensures var t := TrimStart(w, {'"'}); t != "" ==> t[0] != '"'
  {
    if w != "" && w[0] == '"' { StartHasNoQuotes(w[1..]); }
  }

  lemma UnquotedHasNoQuotes(w: string)
    ensures NoQuotes(Unquoted(w))
  {
    StartHasNoQuotes(w);
    EndHasNoQuotes(TrimStart(w, {'"'}));
    hide TrimStart, TrimEnd;
  }

  lemma SwitchReads(b: bool)
    ensures (Unquoted(OnOff(b)) != "off") == b && (OnOff(b) == "on") == b
    ensures b == (Unquoted(OnOff(b)) != "no" && Unquoted(OnOff(b)) != "off")
  {
    NoQuotesStay(OnOff(b));
    assert "on"[1] == 'n' && "off"[1] == 'f' && "no"[1] == 'o';
  }

  // ---- Words with a key ----

  /** The first word with a key. */
  lemma {:induction false} FirstWithIs(args: seq<string>, prefix: string, i: nat)
    requires i < |args| && prefix <= args[i] && forall k | 0 <= k < i :: !(prefix <= args[k])
    ensures FirstWith(args, prefix) == Some(args[i])
  {
    if i > 0 { FirstWithIs(args[1..], prefix, i - 1); }
  }

  lemma {:induction false} FirstWithNone(args: seq<string>, prefix: string)
    requires forall k | 0 <= k < |args| :: !(prefix <= args[k])
    ensures FirstWith(args, prefix) == None
  {
    if args != [] {
      FirstWithNone(args[1..], prefix);
    }
  }

  /** The last word with a key. */
  lemma {:induction false} LastWithIs(args: seq<string>, prefix: string, i: nat)
    requires i < |args| && prefix <= args[i] && forall k | i < k < |args| :: !(prefix <= args[k])
    ensures LastWith(args, prefix) == Some(args[i])
    decreases |args|
  {
    if i < |args| - 1 {
      assert forall k | 0 <= k < |args| - 1 :: args[..|args| - 1][k] == args[k];
      LastWithIs(args[..|args| - 1], prefix, i);
    }
  }

  lemma {:induction false} LastWithNone(args: seq<string>, prefix: string)
    requires forall k | 0 <= k < |args| :: !(prefix <= args[k])
    ensures LastWith(args, prefix) == None
    decreases |args|
  {
    if args != [] {
      assert forall k | 0 <= k < |args| - 1 :: args[..|args| - 1][k] == args[k];
      LastWithNone(args[..|args| - 1], prefix);
    }
  }

  lemma WithoutReads(key: string, s: string)
    requires key != "" && !(key <= s)
    ensures Without(key + s, key) == s
  {
    assert (key + s)[|key|..] == s;
  }

  lemma {:induction false} WithoutIs(s: string, key: string)
    requires key != ""
    ensures !(key <= Without(s, key))
    decreases |s|
  {
    if key <= s { WithoutIs(s[|key|..], key); }
  }

  lemma DigitsHaveNoKey(n: nat, key: string)
    requires key != "" && key[0] > '9'
    ensures !(key <= Shown(n))
  {
    hide Shown;
  }

  // ---- listen ----

  predicate IsListenFlag(w: string) {
    w in ["ssl", "http2", "default_server", "reuseport", "backlog", "rcvbuf", "sndbuf", "ipv6only=on", "ipv6only=off"]
  }

  /** The address is the last word that is no flag. */
  lemma {:induction false} ListenWordIs(args: seq<string>, i: nat)
    requires i < |args| && !IsListenFlag(args[i]) && forall k | i < k < |args| :: IsListenFlag(args[k])
    ensures ListenWord(args) == args[i]
    decreases |args|
  {
    if i < |args| - 1 {
      assert IsListenFlag(args[|args| - 1]);
      assert forall k | 0 <= k < |args| - 1 :: args[..|args| - 1][k] == args[k];
      ListenWordIs(args[..|args| - 1], i);
    }
  }

  lemma {:induction false} ListenWordIsNoFlag(args: seq<string>)
    ensures !IsListenFlag(ListenWord(args))
    decreases |args|
  {
    if args != [] { ListenWordIsNoFlag(args[..|args| - 1]); }
  }

  predicate SpellsAddress(env: Env, w: string, addr: ListenAddr) {
    match addr
    case SocketAddr(text) => env.isSocketAddr(w) && text == w
    case AnyAddress(port) => !env.isSocketAddr(w) && Number(w, U16) == Some(port)
  }

  /** What the words of `listen` mean, whatever their order: TLS exactly with `ssl` among them, HTTP/2
      exactly with `http2`, the default server exactly with `default_server`, and the address is the last
      word that is no flag. */
  lemma ListenReads(env: Env, args: seq<string>, i: nat, l: Listen)
    requires i < |args| && !IsListenFlag(args[i]) && forall k | i < k < |args| :: IsListenFlag(args[k])
    ensures ParseListen(env, args) == Some(l) <==>
      && SpellsAddress(env, args[i], l.addr)
      && (l.tls <==> exists k :: 0 <= k < |args| && args[k] == "ssl")
      && (l.http2 <==> exists k :: 0 <= k < |args| && args[k] == "http2")
      && (l.defaultServer <==> exists k :: 0 <= k < |args| && args[k] == "default_server")
  {
    ListenWordIs(args, i);
    hide ListenWord, Number, IsListenFlag;
  }

  function AddressWord(addr: ListenAddr): string {
    match addr case SocketAddr(text) => text case AnyAddress(port) => Shown(port)
  }

  function ListenWords(l: Listen): seq<string> {
    [AddressWord(l.addr)] + (if l.tls then ["ssl"] else []) + (if l.http2 then ["http2"] else [])
      + (if l.defaultServer then ["default_server"] else [])
  }

  predicate PrintableListen(env: Env, l: Listen) {
    match l.addr
    case SocketAddr(text) => env.isSocketAddr(text) && !IsListenFlag(text)
    case AnyAddress(port) => port < U16
  }

  lemma NumberIsNoFlag(n: nat)
    ensures !IsListenFlag(Shown(n))
  {
    hide Shown;
    FlagsAreLetters(Shown(n));
  }

  lemma FlagsAreLetters(w: string)
    ensures IsListenFlag(w) ==> w != "" && w[0] > '9'
  {
  }

  /** A library fact: no plain number is a socket address. */
  ghost predicate PortsAreNoAddresses(env: Env) { forall w :: Number(w, U16).Some? ==> !env.isSocketAddr(w) }

  lemma ListenReadsBack(env: Env, l: Listen)
    requires PortsAreNoAddresses(env) && PrintableListen(env, l)
    ensures ParseListen(env, ListenWords(l)) == Some(l)
  {
    var args := ListenWords(l);
    if l.addr.AnyAddress? {
      ShownReads(l.addr.port, U16);
      NumberIsNoFlag(l.addr.port);
    }
    hide Shown, Number;
    assert !IsListenFlag(args[0]) && forall k | 0 < k < |args| :: IsListenFlag(args[k]);
    ListenReads(env, args, 0, l);
    FlagsAmong(l);
    hide IsListenFlag, PortsAreNoAddresses;
  }

  lemma FlagsAmong(l: Listen)
    requires !IsListenFlag(AddressWord(l.addr))
    ensures l.tls <==> exists k :: 0 <= k < |ListenWords(l)| && ListenWords(l)[k] == "ssl"
    ensures l.http2 <==> exists k :: 0 <= k < |ListenWords(l)| && ListenWords(l)[k] == "http2"
    ensures l.defaultServer <==> exists k :: 0 <= k < |ListenWords(l)| && ListenWords(l)[k] == "default_server"
  {
    hide AddressWord;
    var args := ListenWords(l);
    if l.tls { assert args[1] == "ssl"; }
    if l.http2 { assert args[if l.tls then 2 else 1] == "http2"; }
    if l.defaultServer { assert args[|args| - 1] == "default_server"; }
    assert "ssl"[0] != "http2"[0] && "ssl"[0] != "default_server"[0] && "http2"[0] != "default_server"[0];
  }

  lemma ParsedListenIsPrintable(env: Env, args: seq<string>, l: Listen)
    requires ParseListen(env, args) == Some(l)
    ensures PrintableListen(env, l)
  {
    ListenWordIsNoFlag(args);
    hide ListenWord, IsListenFlag;
    NumberBelow(ListenWord(args), U16);
    hide Number;
  }

  // ---- Names, patterns and handlers ----

  function NameWord(n: ServerName): string {
    match n case ExactName(s) => s case WildcardName(s) => s case SuffixName(s) => s case CatchAll => "_"
  }

  predicate PrintableName(n: ServerName) {
    match n
    case ExactName(s) => s != "" && s != "_" && s[0] != '.' && !("*." <= s)
    case WildcardName(s) => "*." <= s
    case SuffixName(s) => s != "" && s[0] == '.'
    case CatchAll => true
  }

  /** A word is the name it is written as, and every word is one. */
  lemma NameReads(n: ServerName, w: string)
    ensures PrintableName(n) ==> ParseServerName(NameWord(n)) == n
    ensures PrintableName(ParseServerName(w)) && (w != "" ==> NameWord(ParseServerName(w)) == w)
  {
  }

  function NameWords(ns: seq<ServerName>): (r: seq<string>)
    ensures |r| == |ns| && forall i | 0 <= i < |ns| :: r[i] == NameWord(ns[i])
  {
    seq(|ns|, i requires 0 <= i < |ns| => NameWord(ns[i]))
  }

  lemma {:induction false} NamesReadBack(ns: seq<ServerName>)
    requires forall n | n in ns :: PrintableName(n)
    ensures ParseServerNames(NameWords(ns)) == ns
  {
    hide ParseServerName, PrintableName;
    if ns != [] {
      NameReads(ns[0], "");
      NamesReadBack(ns[1..]);
      assert NameWords(ns)[1..] == NameWords(ns[1..]);
    }
  }

  lemma {:induction false} ParsedNamesArePrintable(args: seq<string>)
    ensures forall n | n in ParseServerNames(args) :: PrintableName(n)
  {
    hide ParseServerName, PrintableName;
    if args != [] {
      NameReads(CatchAll, args[0]);
      ParsedNamesArePrintable(args[1..]);
    }
  }

  function PatternWords(p: Pattern): seq<string> {
    match p
    case ExactPath(s) => ["=", s]
    case PrefixNoRegex(s) => ["^~", s]
    case Prefix(s) => [s]
    case Regex(s) => ["~", s]
    case RegexInsensitive(s) => ["~*", s]
    case Named(s) => [s]
  }

  predicate PrintablePattern(env: Env, p: Pattern) {
    match p
    case ExactPath(_) => true
    case PrefixNoRegex(_) => true
    case Prefix(s) => !("@" <= s)
    case Regex(s) => env.isRegex(s)
    case RegexInsensitive(s) => env.isRegex("(?i)" + s)
    case Named(s) => "@" <= s
  }

  /** The words before a location block, for every kind of pattern and for no others. */
  lemma PatternReads(env: Env, args: seq<string>, p: Pattern)
    ensures ParsePattern(env, args) == Some(p) <==> PrintablePattern(env, p) && args == PatternWords(p)
  {
    if |args| == 1 { assert args == [args[0]]; } else if |args| == 2 { assert args == [args[0], args[1]]; }
  }

  function TryWord(t: TryFile): string {
    match t case TryPath(s) => s case TryStatus(code) => "=" + Shown(code) case TryNamed(s) => s
  }

  predicate PrintableTry(t: TryFile) {
    match t
    case TryPath(s) => !("@" <= s) && !("=" <= s && Number(s[1..], U16).Some?)
    case TryStatus(code) => code < U16
    case TryNamed(s) => "@" <= s
  }

  lemma TryReads(t: TryFile)
    requires PrintableTry(t)
    ensures ParseTryFile(TryWord(t)) == t
  {
    hide Shown, Number;
    match t {
      case TryPath(s) =>
      case TryStatus(code) =>
        ShownReads(code, U16);
        var w := "=" + Shown(code);
        assert w[0] == '=' && w[1..] == Shown(code) && "=" <= w;
      case TryNamed(s) => assert s[0] == '@';
    }
  }

  lemma ParsedTryIsPrintable(s: string)
    ensures PrintableTry(ParseTryFile(s))
  {
    if s != "" { NumberBelow(s[1..], U16); }
    hide Number;
  }

  function TryWords(ts: seq<TryFile>): (r: seq<string>)
    ensures |r| == |ts| && forall i | 0 <= i < |ts| :: r[i] == TryWord(ts[i])
  {
    seq(|ts|, i requires 0 <= i < |ts| => TryWord(ts[i]))
  }

  lemma {:induction false} TriesReadBack(ts: seq<TryFile>)
    requires forall t | t in ts :: PrintableTry(t)
    ensures ParseTryFiles(TryWords(ts)) == ts
  {
    hide ParseTryFile, PrintableTry, TryWord;
    if ts != [] {
      TryReads(ts[0]);
      TriesReadBack(ts[1..]);
      assert TryWords(ts)[1..] == TryWords(ts[1..]);
    }
  }

  lemma {:induction false} ParsedTriesArePrintable(args: seq<string>)
    ensures forall t | t in ParseTryFiles(args) :: PrintableTry(t)
  {
    hide ParseTryFile, PrintableTry;
    if args != [] {
      ParsedTryIsPrintable(args[0]);
      ParsedTriesArePrintable(args[1..]);
    }
  }

  function UpstreamWord(u: FastCgiUpstream): string {
    match u case UnixSocket(path) => "unix:" + path case TcpAddr(addr) => addr
  }

  predicate PrintableUpstream(env: Env, u: FastCgiUpstream) {
    match u
    case UnixSocket(path) => "/" <= path && !("//" <= path)
    case TcpAddr(addr) => env.isSocketAddr(addr) && !("unix:" <= addr)
  }

  lemma {:induction false} SlashesVanish(k: nat, path: string)
    requires !("/" <= path)
    ensures TrimStart(seq(k, _ => '/') + path, {'/'}) == path
  {
    var s := seq(k, _ => '/') + path;
    if k == 0 {
      assert s == path;
    } else {
      assert s[1..] == seq(k - 1, _ => '/') + path;
      SlashesVanish(k - 1, path);
    }
  }

  /** A socket path may have any number of slashes before it, and has one afterwards. */
  lemma UpstreamReads(env: Env, k: nat, path: string)
    requires !("/" <= path)
    ensures ParseFastCgiUpstream(env, "unix:" + (seq(k, _ => '/') + path)) == Some(UnixSocket("/" + path))
  {
    SlashesVanish(k, path);
    assert ("unix:" + (seq(k, _ => '/') + path))[5..] == seq(k, _ => '/') + path;
    hide TrimStart;
  }

  lemma SlashTwice(path: string)
    ensures "/" <= path <==> "//" <= "/" + path
  {
    assert ("/" + path)[1..] == path;
    if path != "" { assert ("/" + path)[1] == path[0]; }
  }

  lemma UpstreamReadsBack(env: Env, u: FastCgiUpstream)
    requires PrintableUpstream(env, u)
    ensures ParseFastCgiUpstream(env, UpstreamWord(u)) == Some(u)
  {
    if u.UnixSocket? {
      var path := u.path[1..];
      assert u.path == seq(1, _ => '/') + path && u.path == "/" + path;
      SlashTwice(path);
      UpstreamReads(env, 1, path);
    }
  }

  lemma {:induction false} NoLeadingSlash(s: string)
    ensures !("/" <= TrimStart(s, {'/'}))
  {
    if s != "" && s[0] == '/' { NoLeadingSlash(s[1..]); }
  }

  lemma ParsedUpstreamIsPrintable(env: Env, s: string, u: FastCgiUpstream)
    requires ParseFastCgiUpstream(env, s) == Some(u)
    ensures PrintableUpstream(env, u)
  {
    if "unix:" <= s {
      NoLeadingSlash(s[5..]);
      hide TrimStart;
      SlashTwice(TrimStart(s[5..], {'/'}));
    }
  }

  function ReturnWords(r: ReturnDirective): seq<string> {
    [Shown(r.status)] + match r.body case NoBody => [] case TextBody(t) => [t] case UrlBody(u) => [u]
  }

  predicate PrintableReturn(r: ReturnDirective) {
    r.status < U16 && match r.body
      case NoBody => true
      case TextBody(_) => !(300 <= r.status < 400)
      case UrlBody(_) => 300 <= r.status < 400
  }

  lemma ReturnReads(r: ReturnDirective)
    requires PrintableReturn(r)
    ensures ParseReturn(ReturnWords(r)) == Some(r)
  {
    ShownReads(r.status, U16);
    hide Shown, Number;
  }

  lemma ParsedReturnIsPrintable(args: seq<string>, r: ReturnDirective)
    requires args != [] && ParseReturn(args) == Some(r)
    ensures PrintableReturn(r)
  {
    NumberBelow(args[0], U16);
    hide Number;
  }

  function LogWord(l: AccessLog): string {
    match l case LogOff => "off" case LogStderr => "stderr" case LogFile(path) => path
  }

  predicate PrintableLog(l: AccessLog) { l.LogFile? ==> l.path != "off" && l.path != "stderr" }

  lemma LogReads(l: AccessLog, args: seq<string>)
    requires args != []
    ensures PrintableLog(l) ==> ParseAccessLog([LogWord(l)]) == l
    ensures PrintableLog(ParseAccessLog(args))
  {
    assert "off"[0] != "stderr"[0];
  }

  // ---- limit_req and its zones ----

  predicate HasKey(args: seq<string>, prefix: string) { exists k :: 0 <= k < |args| && prefix <= args[k] }

  /** Word i is the first with its key. */
  predicate FirstOfKey(args: seq<string>, prefix: string, i: nat) {
    i < |args| && prefix <= args[i] && forall k | 0 <= k < i :: !(prefix <= args[k])
  }

  lemma KeyFound(args: seq<string>, prefix: string, i: nat)
    ensures FirstOfKey(args, prefix, i) ==> FirstWith(args, prefix) == Some(args[i])
    ensures !HasKey(args, prefix) ==> FirstWith(args, prefix) == None
  {
    if FirstOfKey(args, prefix, i) { FirstWithIs(args, prefix, i); }
    if !HasKey(args, prefix) { FirstWithNone(args, prefix); }
  }

  /** What the words of `limit_req` mean, whatever their order: the first zone, the first burst or else
      zero, and no delay exactly with `nodelay` among them; without a zone there is no limit. */
  lemma LimitReads(args: seq<string>, i: nat, zone: string, j: nat, burst: nat)
    requires FirstOfKey(args, "zone=", i) && args[i] == "zone=" + zone && !("zone=" <= zone)
    requires if HasKey(args, "burst=")
      then FirstOfKey(args, "burst=", j) && args[j] == "burst=" + Shown(burst) && burst < U32
      else burst == 0
    ensures ParseLimitReq(args)
         == Some(LimitReq(zone, burst, exists k :: 0 <= k < |args| && args[k] == "nodelay"))
  {
    KeyFound(args, "zone=", i);
    KeyFound(args, "burst=", j);
    WithoutReads("zone=", zone);
    if HasKey(args, "burst=") {
      DigitsHaveNoKey(burst, "burst=");
      WithoutReads("burst=", Shown(burst));
      ShownReads(burst, U32);
    }
    hide FirstWith, Without, Shown, Number, FirstOfKey, HasKey;
  }

  lemma NoZoneNoLimit(args: seq<string>)
    requires !HasKey(args, "zone=")
    ensures ParseLimitReq(args) == None
  {
    KeyFound(args, "zone=", 0);
    hide HasKey, FirstWith;
  }

  function LimitWords(l: LimitReq): seq<string> {
    ["zone=" + l.zone, "burst=" + Shown(l.burst)] + (if l.nodelay then ["nodelay"] else [])
  }

  predicate PrintableLimit(l: LimitReq) { l.burst < U32 && !("zone=" <= l.zone) }

  lemma LimitReadsBack(l: LimitReq)
    requires PrintableLimit(l)
    ensures ParseLimitReq(LimitWords(l)) == Some(l)
  {
    hide Shown, ParseLimitReq;
    var args := LimitWords(l);
    assert args[0][0] == 'z' && args[1][0] == 'b';
    assert "nodelay"[0] == 'n';
    assert "zone=" <= args[0] && "burst=" <= args[1];
    assert FirstOfKey(args, "zone=", 0) && FirstOfKey(args, "burst=", 1);
    LimitReads(args, 0, l.zone, 1, l.burst);
    if l.nodelay { assert args[2] == "nodelay"; }
  }

  lemma ParsedLimitIsPrintable(args: seq<string>)
    ensures ParseLimitReq(args).Some? ==> PrintableLimit(ParseLimitReq(args).value)
  {
    match FirstWith(args, "burst=") {
      case None =>
      case Some(b) => NumberBelow(Without(b, "burst="), U32);
    }
    match FirstWith(args, "zone=") {
      case None =>
      case Some(z) => WithoutIs(z, "zone=");
    }
    hide FirstWith, Without, Number;
  }

  /** Library facts on a real: printed it reads back, and it carries no blanks and no key. */
  ghost predicate PrintsReal(env: Env, show: real -> string, v: real) {
    env.float(show(v)) == Some(v) && Unspaced(show(v)) == show(v) && !("rate=" <= show(v) + "r/s")
  }

  /** A rate counts requests per second, or per minute. */
  lemma RateReads(env: Env, text: string, v: real)
    requires env.float(Unspaced(text)) == Some(v)
    ensures ParseRate(env, text + "r/s") == Some(v) && ParseRate(env, text + "r/m") == Some(v / 60.0)
  {
    hide Unspaced;
    RateEnds(text, "r/s");
    RateEnds(text, "r/m");
    assert "r/s"[2] != "r/m"[2];
  }

  lemma RateEnds(text: string, unit: string)
    requires |unit| == 3
    ensures (text + unit)[|text + unit| - 3..] == unit && (text + unit)[..|text + unit| - 3] == text
  {
  }

  function ZoneWords(show: real -> string, zone: (string, real)): seq<string> {
    ["zone=" + (zone.0 + ":1m"), "rate=" + (show(zone.1) + "r/s")]
  }

  predicate PrintableZone(zone: (string, real)) { ':' !in zone.0 && !("zone=" <= zone.0) }

  lemma {:induction false} ColonEnds(s: string, rest: string)
    requires ':' !in s && (rest == "" || rest[0] == ':')
    ensures UpToColon(s + rest) == s
  {
    if s == "" {
      assert s + rest == rest;
    } else {
      assert s[0] in s;
      assert (s + rest)[1..] == s[1..] + rest;
      ColonEnds(s[1..], rest);
      assert [s[0]] + s[1..] == s;
    }
  }

  lemma {:induction false} UpToColonIs(s: string)
    ensures ':' !in UpToColon(s) && UpToColon(s) <= s
  {
    if s != "" { UpToColonIs(s[1..]); }
  }

  /** What the words of `limit_req_zone` mean: the first zone, up to a colon, and the first rate; without
      either, or with a rate that does not read, there is no zone. */
  lemma ZoneReads(env: Env, args: seq<string>, i: nat, z: string, j: nat, rate: string)
    requires FirstOfKey(args, "zone=", i) && args[i] == "zone=" + z && !("zone=" <= z)
    requires FirstOfKey(args, "rate=", j) && args[j] == "rate=" + rate && !("rate=" <= rate)
    ensures ParseZone(env, args) == match ParseRate(env, rate) case None => [] case Some(v) => [(UpToColon(z), v)]
  {
    KeyFound(args, "zone=", i);
    KeyFound(args, "rate=", j);
    WithoutReads("zone=", z);
    WithoutReads("rate=", rate);
    hide FirstWith, Without, ParseRate, FirstOfKey, UpToColon;
  }

  lemma ZoneReadsBack(env: Env, show: real -> string, zone: (string, real))
    requires PrintsReal(env, show, zone.1) && PrintableZone(zone)
    ensures ParseZone(env, ["$binary_remote_addr"] + ZoneWords(show, zone)) == [zone]
  {
    var z, rate := zone.0 + ":1m", show(zone.1) + "r/s";
    var args := ["$binary_remote_addr"] + ZoneWords(show, zone);
    PrintedRate(env, show, zone.1);
    ZoneKeys(args, z, rate);
    hide PrintsReal, ParseZone, ParseRate, UpToColon, ZoneWords, FirstOfKey;
    KeyInName(zone.0, ":1m");
    ZoneReads(env, args, 1, z, 2, rate);
    ColonEnds(zone.0, ":1m");
  }

  lemma PrintedRate(env: Env, show: real -> string, v: real)
    requires PrintsReal(env, show, v)
    ensures ParseRate(env, show(v) + "r/s") == Some(v) && !("rate=" <= show(v) + "r/s")
  {
    hide ParseRate, Unspaced;
    RateReads(env, show(v), v);
  }

  lemma ZoneKeys(args: seq<string>, z: string, rate: string)
    requires args == ["$binary_remote_addr", "zone=" + z, "rate=" + rate]
    ensures FirstOfKey(args, "zone=", 1) && FirstOfKey(args, "rate=", 2)
  {
    assert args[0][0] == '$' && args[1][0] == 'z' && args[2][0] == 'r';
  }

  lemma KeyInName(name: string, tail: string)
    requires tail != "" && tail[0] == ':'
    ensures "zone=" <= name + tail ==> "zone=" <= name
  {
    assert forall k | 0 <= k < |"zone="| :: "zone="[k] != ':';
    assert (name + tail)[|name|] == ':';
  }

  lemma ParsedZonesArePrintable(env: Env, args: seq<string>)
    ensures forall zone | zone in ParseZone(env, args) :: PrintableZone(zone)
  {
    match FirstWith(args, "zone=") {
      case None =>
      case Some(z) =>
        var name := Without(z, "zone=");
        WithoutIs(z, "zone=");
        UpToColonIs(name);
        assert "zone=" <= UpToColon(name) ==> "zone=" <= name;
    }
    hide FirstWith, Without, ParseRate, UpToColon;
  }

  // ---- Rewrites, error pages and peers ----

  function FlagWord(f: RewriteFlag): string {
    match f case Last => "last" case Break => "break" case Redirect => "redirect" case Permanent => "permanent"
  }

  /** A flag is what it is written as; none, or any other word, is `last`. */
  lemma RewriteReads(r: Rewrite, other: string)
    ensures ParseRewrite([r.pattern, r.replacement, FlagWord(r.flag)]) == r
    ensures ParseRewrite([r.pattern, r.replacement]) == r.(flag := Last)
    ensures (forall f: RewriteFlag :: FlagWord(f) != other) ==>
      ParseRewrite([r.pattern, r.replacement, other]) == r.(flag := Last)
  {
    assert FlagWord(Break) == "break" && FlagWord(Redirect) == "redirect" && FlagWord(Permanent) == "permanent";
    assert "last"[0] != "break"[0] && "last"[0] != "redirect"[0] && "last"[0] != "permanent"[0];
    assert "break"[0] != "redirect"[0] && "break"[0] != "permanent"[0] && "redirect"[0] != "permanent"[0];
  }

  function CodeWords(codes: seq<nat>): (r: seq<string>)
    ensures |r| == |codes| && forall i | 0 <= i < |codes| :: r[i] == Shown(codes[i])
  {
    seq(|codes|, i requires 0 <= i < |codes| => Shown(codes[i]))
  }

  predicate PrintableCodes(codes: seq<nat>) { forall c | c in codes :: c < U16 }

  lemma {:induction false} CodesReadBack(codes: seq<nat>)
    requires PrintableCodes(codes)
    ensures Codes(CodeWords(codes)) == codes
  {
    hide Shown, Number;
    if codes != [] {
      assert codes[0] in codes && forall c | c in codes[1..] :: c in codes;
      ShownReads(codes[0], U16);
      CodesReadBack(codes[1..]);
      assert CodeWords(codes)[1..] == CodeWords(codes[1..]);
    }
  }

  /** Words that are no 16-bit numbers are passed over, wherever they stand. */
  lemma {:induction false} CodesPassOver(a: seq<string>, w: string, b: seq<string>)
    ensures Codes(a + ([w] + b)) == Codes(a) + (Codes([w]) + Codes(b))
    ensures Codes([w]) == match Number(w, U16) case None => [] case Some(n) => [n]
  {
    hide Number;
    assert [w][1..] == [];
    if a == [] {
      assert a + ([w] + b) == [w] + b && ([w] + b)[1..] == b;
    } else {
      CodesPassOver(a[1..], w, b);
      assert (a + ([w] + b))[1..] == a[1..] + ([w] + b);
      assert Codes(a) == Codes([a[0]]) + Codes(a[1..]) by { assert [a[0]][1..] == []; }
      Assoc(Codes([a[0]]), Codes(a[1..]), Codes([w]) + Codes(b));
      assert Codes(a + ([w] + b)) == Codes([a[0]]) + Codes(a[1..] + ([w] + b)) by { assert [a[0]][1..] == []; }
    }
  }

  lemma {:induction false} ParsedCodesArePrintable(args: seq<string>)
    ensures PrintableCodes(Codes(args))
  {
    hide Number;
    if args != [] {
      NumberBelow(args[0], U16);
      ParsedCodesArePrintable(args[1..]);
    }
  }

  function WeightOf(args: seq<string>): nat {
    match LastWith(args, "weight=") case None => 1 case Some(w) => Or(Number(w[7..], U32), 1)
  }

  /** A peer's weight is the last one given, and 1 without one. */
  lemma WeightReads(args: seq<string>, i: nat, weight: nat)
    requires weight < U32 && i < |args| && args[i] == "weight=" + Shown(weight)
    requires forall k | i < k < |args| :: !("weight=" <= args[k])
    ensures WeightOf(args) == weight
  {
    LastWithIs(args, "weight=", i);
    ShownReads(weight, U32);
    assert args[i][7..] == Shown(weight);
    hide LastWith, Shown, Number;
  }
}

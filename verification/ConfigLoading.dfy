/** Loading a configuration: insertion at the level of a whole file, cursor bounds, block limits, and
    include chains over any graph of files. */
module ConfigLoading {
  import opened Common
  import opened Tokenizer
  import opened ConfigTypes
  import opened ConfigGrammar
  import opened ConfigLocality
  import opened ConfigInsertion

  // ---- Unknown directives in a whole file ----

  lemma EventsUnfold(ts: seq<Token>, c: Option<nat>)
    ensures EventsBlock(ts, c)
         == if ts == [] || !ts[0].Word? then Some((c, 0))
            else if ts[0] == Word("worker_connections") then
              match Args(OneWord, ts[1..])
              case None => None
              case Some((args, n)) =>
                if Number(args[0], U64).None? then None else CloseEvents(ts, 1 + n, Number(args[0], U64))
            else
              var k := Leading(ts);
              CloseEvents(ts, if k < |ts| && ts[k] == Semicolon then k + 1 else k, c)
  {
    hide Args, Number, CloseEvents;
  }

  /** What decides a block that took n tokens: those, and one more unless they end in a closing brace. */
  predicate Enough(a: seq<Token>, b: seq<Token>, n: nat) {
    Agree(a, b, n) && (Agree(a, b, n + 1) || (n > 0 && a[n - 1] == CloseBrace))
  }

  lemma {:induction false} EventsLocal(a: seq<Token>, b: seq<Token>, c: Option<nat>)
    requires EventsBlock(a, c).Some? && Enough(a, b, EventsBlock(a, c).value.1)
    ensures EventsBlock(b, c) == EventsBlock(a, c)
    decreases |a|
  {
    hide EventsBlock, Args, CloseEvents, Number, Leading, Agree;
    var n := EventsBlock(a, c).value.1;
    EnoughAt(a, b, n, 0);
    EventsUnfold(a, c);
    EventsUnfold(b, c);
    if a[0].Word? {
      if a[0] == Word("worker_connections") {
        var (args, m) := Args(OneWord, a[1..]).value;
        CloseConsumes(a, 1 + m, Number(args[0], U64));
        AgreeTail(a, b, n, 1);
        AgreeLess(a[1..], b[1..], n - 1, m);
        ArgsLocal(OneWord, a[1..], b[1..]);
        LastOfArgs(a[1..]);
        assert a[m] == a[1..][m - 1];
        CloseEventsLocal(a, b, 1 + m, Number(args[0], U64));
      } else {
        var k := Leading(a);
        LeadingIsPositive(a);
        CloseConsumes(a, if k < |a| && a[k] == Semicolon then k + 1 else k, c);
        EnoughAt(a, b, n, k);
        LeadingLocal(a, b);
        CloseEventsLocal(a, b, if a[k] == Semicolon then k + 1 else k, c);
      }
    }
  }

  lemma LeadingIsPositive(ts: seq<Token>)
    requires ts != [] && ts[0].Word?
    ensures Leading(ts) > 0 && ts[Leading(ts) - 1].Word?
  {
  }

  lemma LastOfArgs(ts: seq<Token>)
    requires Args(OneWord, ts).Some?
    ensures ts[Args(OneWord, ts).value.1 - 1] == Semicolon
  {
    hide Leading, Takes;
  }

  lemma EnoughAt(a: seq<Token>, b: seq<Token>, n: nat, i: nat)
    requires Enough(a, b, n) && (i < n || (i == n && (i > 0 ==> i <= |a| && a[i - 1] != CloseBrace)))
    ensures Agree(a, b, i + 1) && i < |a| && i < |b| && a[i] == b[i]
  {
    if i < n {
      AgreeAt(a, b, n, i);
    } else {
      AgreeAt(a, b, n + 1, i);
    }
  }

  lemma CloseConsumes(ts: seq<Token>, m: nat, c: Option<nat>)
    requires ts != [] && ts[0].Word? && 0 < m <= |ts| && CloseEvents(ts, m, c).Some?
    ensures CloseEvents(ts, m, c).value.1 >= m
  {
    hide EventsBlock;
  }

  lemma {:induction false} CloseEventsLocal(a: seq<Token>, b: seq<Token>, m: nat, c: Option<nat>)
    requires a != [] && a[0].Word? && 0 < m <= |a| && b != [] && b[0].Word? && a[m - 1] != CloseBrace
    requires CloseEvents(a, m, c).Some? && Enough(a, b, CloseEvents(a, m, c).value.1)
    ensures m <= |b|
    ensures CloseEvents(b, m, c) == CloseEvents(a, m, c)
    decreases |a|, 0
  {
    hide EventsBlock, Agree;
    var n := CloseEvents(a, m, c).value.1;
    CloseConsumes(a, m, c);
    EnoughAt(a, b, n, m);
    AgreeLong(a, b, n);
    if a[m] != CloseBrace {
      AgreeTail(a, b, n, m);
      if Agree(a, b, n + 1) { AgreeTail(a, b, n + 1, m); }
      EventsLocal(a[m..], b[m..], c);
    }
  }

  lemma ParseHttpLocal(env: Env, path: string, a: seq<Token>, b: seq<Token>)
    requires |a| >= 1 && |b| >= 1 && ParseHttp(env, path, a[1..]).Some?
    requires Agree(a, b, 1 + ParseHttp(env, path, a[1..]).value.1)
    ensures a[0] == b[0] && ParseHttp(env, path, b[1..]) == ParseHttp(env, path, a[1..])
  {
    hide Block, HttpDirective, Local;
    HttpIsLocal(env, path);
    AgreeTail(a, b, 1 + ParseHttp(env, path, a[1..]).value.1, 1);
    BlockLocal(HttpDirective(env, path), a[1..], b[1..], DEFAULT_HTTP);
  }

  lemma EventsStepLocal(a: seq<Token>, b: seq<Token>)
    requires |a| >= 1 && EventsBlock(a[1..], None).Some? && EventsBlock(a[1..], None).value.1 + 1 < |a|
    requires Agree(a, b, EventsBlock(a[1..], None).value.1 + 2)
    ensures |b| >= 1 && a[0] == b[0] && EventsBlock(b[1..], None) == EventsBlock(a[1..], None)
  {
    hide EventsBlock;
    AgreeTail(a, b, EventsBlock(a[1..], None).value.1 + 2, 1);
    EventsLocal(a[1..], b[1..], None);
  }

  lemma RootStepLocal(env: Env, path: string, name: string, a: seq<Token>, b: seq<Token>)
    requires var r := RootStep(env, path, name, a); r.Some? && r.value.1 < |a| && Agree(a, b, r.value.1 + 1)
    ensures RootStep(env, path, name, b) == RootStep(env, path, name, a)
  {
    hide EventsBlock, ParseHttp, Args, SkipUnknown, IsRootValue, RootValueOk;
    var n := RootStep(env, path, name, a).value.1;
    AgreeLess(a, b, n + 1, n);
    if name == "events" {
      EventsStepLocal(a, b);
    } else if name == "http" {
      ParseHttpLocal(env, path, a, b);
    } else if name == "include" || IsRootValue(name) {
      ArgsLocal(OneWord, a, b);
    } else {
      SkipUnknownLocal(a, b);
    }
  }

  /** Position k of a file is a directive boundary inside one of the http blocks its root loop meets. */
  ghost predicate InsideFile(env: Env, path: string, level: Level, ts: seq<Token>, k: nat)
    decreases |ts|
  {
    ts != [] && ts[0].Word? && k <= |ts| && (
      || (&& ts[0].text == "http" && |ts| >= 2 && ts[1] == OpenBrace && k >= 2
          && InsideHttp(env, path, level, ts[2..], k - 2))
      || (match RootStep(env, path, ts[0].text, ts[1..])
          case None => false
          case Some((_, n)) => 1 + n < k && InsideFile(env, path, level, ts[1..][n..], k - 1 - n)))
  }

  /** What the root loop does after a directive with outcome `r`. */
  function RootFrom(env: Env, path: string, depth: nat, r: Option<(Edit, nat)>, after: seq<Token>,
                    cfg: Config): Option<Config>
    requires depth <= MAX_INCLUDE_DEPTH
  {
    match r
    case None => None
    case Some((edit, n)) =>
      match Merged(env, path, depth, edit, cfg)
      case None => None
      case Some(next) => RootLoop(env, path, depth, Drop(after, n), next)
  }

  lemma RootUnfold(env: Env, path: string, depth: nat, ts: seq<Token>, cfg: Config)
    requires depth <= MAX_INCLUDE_DEPTH && ts != [] && ts[0].Word?
    ensures RootLoop(env, path, depth, ts, cfg)
         == RootFrom(env, path, depth, RootStep(env, path, ts[0].text, ts[1..]), ts[1..], cfg)
  {
    hide RootStep, Merged;
  }

  lemma HttpStepInsertion(env: Env, path: string, level: Level, ts: seq<Token>, k: nat, x: Unknown)
    requires Balanced(x) && !Known(level, x.name)
    requires ts != [] && ts[0] == OpenBrace && 1 <= k <= |ts| && InsideHttp(env, path, level, ts[1..], k - 1)
    ensures var u, r := UnknownTokens(x), RootStep(env, path, "http", ts);
      && RootStep(env, path, "http", Insert(ts, k, u)) == Shift(r, |u|)
      && (r.Some? ==> Drop(Insert(ts, k, u), r.value.1 + |u|) == Drop(ts, r.value.1))
  {
    hide ParseHttp, InsideHttp, Insert, UnknownTokens, Known, Balanced;
    var u := UnknownTokens(x);
    UnknownDirectiveUnnoticed(env, path, level, ts[1..], k - 1, x);
    InsertTail(ts, k, u, 1);
    if ParseHttp(env, path, ts[1..]).Some? { DropInserted(ts, k, u, 1 + ParseHttp(env, path, ts[1..]).value.1); }
  }

  /** The first directive is an http block with a boundary at position k. */
  ghost predicate FirstHttp(env: Env, path: string, level: Level, ts: seq<Token>, k: nat) {
    && |ts| >= 2 && ts[0] == Word("http") && ts[1] == OpenBrace && 2 <= k <= |ts|
    && InsideHttp(env, path, level, ts[2..], k - 2)
  }

  lemma InsideFileIs(env: Env, path: string, level: Level, ts: seq<Token>, k: nat)
    requires InsideFile(env, path, level, ts, k)
    ensures ts != [] && ts[0].Word? && k <= |ts|
    ensures !FirstHttp(env, path, level, ts, k) ==>
      && RootStep(env, path, ts[0].text, ts[1..]).Some?
      && var n := RootStep(env, path, ts[0].text, ts[1..]).value.1;
      1 + n < k && InsideFile(env, path, level, ts[1..][n..], k - 1 - n)
  {
    hide RootStep, InsideHttp;
  }

  lemma InsertInFirstHttp(env: Env, path: string, depth: nat, level: Level, ts: seq<Token>, k: nat, x: Unknown,
                          cfg: Config)
    requires depth <= MAX_INCLUDE_DEPTH && Balanced(x) && !Known(level, x.name) && FirstHttp(env, path, level, ts, k)
    ensures RootLoop(env, path, depth, Insert(ts, k, UnknownTokens(x)), cfg) == RootLoop(env, path, depth, ts, cfg)
  {
    hide RootLoop, RootStep, RootFrom, Insert, UnknownTokens, Known, Balanced, InsideHttp;
    var u, after := UnknownTokens(x), ts[1..];
    InsertTail(ts, k, u, 1);
    InsertedIsLonger(ts, k, u);
    assert after[1..] == ts[2..];
    HttpStepInsertion(env, path, level, after, k - 1, x);
    RootUnfold(env, path, depth, ts, cfg);
    RootUnfold(env, path, depth, Insert(ts, k, u), cfg);
    RootFromShifted(env, path, depth, RootStep(env, path, "http", after), after, Insert(after, k - 1, u), |u|, cfg);
  }

  /** The insertion is behind the first directive and one token more. */
  lemma InsertFurtherBehind(env: Env, path: string, depth: nat, ts: seq<Token>, k: nat, u: seq<Token>, cfg: Config,
                            edit: Edit, n: nat, merged: Option<Config>)
    requires depth <= MAX_INCLUDE_DEPTH && ts != [] && ts[0].Word? && 1 + n < k <= |ts|
    requires RootStep(env, path, ts[0].text, ts[1..]) == Some((edit, n))
    requires merged == Merged(env, path, depth, edit, cfg)
    requires merged.Some? ==>
      RootLoop(env, path, depth, Insert(ts[1..][n..], k - 1 - n, u), merged.value)
      == RootLoop(env, path, depth, ts[1..][n..], merged.value)
    ensures RootLoop(env, path, depth, Insert(ts, k, u), cfg) == RootLoop(env, path, depth, ts, cfg)
  {
    hide RootLoop, RootStep, RootFrom, Merged, Insert;
    var after, more := ts[1..], Insert(ts[1..], k - 1, u);
    InsertTail(ts, k, u, 1);
    InsertedIsLonger(ts, k, u);
    RootUnfold(env, path, depth, ts, cfg);
    RootUnfold(env, path, depth, Insert(ts, k, u), cfg);
    InsertAgrees(after, k - 1, u, n + 1);
    RootStepLocal(env, path, ts[0].text, after, more);
    InsertTail(after, k - 1, u, n);
    RootFromSame(env, path, depth, edit, n, after, more, cfg);
  }

  /** An unknown directive inserted at any boundary of an http, server or location block of a file
      leaves the configuration that the root loop returns, error or not, the same. */
  lemma {:induction false} UnknownDirectiveSameConfig(env: Env, path: string, depth: nat, level: Level, ts: seq<Token>,
                                                      k: nat, x: Unknown, cfg: Config)
    requires depth <= MAX_INCLUDE_DEPTH && Balanced(x) && !Known(level, x.name)
    requires InsideFile(env, path, level, ts, k)
    ensures RootLoop(env, path, depth, Insert(ts, k, UnknownTokens(x)), cfg) == RootLoop(env, path, depth, ts, cfg)
    decreases |ts|
  {
    hide RootLoop, RootStep, RootFrom, Merged, Insert, UnknownTokens, Known, Balanced;
    hide InsideHttp, InsideFile, FirstHttp;
    InsideFileIs(env, path, level, ts, k);
    if FirstHttp(env, path, level, ts, k) {
      InsertInFirstHttp(env, path, depth, level, ts, k, x, cfg);
    } else {
      var (edit, n) := RootStep(env, path, ts[0].text, ts[1..]).value;
      var merged := Merged(env, path, depth, edit, cfg);
      if merged.Some? {
        UnknownDirectiveSameConfig(env, path, depth, level, ts[1..][n..], k - 1 - n, x, merged.value);
      }
      InsertFurtherBehind(env, path, depth, ts, k, UnknownTokens(x), cfg, edit, n, merged);
    }
  }

  lemma RootFromShifted(env: Env, path: string, depth: nat, r: Option<(Edit, nat)>, a: seq<Token>, b: seq<Token>,
                        m: nat, cfg: Config)
    requires depth <= MAX_INCLUDE_DEPTH && (r.Some? ==> Drop(b, r.value.1 + m) == Drop(a, r.value.1))
    ensures RootFrom(env, path, depth, Shift(r, m), b, cfg) == RootFrom(env, path, depth, r, a, cfg)
  {
    hide RootLoop, Merged, Drop;
  }

  lemma RootFromSame(env: Env, path: string, depth: nat, edit: Edit, n: nat, a: seq<Token>, b: seq<Token>, cfg: Config)
    requires depth <= MAX_INCLUDE_DEPTH && n <= |a| && n <= |b|
    requires var merged := Merged(env, path, depth, edit, cfg);
      merged.Some? ==>
        RootLoop(env, path, depth, b[n..], merged.value) == RootLoop(env, path, depth, a[n..], merged.value)
    ensures RootFrom(env, path, depth, Some((edit, n)), b, cfg) == RootFrom(env, path, depth, Some((edit, n)), a, cfg)
  {
    hide RootLoop, Merged;
  }

  // ---- How far the cursor goes ----

  ghost predicate Reaches<S(!new)>(d: Directive<S>, c: nat) {
    forall name, ts, s :: ReachesAt(d, c, name, ts, s)
  }

  ghost predicate ReachesAt<S(!new)>(d: Directive<S>, c: nat, name: string, ts: seq<Token>, s: S) {
    d(name, ts, s).Some? ==> d(name, ts, s).value.1 <= |ts| + c
  }

  lemma {:induction false} BlockReaches<S(!new)>(d: Directive<S>, c: nat, ts: seq<Token>, s: S)
    requires Reaches(d, c) && Block(d, ts, s).Some?
    ensures Block(d, ts, s).value.1 <= |ts| + c + 1
    decreases |ts|
  {
    if ts != [] && ts[0].Word? {
      assert ReachesAt(d, c, ts[0].text, ts[1..], s);
      var (next, n) := d(ts[0].text, ts[1..], s).value;
      BlockReaches(d, c, Drop(ts[1..], n), next);
      if n > |ts[1..]| { assert Drop(ts[1..], n) == []; assert Block(d, [], next) == Some((next, 1)); }
    }
  }

  lemma LocationReaches(env: Env, ts: seq<Token>)
    requires ParseLocation(env, ts).Some?
    ensures ParseLocation(env, ts).value.1 <= |ts| + 1
  {
    hide LocationStep, ParsePattern;
    forall name, ts', s ensures ReachesAt(LocationDirective(env), 0, name, ts', s) {
      LocationStepReaches(env, name, ts', s);
    }
    var k := Leading(ts);
    var pattern := ParsePattern(env, Texts(ts[..k])).value;
    hide Leading, LocationDirective, Block, Texts;
    BlockReaches(LocationDirective(env), 0, ts[k + 1..], NewLocation(pattern));
  }

  lemma LocationStepReaches(env: Env, name: string, ts: seq<Token>, s: Location)
    ensures ReachesAt(LocationDirective(env), 0, name, ts, s)
  {
    hide LocationShape, ApplyLocation;
  }

  lemma ServerStepReaches(env: Env, name: string, ts: seq<Token>, s: Server)
    ensures ReachesAt(ServerDirective(env), 1, name, ts, s)
  {
    hide ServerShape, ApplyServer, ParseLocation;
    if name == "location" && ParseLocation(env, ts).Some? { LocationReaches(env, ts); }
  }

  lemma ServerReaches(env: Env, ts: seq<Token>)
    requires ParseServer(env, ts).Some?
    ensures ParseServer(env, ts).value.1 <= |ts| + 2
  {
    hide ServerStep;
    forall name, ts', s ensures ReachesAt(ServerDirective(env), 1, name, ts', s) {
      ServerStepReaches(env, name, ts', s);
    }
    hide ServerDirective, Block;
    BlockReaches(ServerDirective(env), 1, ts, NEW_SERVER);
  }

  lemma {:induction false} GroupReaches(ts: seq<Token>, g: UpstreamGroup)
    requires GroupBlock(ts, g).Some?
    ensures GroupBlock(ts, g).value.1 <= |ts| + 1
    decreases |ts|
  {
    if ts != [] && ts[0] != CloseBrace {
      if ts[0].Word? {
        var (next, n) := GroupStep(ts[0].text, ts[1..], g).value;
        assert n <= |ts[1..]| by { hide GroupShape, ApplyGroup; }
        hide GroupStep;
        GroupReaches(ts[1..][n..], next);
      } else {
        GroupReaches(ts[1..], g);
      }
    }
  }

  lemma HttpStepReaches(env: Env, path: string, name: string, ts: seq<Token>, s: Http)
    ensures ReachesAt(HttpDirective(env, path), 2, name, ts, s)
  {
    hide HttpShape, ApplyHttp, GroupBlock, ParseServer, IncludeServers;
    if name == "upstream" && ParseGroup(ts).Some? {
      GroupReaches(ts[2..], NewGroup(ts[0].text));
    } else if name == "server" && |ts| >= 1 && ParseServer(env, ts[1..]).Some? {
      ServerReaches(env, ts[1..]);
    }
  }

  /** An http block ends at most three positions past the last token: one for each block that the end
      of the text closed. */
  lemma HttpReaches(env: Env, path: string, ts: seq<Token>)
    requires ParseHttp(env, path, ts).Some?
    ensures ParseHttp(env, path, ts).value.1 <= |ts| + 3
  {
    hide HttpStep;
    forall name, ts', s ensures ReachesAt(HttpDirective(env, path), 2, name, ts', s) {
      HttpStepReaches(env, path, name, ts', s);
    }
    hide HttpDirective, Block;
    BlockReaches(HttpDirective(env, path), 2, ts, DEFAULT_HTTP);
  }

  // ---- Limits on blocks ----

  lemma {:induction false} BlockKeeps<S(!new)>(d: Directive<S>, good: S -> bool, ts: seq<Token>, s: S)
    requires forall name, ts', s' {:trigger d(name, ts', s')} | good(s') && d(name, ts', s').Some? ::
      good(d(name, ts', s').value.0)
    requires good(s) && Block(d, ts, s).Some?
    ensures good(Block(d, ts, s).value.0)
    decreases |ts|
  {
    if ts != [] && ts[0].Word? {
      var (next, n) := d(ts[0].text, ts[1..], s).value;
      BlockKeeps(d, good, Drop(ts[1..], n), next);
    }
  }

  predicate ServerInLimits(srv: Server) { |srv.locations| <= MAX_LOCATION_BLOCKS }

  predicate HttpInLimits(h: Http) {
    |h.servers| <= MAX_SERVER_BLOCKS && forall srv | srv in h.servers :: ServerInLimits(srv)
  }

  lemma ApplyServerKeepsLocations(env: Env, name: string, args: seq<string>, srv: Server)
    requires ServerShape(name).Some? && Takes(ServerShape(name).value, args)
    requires ApplyServer(env, name, args, srv).Some?
    ensures ApplyServer(env, name, args, srv).value.locations == srv.locations
  {
    hide ParseListen, ParseServerNames, SafeRoot, ParseAccessLog, Size, ParseLimitReq, ParseRewrite, Codes;
    hide ParseReturn, Number, Unquoted, TlsOf;
  }

  lemma ServerStepKeepsLimit(env: Env, name: string, ts: seq<Token>, srv: Server)
    requires ServerInLimits(srv) && ServerStep(env, name, ts, srv).Some?
    ensures ServerInLimits(ServerStep(env, name, ts, srv).value.0)
  {
    hide ServerShape, ApplyServer, ParseLocation, SkipUnknown, Args;
    if name != "location" && ServerShape(name).Some? {
      var args := Args(ServerShape(name).value, ts).value.0;
      ApplyServerKeepsLocations(env, name, args, srv);
    }
  }

  /** No server block holds more than 1024 locations. */
  lemma ServerHoldsLimit(env: Env, ts: seq<Token>)
    requires ParseServer(env, ts).Some?
    ensures ServerInLimits(ParseServer(env, ts).value.0)
  {
    hide ServerStep;
    forall name, ts', s | ServerInLimits(s) && ServerDirective(env)(name, ts', s).Some?
      ensures ServerInLimits(ServerDirective(env)(name, ts', s).value.0)
    {
      ServerStepKeepsLimit(env, name, ts', s);
    }
    hide Block;
    BlockKeeps(ServerDirective(env), ServerInLimits, ts, NEW_SERVER);
  }

  predicate ServersInLimits(servers: seq<Server>) {
    |servers| <= MAX_SERVER_BLOCKS && forall srv | srv in servers :: ServerInLimits(srv)
  }

  lemma {:induction false} ScanKeepsLimit(env: Env, ts: seq<Token>, servers: seq<Server>)
    requires ServersInLimits(servers) && ScanServers(env, ts, servers).Some?
    ensures ServersInLimits(ScanServers(env, ts, servers).value)
    decreases |ts|
  {
    hide ParseServer;
    if ts != [] {
      if ts[0] == Word("server") && |ts| >= 2 && ts[1] == OpenBrace {
        if |servers| < MAX_SERVER_BLOCKS {
          ServerHoldsLimit(env, ts[2..]);
          var (srv, n) := ParseServer(env, ts[2..]).value;
          ScanKeepsLimit(env, Drop(ts[2..], n), servers + [srv]);
        } else {
          ScanKeepsLimit(env, ts[2..], servers);
        }
      } else {
        ScanKeepsLimit(env, ts[1..], servers);
      }
    }
  }

  lemma {:induction false} IncludeKeepsLimit(env: Env, files: seq<string>, servers: seq<Server>)
    requires ServersInLimits(servers) && IncludeServers(env, files, servers).Some?
    ensures ServersInLimits(IncludeServers(env, files, servers).value)
    decreases |files|
  {
    hide ScanServers, Tokens;
    if files != [] {
      var ts := Tokens(env.read(files[0]).value);
      ScanKeepsLimit(env, ts, servers);
      IncludeKeepsLimit(env, files[1..], ScanServers(env, ts, servers).value);
    }
  }

  lemma ApplyHttpKeepsServers(env: Env, name: string, args: seq<string>, h: Http)
    requires HttpShape(name).Some? && Takes(HttpShape(name).value, args) && ApplyHttp(env, name, args, h).Some?
    ensures ApplyHttp(env, name, args, h).value.servers == h.servers
  {
  }

  lemma HttpStepKeepsLimit(env: Env, path: string, name: string, ts: seq<Token>, h: Http)
    requires HttpInLimits(h) && HttpStep(env, path, name, ts, h).Some?
    ensures HttpInLimits(HttpStep(env, path, name, ts, h).value.0)
  {
    hide HttpShape, ApplyHttp, ParseServer, ParseGroup, IncludeServers, SkipUnknown, Args;
    if name == "server" {
      ServerHoldsLimit(env, ts[1..]);
    } else if name == "include" {
      IncludeKeepsLimit(env, env.expand(path, Args(OneWord, ts).value.0[0]), h.servers);
    } else if name != "upstream" && HttpShape(name).Some? {
      ApplyHttpKeepsServers(env, name, Args(HttpShape(name).value, ts).value.0, h);
    }
  }

  /** No http block holds more than 256 servers, its includes counted, nor a server of it more than
      1024 locations. */
  lemma HttpHoldsLimits(env: Env, path: string, ts: seq<Token>)
    requires ParseHttp(env, path, ts).Some?
    ensures HttpInLimits(ParseHttp(env, path, ts).value.0)
  {
    hide HttpStep;
    forall name, ts', s | HttpInLimits(s) && HttpDirective(env, path)(name, ts', s).Some?
      ensures HttpInLimits(HttpDirective(env, path)(name, ts', s).value.0)
    {
      HttpStepKeepsLimit(env, path, name, ts', s);
    }
    hide Block;
    BlockKeeps(HttpDirective(env, path), HttpInLimits, ts, DEFAULT_HTTP);
  }

  // ---- Includes ----

  /** The include patterns that the root loop of a file reaches. */
  function IncludesIn(env: Env, path: string, ts: seq<Token>): seq<string>
    decreases |ts|
  {
    if ts == [] || !ts[0].Word? then []
    else
      match RootStep(env, path, ts[0].text, ts[1..])
      case None => []
      case Some((edit, n)) =>
        (if edit.Include? then [edit.pattern] else []) + IncludesIn(env, path, Drop(ts[1..], n))
  }

  lemma {:induction false} EveryFileLoads(env: Env, files: seq<string>, depth: nat, cfg: Config)
    requires depth < MAX_INCLUDE_DEPTH && IncludeFiles(env, files, depth, cfg).Some?
    ensures forall f | f in files :: LoadAt(env, f, depth + 1).Some?
    decreases |files|
  {
    hide LoadAt;
    if files != [] {
      var sub := LoadAt(env, files[0], depth + 1).value;
      EveryFileLoads(env, files[1..], depth,
        cfg.(http := cfg.http.(servers := cfg.http.servers + sub.http.servers)));
      assert forall f | f in files :: f == files[0] || f in files[1..];
    }
  }

  /** A file loads only if everything its root loop includes loads, one level deeper. */
  lemma {:induction false} IncludesLoad(env: Env, path: string, depth: nat, ts: seq<Token>, cfg: Config)
    requires depth <= MAX_INCLUDE_DEPTH && RootLoop(env, path, depth, ts, cfg).Some?
    ensures forall p | p in IncludesIn(env, path, ts) ::
      depth < MAX_INCLUDE_DEPTH && forall f | f in env.expand(path, p) :: LoadAt(env, f, depth + 1).Some?
    decreases |ts|
  {
    hide RootStep, LoadAt, IncludeFiles;
    if ts != [] && ts[0].Word? {
      RootUnfold(env, path, depth, ts, cfg);
      var (edit, n) := RootStep(env, path, ts[0].text, ts[1..]).value;
      var next := Merged(env, path, depth, edit, cfg).value;
      if edit.Include? { EveryFileLoads(env, env.expand(path, edit.pattern), depth, cfg); }
      IncludesLoad(env, path, depth, Drop(ts[1..], n), next);
    }
  }

  /** A chain of n includes starts at the file. */
  ghost predicate Chain(env: Env, path: string, n: nat)
    decreases n
  {
    n == 0 || (env.read(path).Some?
      && exists p, f ::
        p in IncludesIn(env, path, Tokens(env.read(path).value)) && f in env.expand(path, p) && Chain(env, f, n - 1))
  }

  /** Where loading succeeds, no include chain passes the depth limit: a longer one is an error. */
  lemma {:induction false} ChainsEndInTime(env: Env, path: string, depth: nat, n: nat)
    requires depth <= MAX_INCLUDE_DEPTH && LoadAt(env, path, depth).Some? && Chain(env, path, n)
    ensures depth + n <= MAX_INCLUDE_DEPTH
    decreases n
  {
    hide Tokens, IncludesIn, RootLoop;
    if n > 0 {
      var ts := Tokens(env.read(path).value);
      var p, f :| p in IncludesIn(env, path, ts) && f in env.expand(path, p) && Chain(env, f, n - 1);
      IncludesLoad(env, path, depth, ts, DEFAULT_CONFIG);
      ChainsEndInTime(env, f, depth + 1, n - 1);
    }
  }

  /** Files each of which includes a file of the group again. */
  ghost predicate Cyclic(env: Env, files: set<string>) {
    forall g {:trigger IncludesOneOf(env, files, g)} | g in files :: IncludesOneOf(env, files, g)
  }

  ghost predicate IncludesOneOf(env: Env, files: set<string>, g: string) {
    env.read(g).Some?
      && exists p, f :: p in IncludesIn(env, g, Tokens(env.read(g).value)) && f in env.expand(g, p) && f in files
  }

  lemma NoChain(env: Env, path: string)
    ensures Chain(env, path, 0)
  {
  }

  lemma CycleGoesOn(env: Env, files: set<string>, path: string, n: nat) returns (f: string)
    requires Cyclic(env, files) && path in files && n > 0
    ensures f in files && (Chain(env, f, n - 1) ==> Chain(env, path, n))
  {
    hide Tokens, IncludesIn;
    assert IncludesOneOf(env, files, path);
    var p, g :| p in IncludesIn(env, path, Tokens(env.read(path).value)) && g in env.expand(path, p) && g in files;
    f := g;
  }

  lemma {:induction false} CycleHasChains(env: Env, files: set<string>, path: string, n: nat)
    requires Cyclic(env, files) && path in files
    ensures Chain(env, path, n)
    decreases n
  {
    hide *;
    if n == 0 {
      NoChain(env, path);
    } else {
      var f := CycleGoesOn(env, files, path, n);
      CycleHasChains(env, files, f, n - 1);
    }
  }

  /** Loading ends for every graph of files; for a cyclic one it ends in an error. */
  lemma CyclesAreErrors(env: Env, files: set<string>, path: string, depth: nat)
    requires Cyclic(env, files) && path in files && depth <= MAX_INCLUDE_DEPTH
    ensures LoadAt(env, path, depth) == None
  {
    hide LoadAt;
    if LoadAt(env, path, depth).Some? {
      CycleHasChains(env, files, path, MAX_INCLUDE_DEPTH + 1);
      ChainsEndInTime(env, path, depth, MAX_INCLUDE_DEPTH + 1);
    }
  }
}

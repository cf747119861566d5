/** Unknown directives do not change meaning, at any depth: in a location, in a server, or in an http
    block, up to the configuration that loading returns. */
module ConfigInsertion {
  import opened Common
  import opened Tokenizer
  import opened ConfigTypes
  import opened ConfigGrammar
  import opened ConfigLocality

  // ---- Unknown directives are skipped exactly ----

  lemma {:induction false} SkipsInside(ts: seq<Token>, inner: nat, depth: nat)
    requires Nest(ts, inner).Some? && depth > inner
    ensures SkipBlock(ts, depth) == |ts|
    decreases |ts|
  {
    if ts != [] {
      match ts[0]
      case OpenBrace => SkipsInside(ts[1..], inner + 1, depth + 1);
      case CloseBrace => SkipsInside(ts[1..], inner - 1, depth - 1);
      case _ => SkipsInside(ts[1..], inner, depth);
    }
  }

  lemma {:induction false} NestAppend(a: seq<Token>, b: seq<Token>, depth: nat)
    requires Nest(a, depth).Some?
    ensures Nest(a + b, depth) == Nest(b, Nest(a, depth).value)
    decreases |a|
  {
    if a == [] {
      assert a + b == b;
    } else {
      assert (a + b)[1..] == a[1..] + b;
      match a[0]
      case OpenBrace => NestAppend(a[1..], b, depth + 1);
      case CloseBrace => NestAppend(a[1..], b, depth - 1);
      case _ => NestAppend(a[1..], b, depth);
    }
  }

  lemma {:induction false} NestWords(args: seq<string>, depth: nat)
    ensures Nest(Words(args), depth) == Some(depth)
  {
    if args != [] {
      assert Words(args)[1..] == Words(args[1..]);
      NestWords(args[1..], depth);
    }
  }

  /** A depth can be added under a text that never falls below zero. */
  lemma {:induction false} NestDeeper(ts: seq<Token>, depth: nat, more: nat)
    requires Nest(ts, depth).Some?
    ensures Nest(ts, depth + more) == Some(Nest(ts, depth).value + more)
    decreases |ts|
  {
    if ts != [] {
      match ts[0]
      case OpenBrace => NestDeeper(ts[1..], depth + 1, more);
      case CloseBrace => NestDeeper(ts[1..], depth - 1, more);
      case _ => NestDeeper(ts[1..], depth, more);
    }
  }

  lemma UnknownIsBalanced(x: Unknown)
    requires Balanced(x)
    ensures Nest(UnknownTokens(x), 0) == Some(0)
  {
    var words := Words([x.name] + x.args);
    assert words == [Word(x.name)] + Words(x.args);
    NestWords([x.name] + x.args, 0);
    NestAppend(words, Ending(x), 0);
    match x.body {
      case None => assert Ending(x)[1..] == [];
      case Some(b) =>
        NestDeeper(b, 0, 1);
        NestAppend(b, [CloseBrace], 1);
        assert Ending(x)[0] == OpenBrace && Ending(x)[1..] == b + [CloseBrace];
        assert [CloseBrace][1..] == [];
    }
  }

  lemma {:induction false} SkipBlockAbsorbs(ts: seq<Token>, depth: nat, u: seq<Token>)
    requires Nest(u, 0).Some?
    ensures var n := SkipBlock(ts, depth);
      var m := SkipBlock(Insert(ts, n, u), depth);
      m == n || m == n + |u|
    decreases |ts|
  {
    var n := SkipBlock(ts, depth);
    if depth > 0 {
      if ts == [] {
        assert Insert(ts, 0, u) == u;
        SkipsInside(u, 0, depth);
      } else {
        InsertTail(ts, n, u, 1);
        SkipBlockAbsorbs(ts[1..], match ts[0] case OpenBrace => depth + 1 case CloseBrace => depth - 1
          case _ => depth, u);
        hide Insert;
      }
    }
  }

  lemma SkipUnknownAtSemicolon(ts: seq<Token>, u: seq<Token>)
    requires Leading(ts) < |ts| && ts[Leading(ts)] == Semicolon
    ensures SkipUnknown(Insert(ts, SkipUnknown(ts), u)) == SkipUnknown(ts)
  {
    hide Leading, SkipBlock, Insert;
    var k := Leading(ts);
    assert SkipUnknown(ts) == k + 1;
    InsertAgrees(ts, k + 1, u, k + 1);
    LeadingLocal(ts, Insert(ts, k + 1, u));
    AgreeAt(ts, Insert(ts, k + 1, u), k + 1, k);
  }

  lemma SkipUnknownAtBlock(ts: seq<Token>, u: seq<Token>)
    requires Leading(ts) < |ts| && ts[Leading(ts)] == OpenBrace && Nest(u, 0).Some?
    ensures var n := SkipUnknown(ts);
      var m := SkipUnknown(Insert(ts, n, u));
      m == n || m == n + |u|
  {
    hide Leading, SkipBlock, Insert, Nest;
    var k, n := Leading(ts), SkipUnknown(ts);
    var more := Insert(ts, n, u);
    InsertAgrees(ts, n, u, k + 1);
    LeadingLocal(ts, more);
    AgreeAt(ts, more, k + 1, k);
    InsertTail(ts, n, u, k + 1);
    SkipBlockAbsorbs(ts[k + 1..], 1, u);
  }

  lemma SkipUnknownUnfinished(ts: seq<Token>, x: Unknown)
    requires Balanced(x) && SkipUnknown(ts) == Leading(ts)
    ensures SkipUnknown(Insert(ts, Leading(ts), UnknownTokens(x))) == Leading(ts) + |UnknownTokens(x)|
  {
    hide Leading, SkipUnknown, Balanced, Ending;
    var k := Leading(ts);
    var all := Texts(ts[..k]) + [x.name] + x.args;
    var y := x.(args := all);
    BalancedArgs(x, all);
    SkipsUnknown(y, ts[k..]);
    WordsOfTexts(ts[..k], x.name, x.args);
    Regroup(ts[..k], [Word(x.name)], Words(x.args), Ending(x), ts[k..]);
  }

  lemma BalancedArgs(x: Unknown, args: seq<string>)
    ensures Balanced(x.(args := args)) == Balanced(x) && Ending(x.(args := args)) == Ending(x)
  {
  }

  lemma WordsOfTexts(ts: seq<Token>, name: string, args: seq<string>)
    requires forall i | 0 <= i < |ts| :: ts[i].Word?
    ensures Words(Texts(ts) + [name] + args) == ts + [Word(name)] + Words(args)
  {
  }

  lemma Regroup(a: seq<Token>, b: seq<Token>, c: seq<Token>, d: seq<Token>, e: seq<Token>)
    ensures a + (b + c + d) + e == (a + b + c) + (d + e)
  {
  }

  /** Behind an unknown directive that ended, the insertion is on its own; an unfinished one takes the
      inserted words, and their semicolon or block, as its own. */
  lemma SkipUnknownAbsorbs(ts: seq<Token>, x: Unknown)
    requires Balanced(x)
    ensures var n, u := SkipUnknown(ts), UnknownTokens(x);
      var m := SkipUnknown(Insert(ts, n, u));
      m == n || m == n + |u|
  {
    var k, u := Leading(ts), UnknownTokens(x);
    if k < |ts| && ts[k] == Semicolon {
      SkipUnknownAtSemicolon(ts, u);
    } else if k < |ts| && ts[k] == OpenBrace {
      UnknownIsBalanced(x);
      SkipUnknownAtBlock(ts, u);
    } else {
      SkipUnknownUnfinished(ts, x);
    }
    hide Leading, SkipBlock, Insert, UnknownTokens;
  }

  // ---- The conditions of the insertion theorem, block by block ----

  lemma SimpleEnds<S>(shape: Shape, ts: seq<Token>, u: seq<Token>, apply: seq<string> --> Option<S>)
    requires forall args | Takes(shape, args) :: apply.requires(args)
    requires Simple(shape, ts, apply).Some? && Simple(shape, ts, apply).value.1 <= |ts|
    ensures Simple(shape, Insert(ts, Simple(shape, ts, apply).value.1, u), apply) == Simple(shape, ts, apply)
  {
    var n := Simple(shape, ts, apply).value.1;
    InsertAgrees(ts, n, u, n);
    hide Simple, Insert;
    SimpleLocal(shape, ts, Insert(ts, n, u), apply);
  }

  lemma LocationEnds(env: Env, x: Unknown, name: string, ts: seq<Token>, loc: Location)
    requires Balanced(x)
    ensures EndAbsorbsAt(LocationDirective(env), UnknownTokens(x), name, ts, loc)
  {
    hide Simple, SkipUnknown, Insert, LocationShape, ApplyLocation;
    var u := UnknownTokens(x);
    var r := LocationStep(env, name, ts, loc);
    if r.Some? && r.value.1 <= |ts| {
      match LocationShape(name) {
        case None => SkipUnknownAbsorbs(ts, x);
        case Some(shape) =>
          SimpleEnds(shape, ts, u, args requires Takes(shape, args) => ApplyLocation(env, name, args, loc));
      }
    }
  }

  lemma ServerEnds(env: Env, x: Unknown, name: string, ts: seq<Token>, srv: Server)
    requires Balanced(x)
    ensures EndAbsorbsAt(ServerDirective(env), UnknownTokens(x), name, ts, srv)
  {
    hide Simple, SkipUnknown, Insert, ServerShape, ApplyServer, ParseLocation;
    var u := UnknownTokens(x);
    var r := ServerStep(env, name, ts, srv);
    if r.Some? && r.value.1 <= |ts| {
      var n := r.value.1;
      InsertAgrees(ts, n, u, n);
      if name == "location" {
        ParseLocationLocal(env, ts, Insert(ts, n, u));
      } else {
        match ServerShape(name) {
          case None => SkipUnknownAbsorbs(ts, x);
          case Some(shape) =>
            SimpleEnds(shape, ts, u, args requires Takes(shape, args) => ApplyServer(env, name, args, srv));
        }
      }
    }
  }

  lemma HttpEnds(env: Env, path: string, x: Unknown, name: string, ts: seq<Token>, h: Http)
    requires Balanced(x)
    ensures EndAbsorbsAt(HttpDirective(env, path), UnknownTokens(x), name, ts, h)
  {
    hide Simple, SkipUnknown, Insert, HttpShape, ApplyHttp, ParseGroup, ParseServer, IncludeServers, Args;
    var u := UnknownTokens(x);
    var r := HttpStep(env, path, name, ts, h);
    if r.Some? && r.value.1 <= |ts| {
      var n := r.value.1;
      InsertAgrees(ts, n, u, n);
      if name == "upstream" {
        ParseGroupLocal(ts, Insert(ts, n, u));
      } else if name == "server" {
        ParseServerLocal(env, ts, Insert(ts, n, u));
      } else if name == "include" {
        ArgsLocal(OneWord, ts, Insert(ts, n, u));
      } else {
        match HttpShape(name) {
          case None => SkipUnknownAbsorbs(ts, x);
          case Some(shape) =>
            SimpleEnds(shape, ts, u, args requires Takes(shape, args) => ApplyHttp(env, name, args, h));
        }
      }
    }
  }

  datatype Level = InHttp | InServer | InLocation

  predicate Known(level: Level, name: string) {
    match level
    case InHttp => HttpShape(name).Some? || name in ["upstream", "server", "include"]
    case InServer => ServerShape(name).Some? || name == "location"
    case InLocation => LocationShape(name).Some?
  }

  lemma LocationAbsorbs(env: Env, x: Unknown)
    requires Balanced(x) && !Known(InLocation, x.name)
    ensures EndAbsorbs(LocationDirective(env), UnknownTokens(x)) && Skips(LocationDirective(env), UnknownTokens(x))
  {
    var d, u := LocationDirective(env), UnknownTokens(x);
    forall name, ts, s ensures EndAbsorbsAt(d, u, name, ts, s) { LocationEnds(env, x, name, ts, s); }
    forall rest, s ensures SkipsAt(d, u, rest, s) { SkipsUnknown(x, rest); }
    hide SkipUnknown;
  }

  lemma ServerAbsorbs(env: Env, x: Unknown)
    requires Balanced(x) && !Known(InServer, x.name)
    ensures EndAbsorbs(ServerDirective(env), UnknownTokens(x)) && Skips(ServerDirective(env), UnknownTokens(x))
  {
    var d, u := ServerDirective(env), UnknownTokens(x);
    forall name, ts, s ensures EndAbsorbsAt(d, u, name, ts, s) { ServerEnds(env, x, name, ts, s); }
    forall rest, s ensures SkipsAt(d, u, rest, s) { SkipsUnknown(x, rest); }
    hide SkipUnknown;
  }

  lemma HttpAbsorbs(env: Env, path: string, x: Unknown)
    requires Balanced(x) && !Known(InHttp, x.name)
    ensures EndAbsorbs(HttpDirective(env, path), UnknownTokens(x)) && Skips(HttpDirective(env, path), UnknownTokens(x))
  {
    var d, u := HttpDirective(env, path), UnknownTokens(x);
    forall name, ts, s ensures EndAbsorbsAt(d, u, name, ts, s) { HttpEnds(env, path, x, name, ts, s); }
    forall rest, s ensures SkipsAt(d, u, rest, s) { SkipsUnknown(x, rest); }
    hide SkipUnknown;
  }

  function Nowhere<S>(): (string, seq<Token>, S, nat) -> bool { (name: string, ts: seq<Token>, s: S, k: nat) => false }

  lemma NothingInside<S(!new)>(d: Directive<S>, u: seq<Token>)
    ensures InnerAbsorbs(d, Nowhere<S>(), u)
  {
  }

  // ---- Nesting ----

  /** Position k, counted after the word `location`, is a directive boundary of that location. */
  ghost predicate InsideLocation(env: Env, ts: seq<Token>, k: nat) {
    var j := Leading(ts);
    && j < |ts| && ts[j] == OpenBrace && j + 1 <= k <= |ts|
    && ParsePattern(env, Texts(ts[..j])).Some?
    && Boundary(LocationDirective(env), true, Nowhere(), ts[j + 1..],
      NewLocation(ParsePattern(env, Texts(ts[..j])).value), k - j - 1)
  }

  ghost function LocationsOf(env: Env): (string, seq<Token>, Server, nat) -> bool {
    (name: string, ts: seq<Token>, srv: Server, k: nat) => name == "location" && InsideLocation(env, ts, k)
  }

  lemma InsertInBody(env: Env, pattern: Pattern, taken: nat, ts: seq<Token>, k: nat, x: Unknown)
    requires Balanced(x) && !Known(InLocation, x.name) && k <= |ts|
    requires Boundary(LocationDirective(env), true, Nowhere(), ts, NewLocation(pattern), k)
    ensures LocationBody(env, pattern, taken, Insert(ts, k, UnknownTokens(x)))
         == Shift(LocationBody(env, pattern, taken, ts), |UnknownTokens(x)|)
    ensures var r := LocationBody(env, pattern, taken, ts); r.Some? ==> taken + k <= r.value.1
  {
    var d, u, s := LocationDirective(env), UnknownTokens(x), NewLocation(pattern);
    LocationIsLocal(env);
    LocationAbsorbs(env, x);
    NothingInside(d, u);
    hide Boundary, Block, Local, InnerAbsorbs, EndAbsorbs, Skips, Insert, LocationDirective, Nowhere, CloseLocation;
    InsertionUnnoticed(d, true, Nowhere(), ts, s, k, u);
    if Block(d, ts, s).Some? { BoundaryInside(d, true, Nowhere(), ts, s, k, u); }
    ClosedShift(taken, Block(d, ts, s), |u|);
    hide Shift, Closed, UnknownTokens;
  }

  lemma ClosedShift(taken: nat, r: Option<(Location, nat)>, n: nat)
    ensures Closed(taken, Shift(r, n)) == Shift(Closed(taken, r), n)
    ensures r.Some? <==> Closed(taken, r).Some?
    ensures r.Some? ==> Closed(taken, r).value.1 == taken + r.value.1
  {
    hide CloseLocation;
  }

  lemma ParseLocationIs(env: Env, ts: seq<Token>, j: nat)
    requires Leading(ts) == j && j < |ts| && ts[j] == OpenBrace && ParsePattern(env, Texts(ts[..j])).Some?
    ensures ParseLocation(env, ts) == LocationBody(env, ParsePattern(env, Texts(ts[..j])).value, j + 1, ts[j + 1..])
  {
    hide Leading, ParsePattern, LocationBody;
  }

  lemma InsertInLocation(env: Env, ts: seq<Token>, k: nat, x: Unknown)
    requires Balanced(x) && !Known(InLocation, x.name) && InsideLocation(env, ts, k)
    ensures ParseLocation(env, Insert(ts, k, UnknownTokens(x))) == Shift(ParseLocation(env, ts), |UnknownTokens(x)|)
    ensures ParseLocation(env, ts).Some? ==> k <= ParseLocation(env, ts).value.1
  {
    hide LocationBody, Leading, Boundary, ParsePattern, Insert, ParseLocation, Shift, UnknownTokens, Known, Balanced;
    var u, j := UnknownTokens(x), Leading(ts);
    var more := Insert(ts, k, u);
    var pattern := ParsePattern(env, Texts(ts[..j])).value;
    InsertAgrees(ts, k, u, j + 1);
    LeadingLocal(ts, more);
    AgreeAt(ts, more, j + 1, j);
    InsertTail(ts, k, u, j + 1);
    ParseLocationIs(env, ts, j);
    ParseLocationIs(env, more, j);
    InsertInBody(env, pattern, j + 1, ts[j + 1..], k - j - 1, x);
  }

  lemma LocationsAbsorbAt(env: Env, x: Unknown, name: string, ts: seq<Token>, s: Server, k: nat)
    requires Balanced(x) && !Known(InLocation, x.name)
    ensures InnerAbsorbsAt(ServerDirective(env), LocationsOf(env), UnknownTokens(x), name, ts, s, k)
  {
    hide InsideLocation, ParseLocation, Insert, UnknownTokens, Known, Balanced;
    if LocationsOf(env)(name, ts, s, k) {
      InsideLocationFits(env, ts, k);
      InsertInLocation(env, ts, k, x);
    }
  }

  lemma InsideLocationFits(env: Env, ts: seq<Token>, k: nat)
    requires InsideLocation(env, ts, k)
    ensures k <= |ts|
  {
    hide Boundary;
  }

  lemma LocationsAbsorb(env: Env, x: Unknown)
    requires Balanced(x) && !Known(InLocation, x.name)
    ensures InnerAbsorbs(ServerDirective(env), LocationsOf(env), UnknownTokens(x))
  {
    var d, inner, u := ServerDirective(env), LocationsOf(env), UnknownTokens(x);
    forall name, ts, s, k: nat ensures InnerAbsorbsAt(d, inner, u, name, ts, s, k) {
      LocationsAbsorbAt(env, x, name, ts, s, k);
    }
    hide InnerAbsorbsAt;
  }

  ghost function ServerInner(env: Env, level: Level): (string, seq<Token>, Server, nat) -> bool {
    if level == InLocation then LocationsOf(env) else Nowhere()
  }

  /** Position k, counted after `server {`, is a directive boundary of the server block (`InServer`)
      or of one of its locations (`InLocation`). */
  ghost predicate InsideServer(env: Env, level: Level, ts: seq<Token>, k: nat) {
    && level != InHttp && k <= |ts|
    && Boundary(ServerDirective(env), level == InServer, ServerInner(env, level), ts, NEW_SERVER, k)
  }

  lemma InsertInServer(env: Env, level: Level, ts: seq<Token>, k: nat, x: Unknown)
    requires Balanced(x) && !Known(level, x.name) && InsideServer(env, level, ts, k)
    ensures ParseServer(env, Insert(ts, k, UnknownTokens(x))) == Shift(ParseServer(env, ts), |UnknownTokens(x)|)
    ensures ParseServer(env, ts).Some? ==> k <= ParseServer(env, ts).value.1
  {
    var d, u, inner := ServerDirective(env), UnknownTokens(x), ServerInner(env, level);
    ServerIsLocal(env);
    if level == InServer { ServerAbsorbs(env, x); NothingInside(d, u); } else { LocationsAbsorb(env, x); }
    hide Boundary, Block, Local, InnerAbsorbs, EndAbsorbs, Skips, Insert, ServerDirective, Nowhere, LocationsOf;
    InsertionUnnoticed(d, level == InServer, inner, ts, NEW_SERVER, k, u);
    if Block(d, ts, NEW_SERVER).Some? { BoundaryInside(d, level == InServer, inner, ts, NEW_SERVER, k, u); }
  }

  ghost function ServersOf(env: Env, level: Level): (string, seq<Token>, Http, nat) -> bool {
    (name: string, ts: seq<Token>, h: Http, k: nat) =>
      name == "server" && ts != [] && ts[0] == OpenBrace && k >= 1 && InsideServer(env, level, ts[1..], k - 1)
  }

  lemma ServersAbsorbAt(env: Env, path: string, level: Level, x: Unknown, name: string, ts: seq<Token>, s: Http, k: nat)
    requires Balanced(x) && !Known(level, x.name) && level != InHttp
    ensures InnerAbsorbsAt(HttpDirective(env, path), ServersOf(env, level), UnknownTokens(x), name, ts, s, k)
  {
    hide InsideServer, ParseServer, Insert, UnknownTokens, Known, Balanced, ParseGroup, HttpShape;
    if ServersOf(env, level)(name, ts, s, k) {
      InsideServerFits(env, level, ts[1..], k - 1);
      InsertInServer(env, level, ts[1..], k - 1, x);
      InsertTail(ts, k, UnknownTokens(x), 1);
    }
  }

  lemma InsideServerFits(env: Env, level: Level, ts: seq<Token>, k: nat)
    requires InsideServer(env, level, ts, k)
    ensures k <= |ts|
  {
    hide Boundary;
  }

  lemma ServersAbsorb(env: Env, path: string, level: Level, x: Unknown)
    requires Balanced(x) && !Known(level, x.name) && level != InHttp
    ensures InnerAbsorbs(HttpDirective(env, path), ServersOf(env, level), UnknownTokens(x))
  {
    var d, inner, u := HttpDirective(env, path), ServersOf(env, level), UnknownTokens(x);
    forall name, ts, s, k: nat ensures InnerAbsorbsAt(d, inner, u, name, ts, s, k) {
      ServersAbsorbAt(env, path, level, x, name, ts, s, k);
    }
    hide InnerAbsorbsAt;
  }

  /** Position k, counted after `http {`, is a directive boundary at the given level. */
  ghost predicate InsideHttp(env: Env, path: string, level: Level, ts: seq<Token>, k: nat) {
    k <= |ts| && Boundary(HttpDirective(env, path), level == InHttp,
                          if level == InHttp then Nowhere() else ServersOf(env, level), ts, DEFAULT_HTTP, k)
  }

  /** An unknown directive at any boundary of an http block, its servers or their locations leaves the
      parsed block unchanged, and only lengthens what is consumed. */
  lemma UnknownDirectiveUnnoticed(env: Env, path: string, level: Level, ts: seq<Token>, k: nat, x: Unknown)
    requires Balanced(x) && !Known(level, x.name) && InsideHttp(env, path, level, ts, k)
    ensures ParseHttp(env, path, Insert(ts, k, UnknownTokens(x))) == Shift(ParseHttp(env, path, ts), |UnknownTokens(x)|)
    ensures ParseHttp(env, path, ts).Some? ==> k <= ParseHttp(env, path, ts).value.1
  {
    var d, u := HttpDirective(env, path), UnknownTokens(x);
    var inner := if level == InHttp then Nowhere() else ServersOf(env, level);
    HttpIsLocal(env, path);
    if level == InHttp { HttpAbsorbs(env, path, x); NothingInside(d, u); } else { ServersAbsorb(env, path, level, x); }
    hide Boundary, Block, Local, InnerAbsorbs, EndAbsorbs, Skips, Insert, HttpDirective, Nowhere, ServersOf;
    InsertionUnnoticed(d, level == InHttp, inner, ts, DEFAULT_HTTP, k, u);
    if Block(d, ts, DEFAULT_HTTP).Some? { BoundaryInside(d, level == InHttp, inner, ts, DEFAULT_HTTP, k, u); }
  }

  // ---- Included files ----

  /** Position k of an included file is a boundary inside one of the server blocks that its scan takes; once
      the scan has 256 servers it takes nothing more, and every position counts. */
  ghost predicate InsideScan(env: Env, level: Level, ts: seq<Token>, servers: seq<Server>, k: nat)
    decreases |ts|
  {
    || |servers| >= MAX_SERVER_BLOCKS
    || (ts != [] && k <= |ts| &&
        if ts[0] == Word("server") && |ts| >= 2 && ts[1] == OpenBrace then
          k >= 2 &&
          (|| InsideServer(env, level, ts[2..], k - 2)
           || (match ParseServer(env, ts[2..])
               case None => false
               case Some((srv, n)) => 2 + n <= k && InsideScan(env, level, ts[2..][n..], servers + [srv], k - 2 - n)))
        else k >= 1 && InsideScan(env, level, ts[1..], servers, k - 1))
  }

  lemma ScanUnfolds(env: Env, ts: seq<Token>, servers: seq<Server>)
    requires ts != []
    ensures ScanServers(env, ts, servers) ==
      if ts[0] == Word("server") && |ts| >= 2 && ts[1] == OpenBrace && |servers| < MAX_SERVER_BLOCKS then
        match ParseServer(env, ts[2..])
        case None => None
        case Some((srv, n)) => ScanServers(env, Drop(ts[2..], n), servers + [srv])
      else
        ScanServers(env, if ts[0] == Word("server") && |ts| >= 2 && ts[1] == OpenBrace then ts[2..] else ts[1..],
                    servers)
  {
    hide ParseServer;
  }

  lemma {:induction false} FullScan(env: Env, ts: seq<Token>, servers: seq<Server>)
    requires |servers| >= MAX_SERVER_BLOCKS
    ensures ScanServers(env, ts, servers) == Some(servers)
    decreases |ts|
  {
    hide ScanServers;
    if ts == [] {
      EmptyScan(env, servers);
    } else {
      ScanUnfolds(env, ts, servers);
      if |ts| >= 2 { FullScan(env, ts[2..], servers); }
      FullScan(env, ts[1..], servers);
    }
  }

  lemma EmptyScan(env: Env, servers: seq<Server>)
    ensures ScanServers(env, [], servers) == Some(servers)
  {
  }

  /** The insertion in the first server block of the scan. */
  lemma ScanInside(env: Env, level: Level, ts: seq<Token>, servers: seq<Server>, k: nat, x: Unknown)
    requires Balanced(x) && !Known(level, x.name) && |servers| < MAX_SERVER_BLOCKS && |ts| >= 2 && 2 <= k <= |ts|
    requires ts[0] == Word("server") && ts[1] == OpenBrace && InsideServer(env, level, ts[2..], k - 2)
    ensures ScanServers(env, Insert(ts, k, UnknownTokens(x)), servers) == ScanServers(env, ts, servers)
  {
    hide ScanServers, ParseServer, Insert, UnknownTokens, InsideServer, Balanced, Known;
    var u := UnknownTokens(x);
    InsertInServer(env, level, ts[2..], k - 2, x);
    ScanStart(ts, k, u);
    ScanUnfolds(env, ts, servers);
    ScanUnfolds(env, Insert(ts, k, u), servers);
    if ParseServer(env, ts[2..]).Some? { DropInserted(ts[2..], k - 2, u, ParseServer(env, ts[2..]).value.1); }
  }

  lemma ScanStart(ts: seq<Token>, k: nat, u: seq<Token>)
    requires 2 <= k <= |ts|
    ensures var more := Insert(ts, k, u);
      |more| >= 2 && more[0] == ts[0] && more[1] == ts[1] && more[2..] == Insert(ts[2..], k - 2, u)
      && more[1..] == Insert(ts[1..], k - 1, u)
  {
    InsertTail(ts, k, u, 1);
    InsertTail(ts, k, u, 2);
  }

  lemma InsideScanFits(env: Env, level: Level, ts: seq<Token>, servers: seq<Server>, k: nat)
    requires InsideScan(env, level, ts, servers, k) && |servers| < MAX_SERVER_BLOCKS
    ensures ts != [] && 1 <= k <= |ts|
  {
    hide InsideServer, ParseServer;
  }

  /** An unknown directive inside a server block of an included file, or inside one of its locations, leaves
      the servers that the scan of the file adds, or its error, the same. */
  lemma {:induction false} UnknownDirectiveInIncluded(
      env: Env, level: Level, ts: seq<Token>, servers: seq<Server>, k: nat, x: Unknown)
    requires Balanced(x) && !Known(level, x.name) && InsideScan(env, level, ts, servers, k) && k <= |ts|
    ensures ScanServers(env, Insert(ts, k, UnknownTokens(x)), servers) == ScanServers(env, ts, servers)
    decreases |ts|
  {
    hide ScanServers, ParseServer, Insert, UnknownTokens, InsideServer, Balanced, Known;
    var u := UnknownTokens(x);
    if |servers| >= MAX_SERVER_BLOCKS {
      FullScan(env, ts, servers);
      FullScan(env, Insert(ts, k, u), servers);
    } else if ts[0] == Word("server") && |ts| >= 2 && ts[1] == OpenBrace {
      if InsideServer(env, level, ts[2..], k - 2) {
        ScanInside(env, level, ts, servers, k, x);
      } else {
        var (srv, n) := ParseServer(env, ts[2..]).value;
        UnknownDirectiveInIncluded(env, level, ts[2..][n..], servers + [srv], k - 2 - n, x);
        ScanBehind(env, ts, servers, k, u, srv, n);
      }
    } else {
      UnknownDirectiveInIncluded(env, level, ts[1..], servers, k - 1, x);
      InsideScanFits(env, level, ts[1..], servers, k - 1);
      ScanStart(ts, k, u);
      ScanUnfolds(env, ts, servers);
      ScanUnfolds(env, Insert(ts, k, u), servers);
    }
  }

  lemma ScanBehind(env: Env, ts: seq<Token>, servers: seq<Server>, k: nat, u: seq<Token>, srv: Server, n: nat)
    requires |servers| < MAX_SERVER_BLOCKS && |ts| >= 2 && ts[0] == Word("server") && ts[1] == OpenBrace
    requires ParseServer(env, ts[2..]) == Some((srv, n)) && 2 + n <= k <= |ts|
    requires ScanServers(env, Insert(ts[2..][n..], k - 2 - n, u), servers + [srv])
          == ScanServers(env, ts[2..][n..], servers + [srv])
    ensures ScanServers(env, Insert(ts, k, u), servers) == ScanServers(env, ts, servers)
  {
    hide ScanServers, ParseServer, Insert;
    var more := Insert(ts, k, u);
    ScanStart(ts, k, u);
    InsertAgrees(ts[1..], k - 1, u, 1 + n);
    ParseServerLocal(env, ts[1..], more[1..]);
    InsertTail(ts[2..], k - 2, u, n);
    ScanUnfolds(env, ts, servers);
    ScanUnfolds(env, more, servers);
  }

  // ---- Upstream groups ----

  /** The first closing brace, or the end. */
  function FirstClose(ts: seq<Token>): (k: nat)
    ensures k <= |ts| && (k < |ts| ==> ts[k] == CloseBrace) && forall i | 0 <= i < k :: ts[i] != CloseBrace
  {
    if ts == [] || ts[0] == CloseBrace then 0
    else
      assert forall i | 1 <= i < |ts| :: ts[i] == ts[1..][i - 1];
      1 + FirstClose(ts[1..])
  }

  lemma FirstCloseIs(ts: seq<Token>, k: nat)
    requires k <= |ts| && (k < |ts| ==> ts[k] == CloseBrace) && forall i | 0 <= i < k :: ts[i] != CloseBrace
    ensures FirstClose(ts) == k
  {
  }

  /** A directive of a group takes no brace. */
  lemma GroupStepTakes(name: string, ts: seq<Token>, g: UpstreamGroup)
    requires GroupStep(name, ts, g).Some?
    ensures GroupStep(name, ts, g).value.1 <= |ts|
    ensures forall i | 0 <= i < GroupStep(name, ts, g).value.1 :: ts[i] != CloseBrace
  {
    hide GroupShape, ApplyGroup, Takes;
  }

  /** A group ends at the first closing brace, whatever was opened before it. */
  lemma {:induction false} GroupEnd(ts: seq<Token>, g: UpstreamGroup)
    requires GroupBlock(ts, g).Some?
    ensures GroupBlock(ts, g).value.1 == FirstClose(ts) + 1
    decreases |ts|
  {
    hide GroupStep, FirstClose;
    if ts == [] || ts[0] == CloseBrace {
      FirstCloseIs(ts, 0);
    } else {
      var n := if ts[0].Word? then GroupStep(ts[0].text, ts[1..], g).value.1 else 0;
      var next := if ts[0].Word? then GroupStep(ts[0].text, ts[1..], g).value.0 else g;
      if ts[0].Word? { GroupStepTakes(ts[0].text, ts[1..], g); }
      var rest := ts[1..][n..];
      GroupEnd(rest, next);
      forall i | 0 <= i < 1 + n + FirstClose(rest) ensures ts[i] != CloseBrace {
        if i > n { assert ts[i] == rest[i - n - 1]; } else if i > 0 { assert ts[i] == ts[1..][i - 1]; }
      }
      assert FirstClose(rest) < |rest| ==> ts[1 + n + FirstClose(rest)] == rest[FirstClose(rest)];
      FirstCloseIs(ts, 1 + n + FirstClose(rest));
    }
  }

  /** Position k of a group's tokens is a head of its loop. */
  predicate GroupHead(ts: seq<Token>, g: UpstreamGroup, k: nat)
    decreases |ts|
  {
    || k == 0
    || (ts != [] && ts[0] != CloseBrace &&
        if !ts[0].Word? then GroupHead(ts[1..], g, k - 1)
        else
          match GroupStep(ts[0].text, ts[1..], g)
          case None => false
          case Some((next, n)) => n <= |ts[1..]| && 1 + n <= k && GroupHead(ts[1..][n..], next, k - 1 - n))
  }

  lemma {:induction false} HeadsAreInside(ts: seq<Token>, g: UpstreamGroup, k: nat)
    requires GroupHead(ts, g, k) && k <= |ts|
    ensures k <= FirstClose(ts)
    decreases |ts|
  {
    hide GroupStep, FirstClose;
    if k > 0 {
      var n := if ts[0].Word? then GroupStep(ts[0].text, ts[1..], g).value.1 else 0;
      var next := if ts[0].Word? then GroupStep(ts[0].text, ts[1..], g).value.0 else g;
      if ts[0].Word? { GroupStepTakes(ts[0].text, ts[1..], g); }
      var rest := ts[1..][n..];
      HeadsAreInside(rest, next, k - 1 - n);
      forall i | 0 <= i < k && i < |ts| ensures ts[i] != CloseBrace {
        if i > n { assert ts[i] == rest[i - n - 1]; } else if i > 0 { assert ts[i] == ts[1..][i - 1]; }
      }
    }
  }

  lemma GroupShapeIs(name: string, ts: seq<Token>, g: UpstreamGroup)
    requires GroupShape(name).None?
    ensures var k := Leading(ts);
      GroupStep(name, ts, g) == Some((g, if k < |ts| && ts[k] == Semicolon then k + 1 else k))
  {
    hide GroupShape, Leading;
  }

  /** The tokens of an unknown directive without a block. */
  lemma SimpleTokens(x: Unknown)
    requires x.body.None?
    ensures var u := UnknownTokens(x);
      u[|u| - 1] == Semicolon && u[0] == Word(x.name) && forall i | 0 <= i < |u| - 1 :: u[i].Word?
  {
  }

  /** A directive of the group that ended right where `u` now stands. */
  lemma GroupStepEnds(name: string, ts: seq<Token>, g: UpstreamGroup, x: Unknown)
    requires x.body.None? && GroupStep(name, ts, g).Some? && GroupStep(name, ts, g).value.1 <= |ts|
    ensures var r, u := GroupStep(name, ts, g), UnknownTokens(x);
      var more := GroupStep(name, Insert(ts, r.value.1, u), g);
      more == r || more == Shift(r, |u|)
  {
    var n, u, k := GroupStep(name, ts, g).value.1, UnknownTokens(x), Leading(ts);
    var more := Insert(ts, n, u);
    SimpleTokens(x);
    hide UnknownTokens;
    match GroupShape(name) {
      case Some(shape) =>
        SimpleEnds(shape, ts, u, args requires Takes(shape, args) => ApplyGroup(name, args, g));
        hide Simple, GroupShape, ApplyGroup;
      case None =>
        GroupShapeIs(name, ts, g);
        GroupShapeIs(name, more, g);
        hide GroupStep, GroupShape, Leading;
        if n == k + 1 {
          InsertAgrees(ts, n, u, n);
          LeadingLocal(ts, more);
        } else {
          LeadingIs(more, k + |u| - 1);
        }
    }
  }

  lemma GroupUnfolds(ts: seq<Token>, g: UpstreamGroup)
    requires ts != [] && ts[0].Word?
    ensures GroupBlock(ts, g) == match GroupStep(ts[0].text, ts[1..], g)
      case None => None
      case Some((next, n)) => After(1 + n, GroupBlock(Drop(ts[1..], n), next))
  {
    hide GroupStep;
  }

  lemma SimpleAtGroupHead(ts: seq<Token>, g: UpstreamGroup, x: Unknown)
    requires x.body.None? && GroupShape(x.name).None?
    ensures GroupBlock(Insert(ts, 0, UnknownTokens(x)), g) == Shift(GroupBlock(ts, g), |UnknownTokens(x)|)
  {
    hide UnknownTokens, GroupBlock, GroupStep, Leading, GroupShape;
    var u := UnknownTokens(x);
    SimpleTokens(x);
    var more := u + ts;
    assert Insert(ts, 0, u) == more;
    CutAppend(u, ts);
    assert more[1..][|u| - 1..] == more[|u|..];
    LeadingIs(more[1..], |u| - 2);
    GroupShapeIs(x.name, more[1..], g);
    GroupUnfolds(more, g);
  }

  /** The step before the insertion, and how the loop goes on. */
  lemma GroupGoesOn(ts: seq<Token>, g: UpstreamGroup, k: nat, x: Unknown, next: UpstreamGroup, n: nat)
    requires x.body.None? && ts != [] && ts[0].Word? && GroupStep(ts[0].text, ts[1..], g) == Some((next, n))
    requires 1 + n <= k <= |ts|
    requires var rest, u := ts[1..][n..], UnknownTokens(x);
      GroupBlock(Insert(rest, k - 1 - n, u), next) == Shift(GroupBlock(rest, next), |u|)
    ensures GroupBlock(Insert(ts, k, UnknownTokens(x)), g) == Shift(GroupBlock(ts, g), |UnknownTokens(x)|)
  {
    hide GroupBlock, GroupStep, UnknownTokens, Insert;
    var u, after := UnknownTokens(x), ts[1..];
    var more := Insert(after, k - 1, u);
    if n < k - 1 {
      InsertAgrees(after, k - 1, u, n + 1);
      GroupStepLocal(ts[0].text, after, more, g);
    } else {
      GroupStepEnds(ts[0].text, after, g, x);
    }
    InsertTail(ts, k, u, 1);
    InsertTail(after, k - 1, u, n);
    DropInserted(after, k - 1, u, k - 1);
    InsertedIsLonger(ts, k, u);
    GroupUnfolds(ts, g);
    GroupUnfolds(Insert(ts, k, u), g);
  }

  lemma {:induction false} SimpleInGroup(ts: seq<Token>, g: UpstreamGroup, k: nat, x: Unknown)
    requires x.body.None? && GroupShape(x.name).None? && GroupHead(ts, g, k) && k <= |ts|
    ensures GroupBlock(Insert(ts, k, UnknownTokens(x)), g) == Shift(GroupBlock(ts, g), |UnknownTokens(x)|)
    decreases |ts|
  {
    hide GroupStep, UnknownTokens, Insert, GroupShape;
    var u := UnknownTokens(x);
    if k == 0 {
      SimpleAtGroupHead(ts, g, x);
    } else if !ts[0].Word? {
      SimpleInGroup(ts[1..], g, k - 1, x);
      InsertTail(ts, k, u, 1);
    } else {
      var (next, n) := GroupStep(ts[0].text, ts[1..], g).value;
      SimpleInGroup(ts[1..][n..], next, k - 1 - n, x);
      hide GroupBlock;
      GroupGoesOn(ts, g, k, x, next, n);
    }
  }

  lemma EndsInBrace(x: Unknown)
    requires x.body.Some?
    ensures UnknownTokens(x)[|UnknownTokens(x)| - 1] == CloseBrace
  {
    assert UnknownTokens(x)[|UnknownTokens(x)| - 1] == Ending(x)[|Ending(x)| - 1];
  }

  /** In an upstream group an unknown directive goes unnoticed exactly when it has no block: the group
      takes the directives of the block as its own, and ends at the brace that closes it. */
  lemma UnknownDirectiveInGroup(ts: seq<Token>, g: UpstreamGroup, k: nat, x: Unknown)
    requires GroupShape(x.name).None? && GroupHead(ts, g, k) && k <= |ts| && GroupBlock(ts, g).Some?
    ensures GroupBlock(Insert(ts, k, UnknownTokens(x)), g) == Shift(GroupBlock(ts, g), |UnknownTokens(x)|)
      <==> x.body.None?
  {
    hide GroupBlock, GroupShape, GroupHead;
    var u := UnknownTokens(x);
    if x.body.None? {
      SimpleInGroup(ts, g, k, x);
    } else {
      var more := Insert(ts, k, u);
      EndsInBrace(x);
      assert more[k + |u| - 1] == u[|u| - 1];
      hide UnknownTokens, Insert;
      HeadsAreInside(ts, g, k);
      GroupEnd(ts, g);
      if GroupBlock(more, g).Some? { GroupEnd(more, g); }
    }
  }
}

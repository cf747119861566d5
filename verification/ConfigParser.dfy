/** The recursive-descent parser with its moving cursor. Each method agrees with the grammar on the
    tokens behind its cursor: what lies before does not matter, and the cursor moves by exactly the
    tokens consumed. */
module ConfigParser {
  import opened Common
  import opened Tokenizer
  import opened ConfigTypes
  import opened ConfigGrammar
  import opened ConfigLocality
  import opened ConfigLoading
  import opened ConfigEvents

  /** A parse that started at `pos` and left the cursor at `next`. */
  ghost predicate Parsed<S>(expected: Option<(S, nat)>, r: Option<S>, pos: nat, next: nat) {
    match expected case None => r.None? case Some((s, n)) => r == Some(s) && next == pos + n
  }

  lemma TokensAhead(tokens: seq<Token>, pos: nat)
    ensures pos < |tokens| ==> Drop(tokens, pos) != [] && Drop(tokens, pos)[0] == tokens[pos]
    ensures pos >= |tokens| ==> Drop(tokens, pos) == []
    ensures pos < |tokens| ==> Drop(tokens, pos)[1..] == Drop(tokens, pos + 1)
  {
  }

  lemma TextsGrow(ts: seq<Token>, k: nat)
    requires k < |ts| && ts[k].Word? && forall i | 0 <= i < k :: ts[i].Word?
    ensures Texts(ts[..k + 1]) == Texts(ts[..k]) + [ts[k].text]
  {
  }

  method CollectArgs(tokens: seq<Token>, pos: nat) returns (args: seq<string>, next: nat)
    ensures var ts := Drop(tokens, pos);
      next == pos + Leading(ts) && args == Texts(ts[..Leading(ts)])
  {
    ghost var ts := Drop(tokens, pos);
    args, next := [], pos;
    assert Texts(ts[..0]) == [];
    hide Leading, Texts;
    while next < |tokens| && tokens[next].Word?
      invariant pos <= next && (next <= |tokens| || next == pos)
      invariant Drop(tokens, next) == Drop(ts, next - pos) && next - pos <= |ts|
      invariant forall i | 0 <= i < next - pos :: ts[i].Word?
      invariant args == Texts(ts[..next - pos])
    {
      assert ts[next - pos] == tokens[next];
      TextsGrow(ts, next - pos);
      args := args + [tokens[next].text];
      next := next + 1;
    }
    assert next - pos < |ts| ==> ts[next - pos] == tokens[next];
    LeadingIs(ts, next - pos);
  }

  /** The arguments of a simple directive and its semicolon. */
  method ReadArgs(shape: Shape, tokens: seq<Token>, pos: nat) returns (r: Option<seq<string>>, next: nat)
    ensures Parsed(Args(shape, Drop(tokens, pos)), r, pos, next)
  {
    var args;
    args, next := CollectArgs(tokens, pos);
    ghost var ts := Drop(tokens, pos);
    assert next < |tokens| ==> ts[next - pos] == tokens[next];
    hide Leading;
    if next < |tokens| && tokens[next] == Semicolon && Takes(shape, args) {
      r, next := Some(args), next + 1;
    } else {
      r := None;
    }
  }

  method SkipOpenBlock(tokens: seq<Token>, pos: nat) returns (next: nat)
    ensures next == pos + SkipBlock(Drop(tokens, pos), 1)
  {
    next := pos;
    var depth: nat := 1;
    while next < |tokens| && depth > 0
      invariant pos <= next
      invariant (next - pos) + SkipBlock(Drop(tokens, next), depth) == SkipBlock(Drop(tokens, pos), 1)
      decreases |tokens| - next
    {
      TokensAhead(tokens, next);
      match tokens[next] {
        case OpenBrace => depth := depth + 1;
        case CloseBrace => depth := depth - 1;
        case _ =>
      }
      next := next + 1;
    }
    TokensAhead(tokens, next);
  }

  method SkipDirective(tokens: seq<Token>, pos: nat) returns (next: nat)
    ensures next == pos + SkipUnknown(Drop(tokens, pos))
  {
    var args;
    args, next := CollectArgs(tokens, pos);
    ghost var ts := Drop(tokens, pos);
    assert next < |tokens| ==> ts[next - pos] == tokens[next];
    hide Leading, SkipBlock;
    if next < |tokens| && tokens[next] == Semicolon {
      next := next + 1;
    } else if next < |tokens| && tokens[next] == OpenBrace {
      assert Drop(tokens, next + 1) == ts[next - pos + 1..];
      next := SkipOpenBlock(tokens, next + 1);
    }
  }

  /** The loop invariant of a block: the grammar's result from the start is what has been consumed
      and then the grammar's result from the cursor. */
  ghost predicate Progress<S>(d: Directive<S>, tokens: seq<Token>, start: nat, init: S, pos: nat, s: S) {
    start <= pos && Block(d, Drop(tokens, start), init) == After(pos - start, Block(d, Drop(tokens, pos), s))
  }

  lemma ProgressStarts<S>(d: Directive<S>, tokens: seq<Token>, start: nat, init: S)
    ensures Progress(d, tokens, start, init, start, init)
  {
    hide Block;
  }

  lemma ProgressEnds<S>(d: Directive<S>, tokens: seq<Token>, start: nat, init: S, pos: nat, s: S)
    requires Progress(d, tokens, start, init, pos, s)
    ensures pos >= |tokens| || tokens[pos] == CloseBrace ==>
      Parsed(Block(d, Drop(tokens, start), init), Some(s), start, pos + 1)
    ensures pos < |tokens| && tokens[pos] != CloseBrace && !tokens[pos].Word?
      ==> Block(d, Drop(tokens, start), init) == None
  {
    TokensAhead(tokens, pos);
  }

  lemma AfterAfter<S>(a: nat, b: nat, r: Option<(S, nat)>)
    ensures After(a, After(b, r)) == After(a + b, r)
  {
  }

  lemma ProgressStep<S>(d: Directive<S>, tokens: seq<Token>, start: nat, init: S, pos: nat, s: S)
    requires Progress(d, tokens, start, init, pos, s) && pos < |tokens| && tokens[pos].Word?
    ensures match d(tokens[pos].text, Drop(tokens, pos + 1), s)
      case None => Block(d, Drop(tokens, start), init) == None
      case Some((next, n)) => Progress(d, tokens, start, init, pos + 1 + n, next)
  {
    TokensAhead(tokens, pos);
    hide Block, Drop;
    BlockStep(d, Drop(tokens, pos), s);
    var r := d(tokens[pos].text, Drop(tokens, pos + 1), s);
    if r.Some? {
      DropDrop(tokens, pos + 1, r.value.1);
      AfterAfter(pos - start, 1 + r.value.1, Block(d, Drop(tokens, pos + 1 + r.value.1), r.value.0));
    }
  }

  /** The outcome of a whole block, from the invariant, at each of the loop's exits and turns. */
  ghost predicate BlockParsed<S>(d: Directive<S>, tokens: seq<Token>, start: nat, init: S, r: Option<S>, next: nat) {
    Parsed(Block(d, Drop(tokens, start), init), r, start, next)
  }

  lemma BlockCloses<S>(d: Directive<S>, tokens: seq<Token>, start: nat, init: S, pos: nat, s: S)
    requires Progress(d, tokens, start, init, pos, s) && (pos >= |tokens| || tokens[pos] == CloseBrace)
    ensures BlockParsed(d, tokens, start, init, Some(s), pos + 1)
  {
    hide Block, Progress;
    ProgressEnds(d, tokens, start, init, pos, s);
  }

  lemma BlockFails<S>(d: Directive<S>, tokens: seq<Token>, start: nat, init: S, pos: nat, s: S, next: nat)
    requires Progress(d, tokens, start, init, pos, s) && pos < |tokens| && tokens[pos] != CloseBrace
    requires tokens[pos].Word? ==> d(tokens[pos].text, Drop(tokens, pos + 1), s) == None
    ensures BlockParsed(d, tokens, start, init, None, next)
  {
    hide Block, Progress;
    ProgressEnds(d, tokens, start, init, pos, s);
    if tokens[pos].Word? { ProgressStep(d, tokens, start, init, pos, s); }
  }

  lemma BlockGoesOn<S>(d: Directive<S>, tokens: seq<Token>, start: nat, init: S, pos: nat, s: S, next: nat, s': S)
    requires Progress(d, tokens, start, init, pos, s) && pos < |tokens| && tokens[pos].Word?
    requires Parsed(d(tokens[pos].text, Drop(tokens, pos + 1), s), Some(s'), pos + 1, next)
    ensures Progress(d, tokens, start, init, next, s') && |Drop(tokens, next)| < |Drop(tokens, pos)|
  {
    hide Block, Progress;
    ProgressStep(d, tokens, start, init, pos, s);
  }

  method LocationDirectiveAt(env: Env, tokens: seq<Token>, pos: nat, name: string, loc: Location)
    returns (r: Option<Location>, next: nat)
    ensures Parsed(LocationDirective(env)(name, Drop(tokens, pos), loc), r, pos, next)
  {
    hide LocationShape, ApplyLocation, SkipUnknown, Args, Drop;
    match LocationShape(name) {
      case None =>
        next := SkipDirective(tokens, pos);
        r := Some(loc);
      case Some(shape) =>
        var args;
        args, next := ReadArgs(shape, tokens, pos);
        r := if args.None? then None else ApplyLocation(env, name, args.value, loc);
    }
  }

  method LocationBlockAt(env: Env, pattern: Pattern, tokens: seq<Token>, start: nat)
    returns (r: Option<Location>, next: nat)
    ensures BlockParsed(LocationDirective(env), tokens, start, NewLocation(pattern), r, next)
  {
    hide Block, Progress, LocationDirective, Drop, BlockParsed, Parsed;
    ghost var d, init := LocationDirective(env), NewLocation(pattern);
    var loc := NewLocation(pattern);
    next := start;
    ProgressStarts(d, tokens, start, init);
    while next < |tokens| && tokens[next] != CloseBrace
      invariant Progress(d, tokens, start, init, next, loc)
      decreases |Drop(tokens, next)|
    {
      ghost var at, before := next, loc;
      if !tokens[next].Word? { BlockFails(d, tokens, start, init, at, before, next); return None, next; }
      var parsed;
      parsed, next := LocationDirectiveAt(env, tokens, next + 1, tokens[next].text, loc);
      if parsed.None? {
        FailedStep(d, tokens, at, before, parsed, next);
        BlockFails(d, tokens, start, init, at, before, next);
        return None, next;
      }
      loc := parsed.value;
      BlockGoesOn(d, tokens, start, init, at, before, next, loc);
    }
    BlockCloses(d, tokens, start, init, next, loc);
    r, next := Some(loc), next + 1;
  }

  lemma FailedStep<S>(d: Directive<S>, tokens: seq<Token>, pos: nat, s: S, r: Option<S>, next: nat)
    requires pos < |tokens| && tokens[pos].Word? && r.None?
    requires Parsed(d(tokens[pos].text, Drop(tokens, pos + 1), s), r, pos + 1, next)
    ensures d(tokens[pos].text, Drop(tokens, pos + 1), s) == None
  {
  }

  lemma HeaderThenBlock(env: Env, tokens: seq<Token>, pos: nat, open: nat, pattern: Option<Pattern>,
                        r: Option<Location>, next: nat)
    requires open == pos + Leading(Drop(tokens, pos)) && open < |tokens| && tokens[open] == OpenBrace
    requires pattern == ParsePattern(env, Texts(Drop(tokens, pos)[..open - pos]))
    requires pattern.Some? && BlockParsed(LocationDirective(env), tokens, open + 1, NewLocation(pattern.value), r, next)
    ensures Parsed(ParseLocation(env, Drop(tokens, pos)),
                   if r.Some? then Some(CloseLocation(r.value)) else None, pos, next)
  {
    var ts := Drop(tokens, pos);
    assert ts[open - pos] == tokens[open] && ts[open - pos + 1..] == Drop(tokens, open + 1);
    hide Leading, ParsePattern, Block, LocationDirective, CloseLocation, Texts;
  }

  method ParseLocationAt(env: Env, tokens: seq<Token>, pos: nat) returns (r: Option<Location>, next: nat)
    ensures Parsed(ParseLocation(env, Drop(tokens, pos)), r, pos, next)
  {
    hide Leading, ParsePattern, LocationBody, BlockParsed, CloseLocation;
    var args;
    args, next := CollectArgs(tokens, pos);
    ghost var ts := Drop(tokens, pos);
    assert next < |tokens| ==> ts[next - pos] == tokens[next];
    if next >= |tokens| || tokens[next] != OpenBrace { return None, next; }
    var pattern := ParsePattern(env, args);
    if pattern.None? { return None, next; }
    ghost var open := next;
    r, next := LocationBlockAt(env, pattern.value, tokens, next + 1);
    HeaderThenBlock(env, tokens, pos, open, pattern, r, next);
    r := if r.Some? then Some(CloseLocation(r.value)) else None;
  }

  method ServerDirectiveAt(env: Env, tokens: seq<Token>, pos: nat, name: string, srv: Server, locCount: nat)
    returns (r: Option<Server>, next: nat)
    requires locCount == |srv.locations|
    ensures Parsed(ServerDirective(env)(name, Drop(tokens, pos), srv), r, pos, next)
    ensures r.Some? ==> |r.value.locations| == locCount + (if name == "location" then 1 else 0)
  {
    hide ServerShape, ApplyServer, SkipUnknown, Args, Drop, ParseLocation;
    if name == "location" {
      if locCount >= MAX_LOCATION_BLOCKS { return None, pos; }
      var loc;
      loc, next := ParseLocationAt(env, tokens, pos);
      r := if loc.None? then None else Some(srv.(locations := srv.locations + [loc.value]));
    } else {
      match ServerShape(name) {
        case None =>
          next := SkipDirective(tokens, pos);
          r := Some(srv);
        case Some(shape) =>
          var args;
          args, next := ReadArgs(shape, tokens, pos);
          r := if args.None? then None else ApplyServer(env, name, args.value, srv);
          if r.Some? { ApplyServerKeepsLocations(env, name, args.value, srv); }
      }
    }
  }

  /** The block of a server; it agrees with the grammar, holds the limit on locations, and passes the
      end of the tokens by at most two. */
  method ParseServerAt(env: Env, tokens: seq<Token>, pos: nat) returns (r: Option<Server>, next: nat)
    ensures Parsed(ParseServer(env, Drop(tokens, pos)), r, pos, next)
    ensures r.Some? ==> ServerInLimits(r.value) && next <= pos + |Drop(tokens, pos)| + 2
  {
    hide Block, Progress, ServerDirective, Drop, BlockParsed, Parsed;
    ghost var d := ServerDirective(env);
    var srv := NEW_SERVER;
    var locCount: nat := 0;
    next := pos;
    ProgressStarts(d, tokens, pos, NEW_SERVER);
    while next < |tokens| && tokens[next] != CloseBrace
      invariant Progress(d, tokens, pos, NEW_SERVER, next, srv) && locCount == |srv.locations|
      decreases |Drop(tokens, next)|
    {
      ghost var at, before := next, srv;
      if !tokens[next].Word? {
        BlockFails(d, tokens, pos, NEW_SERVER, at, before, next);
        ServerOutcome(env, tokens, pos, None, next);
        return None, next;
      }
      var name := tokens[next].text;
      var parsed;
      parsed, next := ServerDirectiveAt(env, tokens, next + 1, name, srv, locCount);
      if parsed.None? {
        FailedStep(d, tokens, at, before, parsed, next);
        BlockFails(d, tokens, pos, NEW_SERVER, at, before, next);
        ServerOutcome(env, tokens, pos, None, next);
        return None, next;
      }
      srv := parsed.value;
      if name == "location" { locCount := locCount + 1; }
      BlockGoesOn(d, tokens, pos, NEW_SERVER, at, before, next, srv);
    }
    BlockCloses(d, tokens, pos, NEW_SERVER, next, srv);
    r, next := Some(srv), next + 1;
    ServerOutcome(env, tokens, pos, r, next);
  }

  lemma ServerOutcome(env: Env, tokens: seq<Token>, pos: nat, r: Option<Server>, next: nat)
    requires BlockParsed(ServerDirective(env), tokens, pos, NEW_SERVER, r, next)
    ensures Parsed(ParseServer(env, Drop(tokens, pos)), r, pos, next)
    ensures r.Some? ==> ServerInLimits(r.value) && next <= pos + |Drop(tokens, pos)| + 2
  {
    hide Block, ServerDirective, Drop;
    if r.Some? {
      ServerHoldsLimit(env, Drop(tokens, pos));
      ServerReaches(env, Drop(tokens, pos));
    }
  }

  // ---- Upstream groups ----

  method GroupDirectiveAt(tokens: seq<Token>, pos: nat, name: string, g: UpstreamGroup)
    returns (r: Option<UpstreamGroup>, next: nat)
    ensures Parsed(GroupStep(name, Drop(tokens, pos), g), r, pos, next)
  {
    hide GroupShape, ApplyGroup, Args, Leading;
    match GroupShape(name) {
      case None =>
        var args;
        args, next := CollectArgs(tokens, pos);
        assert next < |tokens| ==> Drop(tokens, pos)[next - pos] == tokens[next];
        if next < |tokens| && tokens[next] == Semicolon { next := next + 1; }
        r := Some(g);
      case Some(shape) =>
        var args;
        args, next := ReadArgs(shape, tokens, pos);
        r := if args.None? then None else ApplyGroup(name, args.value, g);
    }
  }

  ghost predicate GroupProgress(tokens: seq<Token>, start: nat, init: UpstreamGroup, pos: nat, g: UpstreamGroup) {
    start <= pos && GroupBlock(Drop(tokens, start), init) == After(pos - start, GroupBlock(Drop(tokens, pos), g))
  }

  lemma GroupUnfold(ts: seq<Token>, g: UpstreamGroup)
    ensures ts == [] || ts[0] == CloseBrace ==> GroupBlock(ts, g) == Some((g, 1))
    ensures ts != [] && ts[0] != CloseBrace && !ts[0].Word? ==> GroupBlock(ts, g) == After(1, GroupBlock(ts[1..], g))
    ensures ts != [] && ts[0].Word? ==> GroupBlock(ts, g) == match GroupStep(ts[0].text, ts[1..], g)
      case None => None
      case Some((next, n)) => After(1 + n, GroupBlock(Drop(ts[1..], n), next))
  {
    hide GroupStep;
  }

  lemma GroupGoesOn(tokens: seq<Token>, start: nat, init: UpstreamGroup, pos: nat, g: UpstreamGroup)
    requires GroupProgress(tokens, start, init, pos, g)
    ensures pos >= |tokens| || tokens[pos] == CloseBrace
      ==> Parsed(GroupBlock(Drop(tokens, start), init), Some(g), start, pos + 1)
    ensures pos < |tokens| && tokens[pos] != CloseBrace && !tokens[pos].Word?
      ==> GroupProgress(tokens, start, init, pos + 1, g)
    ensures pos < |tokens| && tokens[pos].Word? ==>
      match GroupStep(tokens[pos].text, Drop(tokens, pos + 1), g)
      case None => GroupBlock(Drop(tokens, start), init) == None
      case Some((next, n)) => GroupProgress(tokens, start, init, pos + 1 + n, next)
  {
    hide GroupStep, Drop;
    TokensAhead(tokens, pos);
    GroupUnfold(Drop(tokens, pos), g);
    hide GroupBlock;
    if pos < |tokens| && tokens[pos] != CloseBrace {
      if tokens[pos].Word? {
        var r := GroupStep(tokens[pos].text, Drop(tokens, pos + 1), g);
        if r.Some? {
          DropDrop(tokens, pos + 1, r.value.1);
          AfterAfter(pos - start, 1 + r.value.1, GroupBlock(Drop(tokens, pos + 1 + r.value.1), r.value.0));
        }
      } else {
        AfterAfter(pos - start, 1, GroupBlock(Drop(tokens, pos + 1), g));
      }
    }
  }

  method GroupBlockAt(tokens: seq<Token>, start: nat, init: UpstreamGroup) returns (r: Option<UpstreamGroup>, next: nat)
    ensures Parsed(GroupBlock(Drop(tokens, start), init), r, start, next)
  {
    hide GroupBlock, GroupStep, GroupProgress, Drop;
    var g := init;
    next := start;
    GroupStarts(tokens, start, init);
    while next < |tokens| && tokens[next] != CloseBrace
      invariant GroupProgress(tokens, start, init, next, g)
      decreases |tokens| - next
    {
      GroupGoesOn(tokens, start, init, next, g);
      if !tokens[next].Word? { next := next + 1; continue; }
      var parsed;
      parsed, next := GroupDirectiveAt(tokens, next + 1, tokens[next].text, g);
      if parsed.None? { return None, next; }
      g := parsed.value;
    }
    GroupGoesOn(tokens, start, init, next, g);
    r, next := Some(g), next + 1;
  }

  method ParseGroupAt(tokens: seq<Token>, pos: nat) returns (r: Option<UpstreamGroup>, next: nat)
    ensures Parsed(ParseGroup(Drop(tokens, pos)), r, pos, next)
  {
    hide GroupBlock;
    next := pos;
    if pos + 1 >= |tokens| || !tokens[pos].Word? || tokens[pos + 1] != OpenBrace { return None, next; }
    assert Drop(tokens, pos)[2..] == Drop(tokens, pos + 2);
    r, next := GroupBlockAt(tokens, pos + 2, NewGroup(tokens[pos].text));
  }

  lemma GroupStarts(tokens: seq<Token>, start: nat, init: UpstreamGroup)
    ensures GroupProgress(tokens, start, init, start, init)
  {
    hide GroupBlock;
  }

  // ---- Includes inside an http block ----

  method ScanServersIn(env: Env, tokens: seq<Token>, servers: seq<Server>) returns (r: Option<seq<Server>>)
    ensures r == ScanServers(env, tokens, servers)
  {
    hide ScanServers, ParseServer;
    var found := servers;
    var sp: nat := 0;
    while sp < |tokens|
      invariant ScanServers(env, tokens, servers) == ScanServers(env, Drop(tokens, sp), found)
      decreases |Drop(tokens, sp)|
    {
      ScanUnfolds(env, Drop(tokens, sp), found);
      TokensAhead(tokens, sp);
      TokensAhead(tokens, sp + 1);
      ghost var at := sp;
      if tokens[sp] == Word("server") {
        sp := sp + 1;
        if sp < |tokens| && tokens[sp] == OpenBrace {
          sp := sp + 1;
          assert Drop(tokens, at)[2..] == Drop(tokens, sp);
          if |found| < MAX_SERVER_BLOCKS {
            var srv;
            srv, sp := ParseServerAt(env, tokens, sp);
            if srv.None? { return None; }
            DropDrop(tokens, at + 2, sp - at - 2);
            found := found + [srv.value];
          }
        }
      } else {
        sp := sp + 1;
      }
    }
    ScanUnfolds(env, Drop(tokens, sp), found);
    r := Some(found);
  }

  lemma ScanUnfolds(env: Env, ts: seq<Token>, servers: seq<Server>)
    ensures ScanServers(env, ts, servers)
         == if ts == [] then Some(servers)
            else if ts[0] != Word("server") || |ts| < 2 || ts[1] != OpenBrace then ScanServers(env, ts[1..], servers)
            else if |servers| >= MAX_SERVER_BLOCKS then ScanServers(env, ts[2..], servers)
            else
              var p := ParseServer(env, ts[2..]);
              if p.None? then None else ScanServers(env, Drop(ts[2..], p.value.1), servers + [p.value.0])
  {
    hide ParseServer;
  }

  method IncludeServersFrom(env: Env, files: seq<string>, servers: seq<Server>) returns (r: Option<seq<Server>>)
    ensures r == IncludeServers(env, files, servers)
  {
    hide ScanServers, Tokens;
    var found := servers;
    assert files[0..] == files;
    for i := 0 to |files|
      invariant IncludeServers(env, files, servers) == IncludeServers(env, files[i..], found)
    {
      assert files[i..][0] == files[i] && files[i..][1..] == files[i + 1..];
      var src := env.read(files[i]);
      if src.None? { return None; }
      var tokens := Tokenize(src.value);
      var more := ScanServersIn(env, tokens, found);
      if more.None? { return None; }
      found := more.value;
    }
    r := Some(found);
  }

  // ---- Http ----

  method HttpDirectiveAt(env: Env, path: string, tokens: seq<Token>, pos: nat, name: string, http: Http)
    returns (r: Option<Http>, next: nat)
    ensures Parsed(HttpDirective(env, path)(name, Drop(tokens, pos), http), r, pos, next)
  {
    hide HttpShape, ApplyHttp, SkipUnknown, Args, ParseServer, ParseGroup, IncludeServers;
    TokensAhead(tokens, pos);
    if name == "upstream" {
      var g;
      g, next := ParseGroupAt(tokens, pos);
      r := if g.None? then None else Some(http.(upstreams := http.upstreams + [g.value]));
    } else if name == "server" {
      if pos >= |tokens| || tokens[pos] != OpenBrace || |http.servers| >= MAX_SERVER_BLOCKS { return None, pos; }
      var srv;
      srv, next := ParseServerAt(env, tokens, pos + 1);
      r := if srv.None? then None else Some(http.(servers := http.servers + [srv.value]));
    } else if name == "include" {
      var args;
      args, next := ReadArgs(OneWord, tokens, pos);
      if args.None? { return None, next; }
      var servers := IncludeServersFrom(env, env.expand(path, args.value[0]), http.servers);
      r := if servers.None? then None else Some(http.(servers := servers.value));
    } else {
      match HttpShape(name) {
        case None =>
          next := SkipDirective(tokens, pos);
          r := Some(http);
        case Some(shape) =>
          var args;
          args, next := ReadArgs(shape, tokens, pos);
          r := if args.None? then None else ApplyHttp(env, name, args.value, http);
      }
    }
  }

  /** The http block; it agrees with the grammar, holds the limits, and passes the end of the tokens
      by at most three. */
  method ParseHttpAt(env: Env, path: string, tokens: seq<Token>, pos: nat) returns (r: Option<Http>, next: nat)
    ensures Parsed(ParseHttp(env, path, Drop(tokens, pos)), r, pos, next)
    ensures r.Some? ==> HttpInLimits(r.value) && next <= pos + |Drop(tokens, pos)| + 3
  {
    hide Block, Progress, HttpDirective, Drop, BlockParsed, Parsed;
    ghost var d := HttpDirective(env, path);
    var http := DEFAULT_HTTP;
    next := pos;
    ProgressStarts(d, tokens, pos, DEFAULT_HTTP);
    while next < |tokens| && tokens[next] != CloseBrace
      invariant Progress(d, tokens, pos, DEFAULT_HTTP, next, http)
      decreases |Drop(tokens, next)|
    {
      ghost var at, before := next, http;
      if !tokens[next].Word? {
        BlockFails(d, tokens, pos, DEFAULT_HTTP, at, before, next);
        HttpOutcome(env, path, tokens, pos, None, next);
        return None, next;
      }
      var parsed;
      parsed, next := HttpDirectiveAt(env, path, tokens, next + 1, tokens[next].text, http);
      if parsed.None? {
        FailedStep(d, tokens, at, before, parsed, next);
        BlockFails(d, tokens, pos, DEFAULT_HTTP, at, before, next);
        HttpOutcome(env, path, tokens, pos, None, next);
        return None, next;
      }
      http := parsed.value;
      BlockGoesOn(d, tokens, pos, DEFAULT_HTTP, at, before, next, http);
    }
    BlockCloses(d, tokens, pos, DEFAULT_HTTP, next, http);
    r, next := Some(http), next + 1;
    HttpOutcome(env, path, tokens, pos, r, next);
  }

  lemma HttpOutcome(env: Env, path: string, tokens: seq<Token>, pos: nat, r: Option<Http>, next: nat)
    requires BlockParsed(HttpDirective(env, path), tokens, pos, DEFAULT_HTTP, r, next)
    ensures Parsed(ParseHttp(env, path, Drop(tokens, pos)), r, pos, next)
    ensures r.Some? ==> HttpInLimits(r.value) && next <= pos + |Drop(tokens, pos)| + 3
  {
    hide Block, HttpDirective, Drop;
    if r.Some? {
      HttpHoldsLimits(env, path, Drop(tokens, pos));
      HttpReaches(env, path, Drop(tokens, pos));
    }
  }

  // ---- Root ----

  /** One directive of the events block. */
  method EventsDirectiveAt(tokens: seq<Token>, pos: nat, c: Option<nat>) returns (ok: bool, c': Option<nat>, next: nat)
    requires pos < |tokens| && tokens[pos].Word?
    ensures !ok ==> EventsBlock(Drop(tokens, pos), c) == None
    ensures ok ==>
      pos < next <= |tokens| && EventsBlock(Drop(tokens, pos), c) == CloseEvents(Drop(tokens, pos), next - pos, c')
  {
    hide EventsBlock, CloseEvents, Args, Leading, Number;
    ghost var ts := Drop(tokens, pos);
    TokensAhead(tokens, pos);
    EventsUnfold(ts, c);
    ok, c' := true, c;
    if tokens[pos] == Word("worker_connections") {
      var args;
      args, next := ReadArgs(OneWord, tokens, pos + 1);
      if args.None? || Number(args.value[0], U64).None? { return false, c, next; }
      c' := Number(args.value[0], U64);
    } else {
      var args;
      args, next := CollectArgs(tokens, pos);
      assert next < |tokens| ==> ts[next - pos] == tokens[next];
      if next < |tokens| && tokens[next] == Semicolon { next := next + 1; }
      LeadingIsPositive(ts);
    }
  }

  lemma CloseUnfold(tokens: seq<Token>, at: nat, next: nat, c: Option<nat>)
    requires at < next <= |tokens| && tokens[at].Word?
    ensures CloseEvents(Drop(tokens, at), next - at, c)
         == if next < |tokens| && tokens[next] == CloseBrace then Some((c, next - at + 1))
            else After(next - at, EventsBlock(Drop(tokens, next), c))
  {
    var ts := Drop(tokens, at);
    assert next < |tokens| ==> ts[next - at] == tokens[next];
    assert ts[next - at..] == Drop(tokens, next);
    hide EventsBlock;
  }

  method EventsAt(tokens: seq<Token>, pos: nat) returns (r: Option<Option<nat>>, next: nat)
    ensures Parsed(EventsBlock(Drop(tokens, pos), None), r, pos, next)
    ensures r.Some? ==> next <= |tokens| || next == pos
  {
    hide EventsBlock, CloseEvents, Drop;
    var connections: Option<nat> := None;
    next := pos;
    while next < |tokens| && tokens[next].Word?
      invariant pos <= next && (next <= |tokens| || next == pos)
      invariant EventsBlock(Drop(tokens, pos), None) == After(next - pos, EventsBlock(Drop(tokens, next), connections))
      decreases |tokens| - next
    {
      ghost var at := next;
      var ok;
      ok, connections, next := EventsDirectiveAt(tokens, next, connections);
      if !ok { return None, next; }
      CloseUnfold(tokens, at, next, connections);
      if next < |tokens| && tokens[next] == CloseBrace { return Some(connections), next + 1; }
    }
    TokensAhead(tokens, next);
    EventsUnfold(Drop(tokens, next), connections);
    r := Some(connections);
  }

  /** One root directive: its edit, and the cursor, at most three past the end. */
  method RootDirectiveAt(env: Env, path: string, tokens: seq<Token>, pos: nat, name: string)
    returns (r: Option<Edit>, next: nat)
    requires pos <= |tokens|
    ensures Parsed(RootStep(env, path, name, Drop(tokens, pos)), r, pos, next)
    ensures r.Some? ==> next <= |tokens| + 3
  {
    hide EventsBlock, ParseHttp, Args, SkipUnknown, IsRootValue, RootValueOk, HttpInLimits;
    TokensAhead(tokens, pos);
    if name == "events" {
      if pos >= |tokens| || tokens[pos] != OpenBrace { return None, pos; }
      var c;
      c, next := EventsAt(tokens, pos + 1);
      r := if c.None? then None else Some(SetConnections(c.value));
    } else if name == "http" {
      if pos >= |tokens| || tokens[pos] != OpenBrace { return None, pos; }
      var h;
      h, next := ParseHttpAt(env, path, tokens, pos + 1);
      r := if h.None? then None else Some(SetHttp(h.value));
    } else if name == "include" {
      var args;
      args, next := ReadArgs(OneWord, tokens, pos);
      r := if args.None? then None else Some(Include(args.value[0]));
    } else if IsRootValue(name) {
      var args;
      args, next := ReadArgs(OneWord, tokens, pos);
      r := if args.None? || !RootValueOk(name, args.value[0]) then None else Some(SetValue(name, args.value));
    } else {
      next := SkipDirective(tokens, pos);
      r := Some(Nothing);
    }
  }

  method ParseRoot(env: Env, path: string, depth: nat, tokens: seq<Token>) returns (r: Option<Config>, pos: nat)
    requires depth <= MAX_INCLUDE_DEPTH
    ensures r == RootLoop(env, path, depth, tokens, DEFAULT_CONFIG)
    ensures r.Some? ==> pos <= |tokens| + 3 && Unread(env, path, tokens) == Some(Drop(tokens, pos))
    ensures r.Some? ==> (pos >= |tokens| <==> NoStrayToken(env, path, tokens))
    decreases MAX_INCLUDE_DEPTH - depth, 2
  {
    hide RootLoop, RootStep, Merged, Drop, Unread, NoStrayToken;
    var cfg := DEFAULT_CONFIG;
    pos := 0;
    assert Drop(tokens, 0) == tokens by { WholeDrop(tokens); }
    while pos < |tokens| && tokens[pos].Word?
      invariant pos <= |tokens| + 3
      invariant RootLoop(env, path, depth, tokens, DEFAULT_CONFIG) == RootLoop(env, path, depth, Drop(tokens, pos), cfg)
      invariant Unread(env, path, tokens) == Unread(env, path, Drop(tokens, pos))
      decreases |Drop(tokens, pos)|
    {
      TokensAhead(tokens, pos);
      RootUnfold(env, path, depth, Drop(tokens, pos), cfg);
      ghost var at := pos;
      var edit;
      edit, pos := RootDirectiveAt(env, path, tokens, pos + 1, tokens[pos].text);
      if edit.None? { return None, pos; }
      DropDrop(tokens, at + 1, pos - at - 1);
      UnreadGoesOn(env, path, Drop(tokens, at), pos - at - 1);
      var merged := MergeEdit(env, path, depth, edit.value, cfg);
      if merged.None? { return None, pos; }
      cfg := merged.value;
      RootShrinks(tokens, at, pos);
    }
    TokensAhead(tokens, pos);
    Stops(env, path, depth, Drop(tokens, pos), cfg);
    UnreadStops(env, path, Drop(tokens, pos));
    ReadsToEnd(env, path, tokens);
    r := Some(cfg);
  }

  lemma WholeDrop(tokens: seq<Token>)
    ensures Drop(tokens, 0) == tokens
  {
  }

  lemma RootShrinks(tokens: seq<Token>, at: nat, pos: nat)
    requires at < |tokens| && at < pos
    ensures |Drop(tokens, pos)| < |Drop(tokens, at)|
  {
  }

  /** An edit of the configuration; for an include, every matched file is parsed one level deeper and
      its servers are appended. */
  method MergeEdit(env: Env, path: string, depth: nat, edit: Edit, cfg: Config) returns (r: Option<Config>)
    requires depth <= MAX_INCLUDE_DEPTH
    ensures r == Merged(env, path, depth, edit, cfg)
    decreases MAX_INCLUDE_DEPTH - depth, 1
  {
    hide RootLoop, Edited, Tokens, IncludeFiles;
    if !edit.Include? { return Some(Edited(env, edit, cfg)); }
    if depth >= MAX_INCLUDE_DEPTH { return None; }
    var files := env.expand(path, edit.pattern);
    var merged := cfg;
    assert files[0..] == files;
    for i := 0 to |files|
      invariant IncludeFiles(env, files, depth, cfg) == IncludeFiles(env, files[i..], depth, merged)
    {
      assert files[i..][0] == files[i] && files[i..][1..] == files[i + 1..];
      IncludeUnfold(env, files[i..], depth, merged);
      var src := env.read(files[i]);
      if src.None? { return None; }
      var tokens := Tokenize(src.value);
      var sub, end := ParseRoot(env, files[i], depth + 1, tokens);
      if sub.None? { return None; }
      merged := merged.(http := merged.http.(servers := merged.http.servers + sub.value.http.servers));
    }
    IncludeUnfold(env, files[|files|..], depth, merged);
    r := Some(merged);
  }

  lemma IncludeUnfold(env: Env, files: seq<string>, depth: nat, cfg: Config)
    requires depth < MAX_INCLUDE_DEPTH
    ensures IncludeFiles(env, files, depth, cfg)
         == if files == [] then Some(cfg)
            else match LoadAt(env, files[0], depth + 1)
              case None => None
              case Some(sub) => IncludeFiles(env, files[1..], depth,
                cfg.(http := cfg.http.(servers := cfg.http.servers + sub.http.servers)))
  {
    hide LoadAt;
  }

  /** `load`: a file and everything it includes. */
  method Load(env: Env, path: string) returns (r: Option<Config>)
    ensures r == LoadAt(env, path, 0)
  {
    hide RootLoop, Tokens;
    var src := env.read(path);
    if src.None? { return None; }
    var tokens := Tokenize(src.value);
    var pos;
    r, pos := ParseRoot(env, path, 0, tokens);
  }
}

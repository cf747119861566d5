/** Configurations spread over files: what the included files hold is added, in order, to what is there. */
module ConfigIncludes {
  import opened Common
  import opened Tokenizer
  import opened ConfigTypes
  import opened ConfigGrammar
  import opened ConfigLocality
  import opened ConfigReading
  import opened ConfigWords
  import opened ConfigPrinter
  import opened ConfigReadBack
  import opened ConfigRoundTrip

  function Joined(lists: seq<seq<Server>>): seq<Server> {
    if lists == [] then [] else lists[0] + Joined(lists[1..])
  }

  // ---- Files of server blocks, included in an http block ----

  lemma OneServerScans(env: Env, st: Style, srv: Server, was: seq<Server>, rest: seq<Token>)
    requires GoodStyle(st) && PortsAreNoAddresses(env) && PrintableServer(env, srv) && |was| < MAX_SERVER_BLOCKS
    ensures ScanServers(env, ServerTokens(st)(srv) + rest, was) == ScanServers(env, rest, was + [srv])
  {
    hide GoodStyle, PortsAreNoAddresses, PrintableServer, ServerTokens, ParseServer;
    var ts := ServerTokens(st)(srv);
    ServerReadsBack(env, st, srv, rest);
    CutAppend(ts, rest);
    assert (ts + rest)[1..][1..] == (ts + rest)[2..];
    DropDrop(ts + rest, 2, |ts| - 2);
  }

  /** The scan of printed server blocks adds them all, as long as there is room. */
  lemma {:induction false} ServersScan(env: Env, st: Style, ss: seq<Server>, was: seq<Server>, rest: seq<Token>)
    requires GoodStyle(st) && PortsAreNoAddresses(env) && PrintableServers(env, ss)
    requires |was| + |ss| <= MAX_SERVER_BLOCKS
    ensures ScanServers(env, Each(ServerTokens(st), ss) + rest, was) == ScanServers(env, rest, was + ss)
    decreases |ss|
  {
    hide GoodStyle, PortsAreNoAddresses, PrintableServer, ServerTokens, ScanServers;
    if ss == [] {
      assert [] + rest == rest && was + [] == was;
    } else {
      var n := |ss| - 1;
      var last := ServerTokens(st)(ss[n]);
      Assoc(Each(ServerTokens(st), ss[..n]), last, rest);
      ServersScan(env, st, ss[..n], was, last + rest);
      OneServerScans(env, st, ss[n], was + ss[..n], rest);
      assert ss == ss[..n] + [ss[n]];
      Assoc(was, ss[..n], [ss[n]]);
    }
  }

  /** A file holds printed server blocks. */
  ghost predicate HoldsServers(env: Env, st: Style, file: string, ss: seq<Server>) {
    match env.read(file) case None => false case Some(text) => Tokens(text) == Each(ServerTokens(st), ss)
  }

  /** What an http block includes is added file by file, and in every file block by block. */
  lemma {:induction false} IncludedServersAreAdded(env: Env, st: Style, files: seq<string>, lists: seq<seq<Server>>,
                                                  was: seq<Server>)
    requires GoodStyle(st) && PortsAreNoAddresses(env) && |files| == |lists|
    requires forall i | 0 <= i < |files| :: HoldsServers(env, st, files[i], lists[i]) && PrintableServers(env, lists[i])
    requires |was| + |Joined(lists)| <= MAX_SERVER_BLOCKS
    ensures IncludeServers(env, files, was) == Some(was + Joined(lists))
    decreases |files|
  {
    hide GoodStyle, PortsAreNoAddresses, PrintableServers, ServerTokens, ScanServers, Tokens;
    if files == [] {
      assert was + [] == was;
    } else {
      assert HoldsServers(env, st, files[0], lists[0]) && PrintableServers(env, lists[0]);
      var ts := Each(ServerTokens(st), lists[0]);
      ServersScan(env, st, lists[0], was, []);
      ScanEnds(env, was + lists[0]);
      assert ts + [] == ts;
      IncludedServersAreAdded(env, st, files[1..], lists[1..], was + lists[0]);
      Assoc(was, lists[0], Joined(lists[1..]));
    }
  }

  lemma ScanEnds(env: Env, servers: seq<Server>)
    ensures ScanServers(env, [], servers) == Some(servers)
  {
  }

  /** An include in an http block, wherever it stands. */
  lemma IncludeLeads(env: Env, path: string, st: Style, pattern: string, lists: seq<seq<Server>>, was: Http)
    requires GoodStyle(st) && PortsAreNoAddresses(env) && |env.expand(path, pattern)| == |lists|
    requires forall i | 0 <= i < |lists| ::
      HoldsServers(env, st, env.expand(path, pattern)[i], lists[i]) && PrintableServers(env, lists[i])
    requires |was.servers| + |Joined(lists)| <= MAX_SERVER_BLOCKS
    ensures Leads(InHttp(env, path), Line("include", [pattern]), was, was.(servers := was.servers + Joined(lists)))
  {
    var next := was.(servers := was.servers + Joined(lists));
    hide GoodStyle, PortsAreNoAddresses, HoldsServers, PrintableServers, Leads, IncludeServers;
    IncludedServersAreAdded(env, st, env.expand(path, pattern), lists, was.servers);
    forall rest: seq<Token>
      ensures HttpDirective(env, path)("include", Words([pattern]) + ([Semicolon] + rest), was) == Some((next, 2))
    {
      ArgsRead(OneWord, [pattern], rest);
      hide Args, Words;
    }
    LineLeads(HttpDirective(env, path), "include", [pattern], was, next);
  }

  // ---- Configurations included at the root ----

  function ServersOfAll(subs: seq<Config>): seq<Server> {
    if subs == [] then [] else subs[0].http.servers + ServersOfAll(subs[1..])
  }

  function WithServers(cfg: Config, more: seq<Server>): Config {
    cfg.(http := cfg.http.(servers := cfg.http.servers + more))
  }

  /** Root includes take over the servers of the included configurations, in order, and nothing else. */
  lemma {:induction false} IncludedConfigsAreAdded(env: Env, files: seq<string>, depth: nat, subs: seq<Config>,
                                                  cfg: Config)
    requires depth < MAX_INCLUDE_DEPTH && |files| == |subs|
    requires forall i | 0 <= i < |files| :: LoadAt(env, files[i], depth + 1) == Some(subs[i])
    ensures IncludeFiles(env, files, depth, cfg) == Some(WithServers(cfg, ServersOfAll(subs)))
    decreases |files|
  {
    if files == [] {
      assert cfg.http.servers + [] == cfg.http.servers;
    } else {
      assert LoadAt(env, files[0], depth + 1) == Some(subs[0]);
      var next := WithServers(cfg, subs[0].http.servers);
      IncludedConfigsAreAdded(env, files[1..], depth, subs[1..], next);
      Assoc(cfg.http.servers, subs[0].http.servers, ServersOfAll(subs[1..]));
    }
  }

  lemma IncludeIsRead(env: Env, path: string, pattern: string)
    ensures var ts := Line("include", [pattern]);
      && |ts| == 3 && ts[0] == Word("include") && RootStep(env, path, "include", ts[1..]) == Some((Include(pattern), 2))
  {
    var ts := Line("include", [pattern]);
    LineParts("include", [pattern], []);
    ArgsRead(OneWord, [pattern], []);
    assert ts + [] == ts;
    hide Args, Words, Line, EventsBlock, ParseHttp;
  }

  lemma IncludeAtTheEnd(at: Place, pattern: string, subs: seq<Config>, was: Config)
    requires at.depth < MAX_INCLUDE_DEPTH && |at.env.expand(at.path, pattern)| == |subs|
    requires forall i | 0 <= i < |subs| ::
      LoadAt(at.env, at.env.expand(at.path, pattern)[i], at.depth + 1) == Some(subs[i])
    ensures RootLoop(at.env, at.path, at.depth, Line("include", [pattern]), was)
         == Some(WithServers(was, ServersOfAll(subs)))
  {
    hide RootStep, Line, LoadAt, IncludeFiles, WithServers;
    IncludeIsRead(at.env, at.path, pattern);
    IncludedConfigsAreAdded(at.env, at.env.expand(at.path, pattern), at.depth, subs, was);
    assert Drop(Line("include", [pattern])[1..], 2) == [];
  }

  /** A printed configuration that ends in an include loads as itself with the servers of the included
      configurations behind its own, however many there are. */
  lemma SplitConfigLoads(at: Place, st: Style, cfg: Config, pattern: string, subs: seq<Config>, text: string)
    requires at.depth < MAX_INCLUDE_DEPTH && |at.env.expand(at.path, pattern)| == |subs|
    requires forall i | 0 <= i < |subs| ::
      LoadAt(at.env, at.env.expand(at.path, pattern)[i], at.depth + 1) == Some(subs[i])
    requires at.env.read(at.path) == Some(text)
    requires Tokens(text) == ConfigTokens(st, cfg) + Line("include", [pattern])
    requires |cfg.http.servers| <= MAX_SERVER_BLOCKS && PortsAreNoAddresses(at.env)
    requires GoodStyle(st) && FloatsPrint(at.env, st, cfg) && PrintableConfig(at.env, cfg)
    ensures LoadAt(at.env, at.path, at.depth) == Some(WithServers(cfg, ServersOfAll(subs)))
  {
    hide GoodStyle, PortsAreNoAddresses, PrintableConfig, FloatsPrint, Leads, ConfigTokens, Tokens, RootLoop;
    var more := Line("include", [pattern]);
    ConfigLeads(at, st, cfg, DEFAULT_CONFIG);
    LeadsTo(InFile(at), ConfigTokens(st, cfg), DEFAULT_CONFIG, cfg, more);
    hide Line, WithServers;
    IncludeAtTheEnd(at, pattern, subs, cfg);
  }
}

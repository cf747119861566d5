/** The round trip of whole configurations: what is printed, in any spelling and any layout, loads as the
    configuration it was printed from. */
module ConfigRoundTrip {
  import opened Common
  import opened Tokenizer
  import opened ConfigTypes
  import opened ConfigGrammar
  import opened ConfigLocality
  import opened ConfigReading
  import opened ConfigWords
  import opened ConfigPrinter
  import opened ConfigReadBack

  /** Where in a file the root directives are read. */
  datatype Place = Place(env: Env, path: string, depth: nat)

  predicate Within(at: Place) { at.depth <= MAX_INCLUDE_DEPTH }

  function InFile(at: Place): Reader<Config>
    requires Within(at)
  {
    RootReader(at.env, at.path, at.depth)
  }

  lemma ValueLeads(at: Place, name: string, word: string, was: Config, next: Config)
    requires Within(at) && IsRootValue(name) && RootValueOk(name, word) && name !in ["events", "http", "include"]
    requires ApplyRoot(at.env, name, word, was) == next
    ensures Leads(InFile(at), Line(name, [word]), was, next)
  {
    hide Leads, RootReader, ApplyRoot, IsRootValue, RootValueOk;
    RootLine(at.env, at.path, at.depth, name, word, was);
  }

  // ---- Processes ----

  lemma NumberIsNotAuto(n: nat)
    ensures Shown(n) != "auto"
  {
    hide Shown;
    assert "auto"[0] == 'a';
  }

  lemma WorkersLead(at: Place, n: Option<nat>, was: Config)
    requires Within(at) && (n.Some? ==> n.value < U64)
    ensures Leads(InFile(at), Line("worker_processes", [WorkerWord(n)]), was, was.(workers := n))
  {
    hide Leads, Shown, Number, InFile;
    match n {
      case None =>
      case Some(v) =>
        ShownReads(v, U64);
        NumberIsNotAuto(v);
    }
    ValueLeads(at, "worker_processes", WorkerWord(n), was, was.(workers := n));
  }

  lemma PlainConnectionsLead(at: Place, n: nat, was: Config)
    requires Within(at) && n < U64
    ensures Leads(InFile(at), Line("worker_connections", [Shown(n)]), was, was.(connections := n))
  {
    hide Leads, Shown, Number, InFile;
    ShownReads(n, U64);
    ValueLeads(at, "worker_connections", Shown(n), was, was.(connections := n));
  }

  lemma EventsRead(n: nat, rest: seq<Token>)
    requires n < U64
    ensures EventsBlock(Line("worker_connections", [Shown(n)]) + ([CloseBrace] + rest), None) == Some((Some(n), 4))
  {
    hide Shown, Number, Words, Args;
    var ts := Line("worker_connections", [Shown(n)]) + ([CloseBrace] + rest);
    ShownReads(n, U64);
    LineParts("worker_connections", [Shown(n)], [CloseBrace] + rest);
    ArgsRead(OneWord, [Shown(n)], [CloseBrace] + rest);
    assert ts[3] == CloseBrace;
  }

  lemma EventsLead(at: Place, n: nat, was: Config)
    requires Within(at) && n < U64
    ensures Leads(InFile(at), [Word("events")] + Braced([], Line("worker_connections", [Shown(n)])), was,
                  was.(connections := n))
  {
    var body := Line("worker_connections", [Shown(n)]);
    var ts := [Word("events")] + Braced([], body);
    hide Shown, Leads, EventsBlock, Line;
    assert |body| == 3 by { LineParts("worker_connections", [Shown(n)], []); }
    assert |ts| == 6 && ts[1..] == Braced([], body);
    forall rest: seq<Token>
      ensures RootStep(at.env, at.path, "events", ts[1..] + rest) == Some((SetConnections(Some(n)), |ts| - 1))
    {
      BracedParts([], body, rest);
      EventsRead(n, rest);
    }
    hide RootStep, Braced;
    RootLeads(at.env, at.path, at.depth, ts, "events", was, SetConnections(Some(n)));
  }

  lemma PinLeads(at: Place, st: Style, on: bool, was: Config)
    requires Within(at) && GoodStyle(st)
    ensures Leads(InFile(at), Line(Either(st, "numa_pin", "numa-pin"), [st.pin(on)]), was, was.(numaPin := on))
  {
    hide Leads, GoodStyle, Unquoted, InFile, Number;
    SwitchesRead(st, on);
    if st.long {
      ValueLeads(at, "numa_pin", st.pin(on), was, was.(numaPin := on));
    } else {
      ValueLeads(at, "numa-pin", st.pin(on), was, was.(numaPin := on));
    }
  }

  lemma ConnectionsLead(at: Place, st: Style, n: nat, was: Config)
    requires Within(at) && n < U64
    ensures Leads(InFile(at), ConnectionLines(st, n), was, was.(connections := n))
  {
    hide Leads, InFile, Line;
    if st.long { EventsLead(at, n, was); } else { PlainConnectionsLead(at, n, was); }
  }

  lemma ProcessesLead(at: Place, st: Style, v: Config, was: Config)
    requires Within(at) && GoodStyle(st) && v.connections < U64 && (v.workers.Some? ==> v.workers.value < U64)
    ensures Leads(InFile(at), ProcessLines(st, v), was,
                  was.(workers := v.workers, connections := v.connections, numaPin := v.numaPin))
  {
    var a := was.(workers := v.workers);
    var b := a.(connections := v.connections);
    hide Leads, GoodStyle, InFile, Line, WorkerWord, ConnectionLines;
    WorkersLead(at, v.workers, was);
    ConnectionsLead(at, st, v.connections, a);
    PinLeads(at, st, v.numaPin, b);
    LeadsThrough(InFile(at), Line("worker_processes", [WorkerWord(v.workers)]), ConnectionLines(st, v.connections),
                 Line(Either(st, "numa_pin", "numa-pin"), [st.pin(v.numaPin)]), was, a, b, b.(numaPin := v.numaPin));
  }

  // ---- Firewall ----

  lemma WallLeads(at: Place, st: Style, on: bool, was: Config)
    requires Within(at) && GoodStyle(st)
    ensures Leads(InFile(at), Line(Either(st, "firewall_manage", "firewall"), [st.wall(on)]), was,
                  was.(firewallManage := on))
  {
    hide Leads, GoodStyle, Unquoted, InFile, Number;
    SwitchesRead(st, on);
    ValueLeads(at, Either(st, "firewall_manage", "firewall"), st.wall(on), was, was.(firewallManage := on));
  }

  lemma BackendLeads(at: Place, b: Option<string>, was: Config)
    requires Within(at) && b != Some("auto")
    ensures Leads(InFile(at), Line("firewall_backend", [AutoOr(b)]), was, was.(firewallBackend := b))
  {
    hide Leads, InFile, Number;
    ValueLeads(at, "firewall_backend", AutoOr(b), was, was.(firewallBackend := b));
  }

  lemma TagLeads(at: Place, tag: string, was: Config)
    requires Within(at)
    ensures Leads(InFile(at), Line("firewall_tag", [tag]), was, was.(firewallTag := tag))
  {
    hide Leads, InFile, Number;
    ValueLeads(at, "firewall_tag", tag, was, was.(firewallTag := tag));
  }

  lemma IcmpLeads(at: Place, st: Style, on: bool, was: Config)
    requires Within(at) && GoodStyle(st)
    ensures Leads(InFile(at), Line(Either(st, "icmp_protection", "icmp-protection"), [st.off(on)]), was,
                  was.(icmpProtection := on))
  {
    hide Leads, GoodStyle, Unquoted, InFile, Number;
    SwitchesRead(st, on);
    ValueLeads(at, Either(st, "icmp_protection", "icmp-protection"), st.off(on), was, was.(icmpProtection := on));
  }

  lemma FirewallLeads(at: Place, st: Style, v: Config, was: Config)
    requires Within(at) && GoodStyle(st) && v.firewallBackend != Some("auto")
    ensures Leads(InFile(at), FirewallLines(st, v), was,
                  was.(firewallManage := v.firewallManage, firewallBackend := v.firewallBackend,
                       firewallTag := v.firewallTag, icmpProtection := v.icmpProtection))
  {
    var a := was.(firewallManage := v.firewallManage);
    var b := a.(firewallBackend := v.firewallBackend);
    var c := b.(firewallTag := v.firewallTag);
    hide Leads, GoodStyle, InFile, Line, AutoOr;
    WallLeads(at, st, v.firewallManage, was);
    BackendLeads(at, v.firewallBackend, a);
    TagLeads(at, v.firewallTag, b);
    IcmpLeads(at, st, v.icmpProtection, c);
    var l0 := Line(Either(st, "firewall_manage", "firewall"), [st.wall(v.firewallManage)]);
    var l1, l2 := Line("firewall_backend", [AutoOr(v.firewallBackend)]), Line("firewall_tag", [v.firewallTag]);
    var l3 := Line(Either(st, "icmp_protection", "icmp-protection"), [st.off(v.icmpProtection)]);
    LeadsThrough(InFile(at), l0, l1, l2, was, a, b, c);
    LeadsOn(InFile(at), l0 + l1 + l2, l3, was, c, c.(icmpProtection := v.icmpProtection));
  }

  // ---- Scan detection ----

  lemma ScanLeads(at: Place, st: Style, on: bool, was: Config)
    requires Within(at) && GoodStyle(st)
    ensures Leads(InFile(at), Line(Either(st, "scan_detection", "scan-detection"), [st.off(on)]), was,
                  was.(scanDetection := on))
  {
    hide Leads, GoodStyle, Unquoted, InFile, Number;
    SwitchesRead(st, on);
    if st.long {
      ValueLeads(at, "scan_detection", st.off(on), was, was.(scanDetection := on));
    } else {
      ValueLeads(at, "scan-detection", st.off(on), was, was.(scanDetection := on));
    }
  }

  lemma WindowLeads(at: Place, st: Style, n: nat, was: Config)
    requires Within(at) && n < U64
    ensures Leads(InFile(at), Line(Either(st, "scan_detection_window", "scan_window"), [Shown(n)]), was,
                  was.(scanWindow := n))
  {
    hide Leads, Shown, Number, InFile;
    ShownReads(n, U64);
    ValueLeads(at, Either(st, "scan_detection_window", "scan_window"), Shown(n), was, was.(scanWindow := n));
  }

  lemma ThresholdLeads(at: Place, st: Style, n: nat, was: Config)
    requires Within(at) && n < U64
    ensures Leads(InFile(at), Line(Either(st, "scan_detection_threshold", "scan_threshold"), [Shown(n)]), was,
                  was.(scanThreshold := n))
  {
    hide Leads, Shown, Number, InFile;
    ShownReads(n, U64);
    ValueLeads(at, Either(st, "scan_detection_threshold", "scan_threshold"), Shown(n), was, was.(scanThreshold := n));
  }

  lemma ErrorRateLeads(at: Place, st: Style, rate: real, was: Config)
    requires Within(at) && at.env.float(st.rate(rate)) == Some(rate)
    ensures Leads(InFile(at), Line(Either(st, "scan_detection_error_rate", "scan_error_rate"), [st.rate(rate)]), was,
                  was.(scanErrorRate := rate))
  {
    hide Leads, InFile, Number;
    ValueLeads(at, Either(st, "scan_detection_error_rate", "scan_error_rate"), st.rate(rate), was,
               was.(scanErrorRate := rate));
  }

  lemma BlockTimeLeads(at: Place, st: Style, n: nat, was: Config)
    requires Within(at) && n < U64
    ensures Leads(InFile(at), Line(Either(st, "scan_detection_block", "scan_block"), [Shown(n)]), was,
                  was.(scanBlock := n))
  {
    hide Leads, Shown, Number, InFile;
    ShownReads(n, U64);
    ValueLeads(at, Either(st, "scan_detection_block", "scan_block"), Shown(n), was, was.(scanBlock := n));
  }

  lemma ScansLead(at: Place, st: Style, v: Config, was: Config)
    requires Within(at) && GoodStyle(st) && v.scanWindow < U64 && v.scanThreshold < U64 && v.scanBlock < U64
    requires at.env.float(st.rate(v.scanErrorRate)) == Some(v.scanErrorRate)
    ensures Leads(InFile(at), ScanLines(st, v), was,
                  was.(scanDetection := v.scanDetection, scanWindow := v.scanWindow, scanThreshold := v.scanThreshold,
                       scanErrorRate := v.scanErrorRate, scanBlock := v.scanBlock))
  {
    var a := was.(scanDetection := v.scanDetection);
    var b := a.(scanWindow := v.scanWindow);
    var c := b.(scanThreshold := v.scanThreshold);
    var e := c.(scanErrorRate := v.scanErrorRate);
    hide Leads, GoodStyle, InFile, Line;
    ScanLeads(at, st, v.scanDetection, was);
    WindowLeads(at, st, v.scanWindow, a);
    ThresholdLeads(at, st, v.scanThreshold, b);
    ErrorRateLeads(at, st, v.scanErrorRate, c);
    BlockTimeLeads(at, st, v.scanBlock, e);
    var l0 := Line(Either(st, "scan_detection", "scan-detection"), [st.off(v.scanDetection)]);
    var l1 := Line(Either(st, "scan_detection_window", "scan_window"), [Shown(v.scanWindow)]);
    var l2 := Line(Either(st, "scan_detection_threshold", "scan_threshold"), [Shown(v.scanThreshold)]);
    var l3 := Line(Either(st, "scan_detection_error_rate", "scan_error_rate"), [st.rate(v.scanErrorRate)]);
    var l4 := Line(Either(st, "scan_detection_block", "scan_block"), [Shown(v.scanBlock)]);
    LeadsThrough(InFile(at), l0, l1, l2, was, a, b, c);
    LeadsThrough(InFile(at), l0 + l1 + l2, l3, l4, was, c, e, e.(scanBlock := v.scanBlock));
  }

  // ---- AbuseIPDB ----

  lemma KeyLeads(at: Place, st: Style, key: Option<string>, was: Config)
    requires Within(at) && (key.Some? ==> NoQuotes(key.value))
    ensures Leads(InFile(at), Maybe(Either(st, "scan_detection_abuseipdb_key", "abuseipdb_key"), Alone(key)), was,
                  was.(abuseKey := Later(key, was.abuseKey)))
  {
    hide Leads, InFile, Unquoted, NoQuotes, Number;
    match key {
      case None => LeadsNowhere(InFile(at), was);
      case Some(k) =>
        NoQuotesStay(k);
        ValueLeads(at, Either(st, "scan_detection_abuseipdb_key", "abuseipdb_key"), k, was, was.(abuseKey := key));
    }
  }

  lemma ReportLeads(at: Place, st: Style, on: bool, was: Config)
    requires Within(at) && GoodStyle(st)
    ensures Leads(InFile(at), Line(Either(st, "scan_detection_abuseipdb_report", "abuseipdb_report"), [st.off(on)]),
                  was, was.(abuseReport := on))
  {
    hide Leads, GoodStyle, Unquoted, InFile, Number;
    SwitchesRead(st, on);
    if st.long {
      ValueLeads(at, "scan_detection_abuseipdb_report", st.off(on), was, was.(abuseReport := on));
    } else {
      ValueLeads(at, "abuseipdb_report", st.off(on), was, was.(abuseReport := on));
    }
  }

  lemma AbuseLeads(at: Place, st: Style, v: Config, was: Config)
    requires Within(at) && GoodStyle(st) && (v.abuseKey.Some? ==> NoQuotes(v.abuseKey.value))
    ensures Leads(InFile(at), AbuseLines(st, v), was,
                  was.(abuseKey := Later(v.abuseKey, was.abuseKey), abuseReport := v.abuseReport))
  {
    var a := was.(abuseKey := Later(v.abuseKey, was.abuseKey));
    hide Leads, GoodStyle, InFile, Line, Maybe, NoQuotes, Later;
    KeyLeads(at, st, v.abuseKey, was);
    ReportLeads(at, st, v.abuseReport, a);
    LeadsOn(InFile(at), Maybe(Either(st, "scan_detection_abuseipdb_key", "abuseipdb_key"), Alone(v.abuseKey)),
            Line(Either(st, "scan_detection_abuseipdb_report", "abuseipdb_report"), [st.off(v.abuseReport)]),
            was, a, a.(abuseReport := v.abuseReport));
  }

  // ---- The http block and the whole file ----

  lemma HttpStepReads(at: Place, body: seq<Token>, h: Http, rest: seq<Token>)
    requires ParseHttp(at.env, at.path, body + ([CloseBrace] + rest)) == Some((h, |body| + 1))
    ensures RootStep(at.env, at.path, "http", Braced([], body) + rest) == Some((SetHttp(h), |body| + 2))
  {
    BracedParts([], body, rest);
    hide ParseHttp, Braced;
  }

  lemma HttpLeads(at: Place, st: Style, h: Http, was: Config)
    requires Within(at) && GoodStyle(st) && PortsAreNoAddresses(at.env) && PrintableHttp(at.env, h)
    requires RatesPrint(at.env, st, h) && |h.servers| <= MAX_SERVER_BLOCKS
    ensures Leads(InFile(at), [Word("http")] + Braced([], HttpLines(st, h)), was, was.(http := h))
  {
    hide *;
    var body := HttpLines(st, h);
    var ts := [Word("http")] + Braced([], body);
    HttpTokens(body);
    forall rest: seq<Token>
      ensures RootStep(at.env, at.path, "http", ts[1..] + rest) == Some((SetHttp(h), |ts| - 1))
    {
      HttpReadsBack(at.env, at.path, st, h, rest);
      HttpStepReads(at, body, h, rest);
    }
    HttpRootLeads(at, ts, h, was);
  }

  lemma HttpTokens(body: seq<Token>)
    ensures var ts := [Word("http")] + Braced([], body);
      |ts| == |body| + 3 && ts[0] == Word("http") && ts[1..] == Braced([], body)
  {
  }

  lemma HttpRootLeads(at: Place, ts: seq<Token>, h: Http, was: Config)
    requires Within(at) && ts != [] && ts[0] == Word("http")
    requires forall rest: seq<Token> ::
      RootStep(at.env, at.path, "http", ts[1..] + rest) == Some((SetHttp(h), |ts| - 1))
    ensures Leads(InFile(at), ts, was, was.(http := h))
  {
    hide Leads, RootStep;
    RootLeads(at.env, at.path, at.depth, ts, "http", was, SetHttp(h));
  }

  lemma ConfigLeads(at: Place, st: Style, v: Config, was: Config)
    requires Within(at) && GoodStyle(st) && PortsAreNoAddresses(at.env) && PrintableConfig(at.env, v)
    requires FloatsPrint(at.env, st, v) && |v.http.servers| <= MAX_SERVER_BLOCKS
    ensures Leads(InFile(at), ConfigTokens(st, v), was, v.(abuseKey := Later(v.abuseKey, was.abuseKey)))
  {
    var a := was.(workers := v.workers, connections := v.connections, numaPin := v.numaPin);
    var b := a.(firewallManage := v.firewallManage, firewallBackend := v.firewallBackend,
                firewallTag := v.firewallTag, icmpProtection := v.icmpProtection);
    var c := b.(scanDetection := v.scanDetection, scanWindow := v.scanWindow, scanThreshold := v.scanThreshold,
                scanErrorRate := v.scanErrorRate, scanBlock := v.scanBlock);
    var e := c.(abuseKey := Later(v.abuseKey, was.abuseKey), abuseReport := v.abuseReport);
    hide Leads, GoodStyle, InFile, PortsAreNoAddresses, PrintableHttp, RatesPrint, NoQuotes, Later;
    hide ProcessLines, FirewallLines, ScanLines, AbuseLines, HttpLines, Braced;
    ProcessesLead(at, st, v, was);
    FirewallLeads(at, st, v, a);
    ScansLead(at, st, v, b);
    AbuseLeads(at, st, v, c);
    HttpLeads(at, st, v.http, e);
    var l0, l1, l2 := ProcessLines(st, v), FirewallLines(st, v), ScanLines(st, v);
    LeadsThrough(InFile(at), l0, l1, l2, was, a, b, c);
    LeadsThrough(InFile(at), l0 + l1 + l2, AbuseLines(st, v), [Word("http")] + Braced([], HttpLines(st, v.http)),
                 was, c, e, e.(http := v.http));
  }

  lemma LeadsToTheEnd(at: Place, ts: seq<Token>, was: Config, next: Config)
    requires Within(at) && Leads(InFile(at), ts, was, next)
    ensures RootLoop(at.env, at.path, at.depth, ts, was) == Some(next)
  {
    LeadsTo(InFile(at), ts, was, next, []);
    assert ts + [] == ts;
    hide Leads;
  }

  /** The round trip: any printed text of a printable configuration, in every style, with any blanks and
      comments and any quoting of its words, loads as that configuration, at every include depth. */
  lemma PrintedConfigLoads(at: Place, st: Style, cfg: Config, ps: seq<Piece>)
    requires Within(at) && GoodStyle(st) && PortsAreNoAddresses(at.env) && PrintableConfig(at.env, cfg)
    requires FloatsPrint(at.env, st, cfg) && |cfg.http.servers| <= MAX_SERVER_BLOCKS
    requires WellPrinted(ps) && TokensOf(ps) == ConfigTokens(st, cfg) && at.env.read(at.path) == Some(Print(ps))
    ensures LoadAt(at.env, at.path, at.depth) == Some(cfg)
  {
    hide GoodStyle, PortsAreNoAddresses, PrintableConfig, FloatsPrint, Leads, InFile, ConfigTokens;
    hide WellPrinted, TokensOf, Print, Tokens, RootLoop;
    TokenizerInvertsPrint(ps);
    ConfigLeads(at, st, cfg, DEFAULT_CONFIG);
    LeadsToTheEnd(at, ConfigTokens(st, cfg), DEFAULT_CONFIG, cfg);
  }

  /** Every configuration has such a text, in every style. */
  lemma EveryConfigPrints(st: Style, cfg: Config)
    ensures exists ps :: WellPrinted(ps) && TokensOf(ps) == ConfigTokens(st, cfg)
  {
    hide ConfigTokens, WellPrinted, TokensOf;
    EveryTokenSequencePrints(ConfigTokens(st, cfg));
  }

  function PlainStyle(rate: real -> string): Style {
    Style(Shown, Shown, rate, OnOff, OnOff, OnOff, OnOff, true, 0)
  }

  /** Plain numbers and `on` and `off` are a style. */
  lemma PlainStyleIsGood(rate: real -> string)
    ensures GoodStyle(PlainStyle(rate))
  {
    var st := PlainStyle(rate);
    hide Size, Seconds, Shown, Unquoted;
    forall n: nat | n < U64 ensures Size(st.size(n)) == Some(n) && Seconds(st.seconds(n)) == Some(n) {
      PlainSizeReads(n);
      SecondsRead(n, "");
      assert Shown(n) + "" == Shown(n);
    }
    forall b: bool
      ensures (st.on(b) == "on") == b && (Unquoted(st.off(b)) != "off") == b
      ensures (Unquoted(st.pin(b)) !in ["no", "off"]) == b && (st.wall(b) !in ["off", "false", "no", "0"]) == b
    {
      SwitchReads(b);
    }
  }
}

/** The site configurations the management API writes, and that the parser reads them back. */
module SiteConfig {
  import opened Common
  import Ascii
  import opened Tokenizer
  import opened ConfigTypes
  import opened ConfigGrammar
  import opened ConfigLocality
  import opened ConfigInsertion
  import opened ConfigReading
  import ConfigWords
  import opened Router

  // ---- What is written ----

  datatype SiteType = StaticSite | PhpSite | WordpressSite | ProxySite

  datatype Site = Site(kind: SiteType, domain: string, root: string, socket: string, upstream: string,
                       cloudflare: bool, ssl: bool)

  /** A simple directive line. */
  datatype Line = Line(indent: string, name: string, args: seq<string>)

  /** A line of a server block, or a location with its lines. */
  datatype Item = Leaf(line: Line) | LocationItem(args: seq<string>, body: seq<Line>)

  function ArgsText(args: seq<string>): string {
    if args == [] then "" else " " + (args[0] + ArgsText(args[1..]))
  }

  function LineText(l: Line): string { l.indent + (l.name + (ArgsText(l.args) + ";\n")) }

  function LinesText(ls: seq<Line>): string {
    if ls == [] then "" else LineText(ls[0]) + LinesText(ls[1..])
  }

  function ItemText(item: Item): string {
    match item
    case Leaf(l) => LineText(l)
    case LocationItem(args, body) => "location" + (ArgsText(args) + (" {\n" + (LinesText(body) + "    }\n")))
  }

  function ItemsText(items: seq<Item>): string {
    if items == [] then "" else ItemText(items[0]) + ItemsText(items[1..])
  }

  function ServerText(items: seq<Item>): string { "server" + (" {\n" + (ItemsText(items) + "}\n")) }

  function Directive4(name: string, args: seq<string>): Item { Leaf(Line("    ", name, args)) }

  function Directive8(name: string, args: seq<string>): Line { Line("        ", name, args) }

  /** The header line that Cloudflare sites carry. */
  function Cloudflare(site: Site): seq<Item> {
    if site.cloudflare then [Directive4("real_ip_header", ["CF-Connecting-IP"])] else []
  }

  function PhpLocation(site: Site): Item {
    LocationItem(["~", "\\.php$"],
      [Directive8("fastcgi_pass", ["unix:" + site.socket]), Directive8("fastcgi_index", ["index.php"])])
  }

  /** The lines of the site's own block before and after the Cloudflare header. */
  function HeadItems(site: Site): seq<Item> {
    [Directive4("listen", ["80"]), Directive4("server_name", [site.domain])]
      + (match site.kind
         case StaticSite => [Directive4("root", [site.root]), Directive4("index", ["index.html", "index.htm"])]
         case PhpSite => [Directive4("root", [site.root]), Directive4("index", ["index.php", "index.html"])]
         case WordpressSite => [Directive4("root", [site.root]), Directive4("index", ["index.php"])]
         case ProxySite => [])
  }

  function LocationItems(site: Site): seq<Item> {
    match site.kind
    case StaticSite => [LocationItem(["/"], [Directive8("try_files", ["$uri", "$uri/", "=404"])])]
    case PhpSite => [LocationItem(["/"], [Directive8("try_files", ["$uri", "$uri/", "=404"])]), PhpLocation(site)]
    case WordpressSite => [
      LocationItem(["/"], [Directive8("try_files", ["$uri", "$uri/", "/index.php?$args"])]),
      PhpLocation(site),
      LocationItem(["~*", "\\.(js|css|png|jpg|jpeg|gif|ico|svg|woff2?)$"], [Directive8("expires", ["max"])])]
    case ProxySite => [LocationItem(["/"], [
      Directive8("proxy_pass", [site.upstream]),
      Directive8("proxy_set_header", ["Host", "$host"]),
      Directive8("proxy_set_header", ["X-Real-IP", "$remote_addr"]),
      Directive8("proxy_set_header", ["X-Forwarded-For", "$proxy_add_x_forwarded_for"]),
      Directive8("proxy_set_header", ["X-Forwarded-Proto", "$scheme"])])]
  }

  function SiteItems(site: Site): seq<Item> { HeadItems(site) + Cloudflare(site) + LocationItems(site) }

  function RedirectItems(site: Site): seq<Item> {
    [Directive4("listen", ["80"]), Directive4("server_name", [site.domain]),
     Directive4("return", ["301", "https://" + site.domain + "$request_uri"])]
  }

  /** The text of `generate_config`: the site's block, and with SSL a redirect block after an empty line. */
  function GenerateConfig(site: Site): string {
    ServerText(SiteItems(site)) + (if site.ssl then "\n" + ServerText(RedirectItems(site)) else "")
  }

  predicate DomainChar(c: char) { 'a' <= c <= 'z' || 'A' <= c <= 'Z' || '0' <= c <= '9' || c == '-' || c == '.' }

  predicate IsValidDomain(d: string) {
    && d != "" && |d| <= 253
    && (forall i | 0 <= i < |d| :: DomainChar(d[i]))
    && d[0] != '.' && d[|d| - 1] != '.'
    && forall i | 0 <= i < |d| - 1 :: !(d[i] == '.' && d[i + 1] == '.')
  }

  // ---- Its tokens ----

  function ArgTokens(l: Line): seq<Token> { Words(l.args) + [Semicolon] }

  function LineTokens(l: Line): seq<Token> { [Word(l.name)] + ArgTokens(l) }

  function LinesTokens(ls: seq<Line>): seq<Token> {
    if ls == [] then [] else LineTokens(ls[0]) + LinesTokens(ls[1..])
  }

  function ItemTokens(item: Item): seq<Token> {
    match item
    case Leaf(l) => LineTokens(l)
    case LocationItem(args, body) =>
      [Word("location")] + (Words(args) + ([OpenBrace] + (LinesTokens(body) + [CloseBrace])))
  }

  function ItemsTokens(items: seq<Item>): seq<Token> {
    if items == [] then [] else ItemTokens(items[0]) + ItemsTokens(items[1..])
  }

  function ServerTokens(items: seq<Item>): seq<Token> {
    [Word("server"), OpenBrace] + (ItemsTokens(items) + [CloseBrace])
  }

  predicate Spaces(s: string) { forall i | 0 <= i < |s| :: IsSpace(s[i]) }

  predicate BareWords(ws: seq<string>) { forall w | w in ws :: BareWord(w) }

  predicate GoodLine(l: Line) { Spaces(l.indent) && BareWord(l.name) && BareWords(l.args) }

  predicate GoodItem(item: Item) {
    match item
    case Leaf(l) => GoodLine(l)
    case LocationItem(args, body) => BareWords(args) && forall l | l in body :: GoodLine(l)
  }

  lemma OneStep(p: Piece, rest: string)
    requires GoodPiece(p) && (p.Bare? && rest != "" ==> EndsBare(rest[0]))
    ensures Tokens(PieceText(p) + rest) == PieceTokens(p) + Tokens(rest)
  {
    StepReadsPiece(p, rest);
    hide Step, PieceText, PieceTokens;
  }

  lemma {:induction false} SpacesVanish(s: string, rest: string)
    requires Spaces(s)
    ensures Tokens(s + rest) == Tokens(rest)
  {
    hide Tokens;
    if s == "" {
      assert s + rest == rest;
    } else {
      SpacesVanish(s[1..], rest);
      OneStep(Blank(s[0]), s[1..] + rest);
      assert s + rest == [s[0]] + (s[1..] + rest);
      assert [] + Tokens(rest) == Tokens(rest);
    }
  }

  lemma {:induction false} ArgsTokenize(args: seq<string>, rest: string)
    requires BareWords(args) && rest != "" && EndsBare(rest[0])
    ensures Tokens(ArgsText(args) + rest) == Words(args) + Tokens(rest)
    ensures EndsBare((ArgsText(args) + rest)[0])
  {
    hide Tokens;
    if args == [] {
      assert ArgsText(args) + rest == rest && Words(args) + Tokens(rest) == Tokens(rest);
    } else {
      var tail := ArgsText(args[1..]) + rest;
      ArgsTokenize(args[1..], rest);
      OneStep(Bare(args[0]), tail);
      OneStep(Blank(' '), args[0] + tail);
      Assoc(args[0], ArgsText(args[1..]), rest);
      Assoc(" ", args[0] + ArgsText(args[1..]), rest);
      assert Words(args) == [Word(args[0])] + Words(args[1..]);
      assert [] + Tokens(args[0] + tail) == Tokens(args[0] + tail);
      Assoc([Word(args[0])], Words(args[1..]), Tokens(rest));
    }
  }

  /** A word, its arguments, and what ends them. */
  lemma HeadTokenizes(name: string, args: seq<string>, rest: string)
    requires BareWord(name) && BareWords(args) && rest != "" && EndsBare(rest[0])
    ensures Tokens(name + (ArgsText(args) + rest)) == [Word(name)] + (Words(args) + Tokens(rest))
  {
    hide Tokens;
    ArgsTokenize(args, rest);
    OneStep(Bare(name), ArgsText(args) + rest);
  }

  lemma MarkTokenizes(t: Token, rest: string)
    requires !t.Word?
    ensures Tokens(PieceText(Mark(t)) + ("\n" + rest)) == [t] + Tokens(rest)
  {
    hide Tokens;
    OneStep(Mark(t), "\n" + rest);
    OneStep(Blank('\n'), rest);
    assert [] + Tokens(rest) == Tokens(rest);
  }

  lemma LineTokenizes(l: Line, rest: string)
    requires GoodLine(l)
    ensures Tokens(LineText(l) + rest) == LineTokens(l) + Tokens(rest)
  {
    hide Tokens;
    var end := ";\n" + rest;
    MarkTokenizes(Semicolon, rest);
    assert end == ";" + ("\n" + rest);
    HeadTokenizes(l.name, l.args, end);
    SpacesVanish(l.indent, l.name + (ArgsText(l.args) + end));
    Assoc(ArgsText(l.args), ";\n", rest);
    Assoc(l.name, ArgsText(l.args) + ";\n", rest);
    Assoc(l.indent, l.name + (ArgsText(l.args) + ";\n"), rest);
    Assoc(Words(l.args), [Semicolon], Tokens(rest));
    Assoc([Word(l.name)], ArgTokens(l), Tokens(rest));
  }

  lemma {:induction false} LinesTokenize(ls: seq<Line>, rest: string)
    requires forall l | l in ls :: GoodLine(l)
    ensures Tokens(LinesText(ls) + rest) == LinesTokens(ls) + Tokens(rest)
  {
    hide Tokens, LineText, LineTokens, GoodLine;
    if ls == [] {
      assert LinesText(ls) + rest == rest && LinesTokens(ls) + Tokens(rest) == Tokens(rest);
    } else {
      LinesTokenize(ls[1..], rest);
      LineTokenizes(ls[0], LinesText(ls[1..]) + rest);
      Assoc(LineText(ls[0]), LinesText(ls[1..]), rest);
      Assoc(LineTokens(ls[0]), LinesTokens(ls[1..]), Tokens(rest));
    }
  }

  lemma OpenTokenizes(rest: string)
    ensures Tokens(" {\n" + rest) == [OpenBrace] + Tokens(rest)
  {
    hide Tokens;
    MarkTokenizes(OpenBrace, rest);
    OneStep(Blank(' '), "{" + ("\n" + rest));
    assert " {\n" + rest == " " + ("{" + ("\n" + rest));
    assert [] + ([OpenBrace] + Tokens(rest)) == [OpenBrace] + Tokens(rest);
  }

  lemma CloseTokenizes(indent: string, rest: string)
    requires Spaces(indent)
    ensures Tokens(indent + ("}\n" + rest)) == [CloseBrace] + Tokens(rest)
  {
    hide Tokens;
    MarkTokenizes(CloseBrace, rest);
    assert "}\n" + rest == "}" + ("\n" + rest);
    SpacesVanish(indent, "}\n" + rest);
  }

  lemma ItemTokenizes(item: Item, rest: string)
    requires GoodItem(item)
    ensures Tokens(ItemText(item) + rest) == ItemTokens(item) + Tokens(rest)
  {
    hide Tokens;
    match item {
      case Leaf(l) => LineTokenizes(l, rest);
      case LocationItem(args, body) =>
        var close := "    }\n" + rest;
        CloseTokenizes("    ", rest);
        assert close == "    " + ("}\n" + rest);
        LinesTokenize(body, close);
        OpenTokenizes(LinesText(body) + close);
        HeadTokenizes("location", args, " {\n" + (LinesText(body) + close));
        LocationShapes(args, body, rest);
        hide LinesText, LinesTokens, ArgsText, Words;
        assert Tokens(ItemText(item) + rest)
            == [Word("location")] + (Words(args) + ([OpenBrace] + (LinesTokens(body) + ([CloseBrace] + Tokens(rest)))));
    }
  }

  lemma LocationShapes(args: seq<string>, body: seq<Line>, rest: string)
    ensures ItemText(LocationItem(args, body)) + rest
         == "location" + (ArgsText(args) + (" {\n" + (LinesText(body) + ("    }\n" + rest))))
    ensures ItemTokens(LocationItem(args, body)) + Tokens(rest)
         == [Word("location")] + (Words(args) + ([OpenBrace] + (LinesTokens(body) + ([CloseBrace] + Tokens(rest)))))
  {
    hide Tokens, LinesText, LinesTokens, ArgsText, Words;
    var t := LinesText(body) + "    }\n";
    Assoc(LinesText(body), "    }\n", rest);
    Assoc(" {\n", t, rest);
    Assoc(ArgsText(args), " {\n" + t, rest);
    Assoc("location", ArgsText(args) + (" {\n" + t), rest);
    var u := LinesTokens(body) + [CloseBrace];
    Assoc(LinesTokens(body), [CloseBrace], Tokens(rest));
    Assoc([OpenBrace], u, Tokens(rest));
    Assoc(Words(args), [OpenBrace] + u, Tokens(rest));
    Assoc([Word("location")], Words(args) + ([OpenBrace] + u), Tokens(rest));
  }

  lemma {:induction false} ItemsTokenize(items: seq<Item>, rest: string)
    requires forall item | item in items :: GoodItem(item)
    ensures Tokens(ItemsText(items) + rest) == ItemsTokens(items) + Tokens(rest)
  {
    hide Tokens, ItemText, ItemTokens, GoodItem;
    if items == [] {
      assert ItemsText(items) + rest == rest && ItemsTokens(items) + Tokens(rest) == Tokens(rest);
    } else {
      ItemsTokenize(items[1..], rest);
      ItemTokenizes(items[0], ItemsText(items[1..]) + rest);
      Assoc(ItemText(items[0]), ItemsText(items[1..]), rest);
      Assoc(ItemTokens(items[0]), ItemsTokens(items[1..]), Tokens(rest));
    }
  }

  lemma ServerTokenizes(items: seq<Item>, rest: string)
    requires forall item | item in items :: GoodItem(item)
    ensures Tokens(ServerText(items) + rest) == ServerTokens(items) + Tokens(rest)
  {
    hide Tokens, ItemsText, ItemsTokens, GoodItem;
    CloseTokenizes("", rest);
    assert "" + ("}\n" + rest) == "}\n" + rest;
    ItemsTokenize(items, "}\n" + rest);
    OpenTokenizes(ItemsText(items) + ("}\n" + rest));
    OneStep(Bare("server"), " {\n" + (ItemsText(items) + ("}\n" + rest)));
    Assoc(ItemsText(items), "}\n", rest);
    Assoc(" {\n", ItemsText(items) + "}\n", rest);
    Assoc("server", " {\n" + (ItemsText(items) + "}\n"), rest);
    Assoc(ItemsTokens(items), [CloseBrace], Tokens(rest));
    Assoc([Word("server"), OpenBrace], ItemsTokens(items) + [CloseBrace], Tokens(rest));
    assert [Word("server")] + ([OpenBrace] + (ItemsTokens(items) + ([CloseBrace] + Tokens(rest))))
        == [Word("server"), OpenBrace] + (ItemsTokens(items) + ([CloseBrace] + Tokens(rest)));
  }

  // ---- What the parser makes of the tokens ----

  function RunLine(env: Env, l: Line, loc: Location): Option<Location> {
    match LocationShape(l.name)
    case None => Some(loc)
    case Some(shape) => if Takes(shape, l.args) then ApplyLocation(env, l.name, l.args, loc) else None
  }

  function RunLines(env: Env, ls: seq<Line>, loc: Location): Option<Location> {
    if ls == [] then Some(loc)
    else match RunLine(env, ls[0], loc) case None => None case Some(next) => RunLines(env, ls[1..], next)
  }

  function RunItem(env: Env, item: Item, srv: Server): Option<Server> {
    match item
    case Leaf(l) =>
      if l.name == "location" then None
      else
        (match ServerShape(l.name)
         case None => Some(srv)
         case Some(shape) => if Takes(shape, l.args) then ApplyServer(env, l.name, l.args, srv) else None)
    case LocationItem(args, body) =>
      if |srv.locations| >= MAX_LOCATION_BLOCKS then None
      else
        match ParsePattern(env, args)
        case None => None
        case Some(pattern) =>
          match RunLines(env, body, NewLocation(pattern))
          case None => None
          case Some(loc) => Some(srv.(locations := srv.locations + [CloseLocation(loc)]))
  }

  function RunItems(env: Env, items: seq<Item>, srv: Server): Option<Server> {
    if items == [] then Some(srv)
    else match RunItem(env, items[0], srv) case None => None case Some(next) => RunItems(env, items[1..], next)
  }

  lemma LineSplits(l: Line, rest: seq<Token>)
    ensures (LineTokens(l) + rest)[0] == Word(l.name)
    ensures (LineTokens(l) + rest)[1..] == Words(l.args) + ([Semicolon] + rest)
  {
    Assoc(Words(l.args), [Semicolon], rest);
    assert LineTokens(l) + rest == [Word(l.name)] + (ArgTokens(l) + rest);
  }

  lemma LineStep(env: Env, l: Line, rest: seq<Token>, loc: Location)
    requires RunLine(env, l, loc).Some?
    ensures LocationStep(env, l.name, Words(l.args) + ([Semicolon] + rest), loc)
         == Some((RunLine(env, l, loc).value, |l.args| + 1))
  {
    hide LocationShape, ApplyLocation, Args, SkipUnknown, Words;
    if LocationShape(l.name).Some? {
      ArgsRead(LocationShape(l.name).value, l.args, rest);
    } else {
      ArgsRead(AnyWords, l.args, rest);
    }
  }

  lemma LineParses(env: Env, l: Line, rest: seq<Token>, loc: Location)
    requires RunLine(env, l, loc).Some?
    ensures Block(LocationDirective(env), LineTokens(l) + rest, loc)
         == After(|LineTokens(l)|, Block(LocationDirective(env), rest, RunLine(env, l, loc).value))
  {
    LineSplits(l, rest);
    LineStep(env, l, rest, loc);
    assert |LineTokens(l)| == |l.args| + 2;
    var after := Words(l.args) + ([Semicolon] + rest);
    hide Block, LocationStep, RunLine, LineTokens, Words;
    assert LocationDirective(env)(l.name, after, loc) == LocationStep(env, l.name, after, loc);
    OwnTokensParse(LocationDirective(env), LineTokens(l), rest, l.name, after, loc, RunLine(env, l, loc).value);
  }

  lemma {:induction false} LinesParse(env: Env, ls: seq<Line>, rest: seq<Token>, loc: Location)
    requires RunLines(env, ls, loc).Some?
    ensures Block(LocationDirective(env), LinesTokens(ls) + ([CloseBrace] + rest), loc)
         == Some((RunLines(env, ls, loc).value, |LinesTokens(ls)| + 1))
  {
    hide Block, RunLine, LineTokens, LocationDirective;
    if ls == [] {
      assert LinesTokens(ls) + ([CloseBrace] + rest) == [CloseBrace] + rest;
      BlockEnds(LocationDirective(env), rest, loc);
    } else {
      var next := RunLine(env, ls[0], loc).value;
      LinesParse(env, ls[1..], rest, next);
      LineParses(env, ls[0], LinesTokens(ls[1..]) + ([CloseBrace] + rest), loc);
      Assoc(LineTokens(ls[0]), LinesTokens(ls[1..]), [CloseBrace] + rest);
    }
  }

  /** The tokens after `location`, read back. */
  lemma LocationParses(env: Env, args: seq<string>, body: seq<Line>, rest: seq<Token>, pattern: Pattern)
    requires ParsePattern(env, args) == Some(pattern) && RunLines(env, body, NewLocation(pattern)).Some?
    ensures ParseLocation(env, Words(args) + ([OpenBrace] + (LinesTokens(body) + ([CloseBrace] + rest))))
         == Some((CloseLocation(RunLines(env, body, NewLocation(pattern)).value), |args| + |LinesTokens(body)| + 2))
  {
    hide Block, ParsePattern, RunLines, LocationDirective, CloseLocation, LinesTokens, ParseLocation, LocationBody;
    var inner := LinesTokens(body) + ([CloseBrace] + rest);
    var ts := Words(args) + ([OpenBrace] + inner);
    LeadingOfWords(args, [OpenBrace] + inner);
    assert ts[|args|] == OpenBrace && Texts(ts[..|args|]) == args && ts[|args| + 1..] == inner;
    LinesParse(env, body, rest, NewLocation(pattern));
    ParseLocationIs(env, ts, |args|);
    BodyIs(env, pattern, |args| + 1, inner);
  }

  lemma BodyIs(env: Env, pattern: Pattern, taken: nat, ts: seq<Token>)
    ensures LocationBody(env, pattern, taken, ts)
      == Closed(taken, Block(LocationDirective(env), ts, NewLocation(pattern)))
  {
    hide Block, LocationDirective, Closed;
  }

  lemma LeafParses(env: Env, l: Line, rest: seq<Token>, srv: Server)
    requires RunItem(env, Leaf(l), srv).Some?
    ensures ServerStep(env, l.name, Words(l.args) + ([Semicolon] + rest), srv)
         == Some((RunItem(env, Leaf(l), srv).value, |l.args| + 1))
  {
    hide ServerShape, ApplyServer, Args, SkipUnknown, Words;
    if ServerShape(l.name).Some? {
      ArgsRead(ServerShape(l.name).value, l.args, rest);
    } else {
      ArgsRead(AnyWords, l.args, rest);
    }
  }

  lemma LocationItemParses(env: Env, args: seq<string>, body: seq<Line>, rest: seq<Token>, srv: Server)
    requires RunItem(env, LocationItem(args, body), srv).Some?
    ensures ServerStep(env, "location", Words(args) + ([OpenBrace] + (LinesTokens(body) + ([CloseBrace] + rest))), srv)
         == Some((RunItem(env, LocationItem(args, body), srv).value, |args| + |LinesTokens(body)| + 2))
  {
    hide ParsePattern, RunLines, ParseLocation, Words, LinesTokens;
    LocationParses(env, args, body, rest, ParsePattern(env, args).value);
  }

  lemma LocationSplits(args: seq<string>, body: seq<Line>, rest: seq<Token>)
    ensures var tokens := ItemTokens(LocationItem(args, body));
      && (tokens + rest)[0] == Word("location")
      && (tokens + rest)[1..] == Words(args) + ([OpenBrace] + (LinesTokens(body) + ([CloseBrace] + rest)))
      && |tokens| == |args| + |LinesTokens(body)| + 3
  {
    var u := LinesTokens(body) + [CloseBrace];
    Assoc(LinesTokens(body), [CloseBrace], rest);
    Assoc([OpenBrace], u, rest);
    Assoc(Words(args), [OpenBrace] + u, rest);
    Assoc([Word("location")], Words(args) + ([OpenBrace] + u), rest);
    hide LinesTokens, Words;
    assert ItemTokens(LocationItem(args, body)) + rest
        == [Word("location")] + (Words(args) + ([OpenBrace] + (LinesTokens(body) + ([CloseBrace] + rest))));
  }

  lemma ItemParses(env: Env, item: Item, rest: seq<Token>, srv: Server)
    requires RunItem(env, item, srv).Some?
    ensures Block(ServerDirective(env), ItemTokens(item) + rest, srv)
         == After(|ItemTokens(item)|, Block(ServerDirective(env), rest, RunItem(env, item, srv).value))
  {
    match item {
      case Leaf(l) => LeafItemParses(env, l, rest, srv);
      case LocationItem(args, body) => LocationBlockParses(env, args, body, rest, srv);
    }
  }

  lemma LeafItemParses(env: Env, l: Line, rest: seq<Token>, srv: Server)
    requires RunItem(env, Leaf(l), srv).Some?
    ensures Block(ServerDirective(env), LineTokens(l) + rest, srv)
         == After(|LineTokens(l)|, Block(ServerDirective(env), rest, RunItem(env, Leaf(l), srv).value))
  {
    LineSplits(l, rest);
    LeafParses(env, l, rest, srv);
    assert |LineTokens(l)| == |l.args| + 2;
    var after := Words(l.args) + ([Semicolon] + rest);
    hide Block, ServerStep, RunItem, LineTokens, Words;
    assert ServerDirective(env)(l.name, after, srv) == ServerStep(env, l.name, after, srv);
    OwnTokensParse(ServerDirective(env), LineTokens(l), rest, l.name, after, srv, RunItem(env, Leaf(l), srv).value);
  }

  lemma LocationBlockParses(env: Env, args: seq<string>, body: seq<Line>, rest: seq<Token>, srv: Server)
    requires RunItem(env, LocationItem(args, body), srv).Some?
    ensures var tokens := ItemTokens(LocationItem(args, body));
      Block(ServerDirective(env), tokens + rest, srv)
        == After(|tokens|, Block(ServerDirective(env), rest, RunItem(env, LocationItem(args, body), srv).value))
  {
    hide *;
    var item := LocationItem(args, body);
    var after := Words(args) + ([OpenBrace] + (LinesTokens(body) + ([CloseBrace] + rest)));
    LocationSplits(args, body, rest);
    LocationItemParses(env, args, body, rest, srv);
    DirectiveIsStep(env, "location", after, srv);
    ItemIsNotEmpty(item, rest);
    OwnTokensParse(ServerDirective(env), ItemTokens(item), rest, "location", after, srv, RunItem(env, item, srv).value);
  }

  lemma DirectiveIsStep(env: Env, name: string, ts: seq<Token>, srv: Server)
    ensures ServerDirective(env)(name, ts, srv) == ServerStep(env, name, ts, srv)
  {
    hide ServerStep;
  }

  lemma ItemIsNotEmpty(item: Item, rest: seq<Token>)
    ensures ItemTokens(item) != [] && ItemTokens(item) + rest != []
  {
    hide LinesTokens, Words;
  }

  lemma {:induction false} ItemsParse(env: Env, items: seq<Item>, rest: seq<Token>, srv: Server)
    requires RunItems(env, items, srv).Some?
    ensures Block(ServerDirective(env), ItemsTokens(items) + ([CloseBrace] + rest), srv)
         == Some((RunItems(env, items, srv).value, |ItemsTokens(items)| + 1))
  {
    hide Block, RunItem, ItemTokens, ServerDirective;
    if items == [] {
      assert ItemsTokens(items) + ([CloseBrace] + rest) == [CloseBrace] + rest;
      BlockEnds(ServerDirective(env), rest, srv);
    } else {
      var next := RunItem(env, items[0], srv).value;
      ItemsParse(env, items[1..], rest, next);
      ItemParses(env, items[0], ItemsTokens(items[1..]) + ([CloseBrace] + rest), srv);
      Assoc(ItemTokens(items[0]), ItemsTokens(items[1..]), [CloseBrace] + rest);
    }
  }

  /** The scan of an include file over one written server block. */
  lemma ServerScans(env: Env, items: seq<Item>, rest: seq<Token>, servers: seq<Server>)
    requires RunItems(env, items, NEW_SERVER).Some? && |servers| < MAX_SERVER_BLOCKS
    ensures ScanServers(env, ServerTokens(items) + rest, servers)
         == ScanServers(env, rest, servers + [RunItems(env, items, NEW_SERVER).value])
  {
    hide Block, RunItems, ItemsTokens, ServerDirective, ScanServers;
    var inner := ItemsTokens(items) + [CloseBrace];
    var ts := ServerTokens(items) + rest;
    Assoc([Word("server"), OpenBrace], inner, rest);
    Assoc(ItemsTokens(items), [CloseBrace], rest);
    CutAppend(inner, rest);
    ItemsParse(env, items, rest, NEW_SERVER);
    assert ts == [Word("server"), OpenBrace] + (inner + rest);
    ScanOne(env, inner + rest, servers, RunItems(env, items, NEW_SERVER).value, |inner|);
  }

  lemma ScanOne(env: Env, ts: seq<Token>, servers: seq<Server>, srv: Server, n: nat)
    requires ParseServer(env, ts) == Some((srv, n)) && |servers| < MAX_SERVER_BLOCKS
    ensures ScanServers(env, [Word("server"), OpenBrace] + ts, servers)
      == ScanServers(env, Drop(ts, n), servers + [srv])
  {
    hide ParseServer;
    assert ([Word("server"), OpenBrace] + ts)[2..] == ts;
  }

  // ---- The sites ----

  /** A site the API can write: a valid domain, and a root, socket path and upstream URL that are bare
      words; the root is safe, the URL passes the `proxy_pass` checks, and the two fixed regular
      expressions compile. */
  predicate Writable(env: Env, site: Site) {
    && IsValidDomain(site.domain)
    && (!site.kind.ProxySite? ==> BareWord(site.root) && SafeRoot(site.root))
    && (site.kind.PhpSite? || site.kind.WordpressSite? ==>
          BareWord("unix:" + site.socket) && env.isRegex("\\.php$"))
    && (site.kind.WordpressSite? ==> env.isRegex("(?i)" + "\\.(js|css|png|jpg|jpeg|gif|ico|svg|woff2?)$"))
    && (site.kind.ProxySite? ==> BareWord(site.upstream) && env.isProxyUrl(site.upstream))
  }

  function Addr80(env: Env): ListenAddr { if env.isSocketAddr("80") then SocketAddr("80") else AnyAddress(80) }

  function BaseServer(env: Env, site: Site): Server {
    NEW_SERVER.(listen := [Listen(Addr80(env), false, false, false)], names := [ExactName(site.domain)])
  }

  function RootServer(env: Env, site: Site): Server {
    match site.kind
    case StaticSite => BaseServer(env, site).(root := Some(site.root), index := ["index.html", "index.htm"])
    case PhpSite => BaseServer(env, site).(root := Some(site.root), index := ["index.php", "index.html"])
    case WordpressSite => BaseServer(env, site).(root := Some(site.root), index := ["index.php"])
    case ProxySite => BaseServer(env, site)
  }

  function TryLocation(last: TryFile): Location {
    NewLocation(Prefix("/")).(tryFiles := Some([TryPath("$uri"), TryPath("$uri/"), last]))
  }

  function PhpHandler(site: Site): Location {
    NewLocation(Regex("\\.php$")).(
      handler := FastCgi(UnixSocket("/" + TrimStart(site.socket, {'/'})), [], Some("index.php"), 60))
  }

  function SiteLocations(site: Site): seq<Location> {
    match site.kind
    case StaticSite => [TryLocation(TryStatus(404))]
    case PhpSite => [TryLocation(TryStatus(404)), PhpHandler(site)]
    case WordpressSite => [
      TryLocation(TryPath("/index.php?$args")), PhpHandler(site),
      NewLocation(RegexInsensitive("\\.(js|css|png|jpg|jpeg|gif|ico|svg|woff2?)$"))]
    case ProxySite => [NewLocation(Prefix("/")).(handler := Proxy(site.upstream,
      [("Host", "$host"), ("X-Real-IP", "$remote_addr"), ("X-Forwarded-For", "$proxy_add_x_forwarded_for"),
       ("X-Forwarded-Proto", "$scheme")], 60, true, false))]
  }

  function SiteServer(env: Env, site: Site): Server { RootServer(env, site).(locations := SiteLocations(site)) }

  function RedirectServer(env: Env, site: Site): Server {
    BaseServer(env, site).(answer := Some(ReturnDirective(301, UrlBody("https://" + site.domain + "$request_uri"))))
  }

  function SiteServers(env: Env, site: Site): seq<Server> {
    [SiteServer(env, site)] + (if site.ssl then [RedirectServer(env, site)] else [])
  }

  lemma {:induction false} RunItemsAppend(env: Env, a: seq<Item>, b: seq<Item>, srv: Server)
    requires RunItems(env, a, srv).Some?
    ensures RunItems(env, a + b, srv) == RunItems(env, b, RunItems(env, a, srv).value)
  {
    hide RunItem;
    if a == [] {
      assert a + b == b;
    } else {
      RunItemsAppend(env, a[1..], b, RunItem(env, a[0], srv).value);
      assert (a + b)[1..] == a[1..] + b;
    }
  }

  lemma RunLeaf(env: Env, name: string, args: seq<string>, srv: Server, shape: Shape, next: Server)
    requires ServerShape(name) == Some(shape) && Takes(shape, args) && name != "location"
    requires ApplyServer(env, name, args, srv) == Some(next)
    ensures RunItem(env, Directive4(name, args), srv) == Some(next)
  {
    hide ServerShape, ApplyServer;
  }

  /** The digits a, b and c as a number, and the first two alone. */
  lemma DigitsRead(word: string, a: nat, b: nat, c: nat)
    requires 0 < a < 10 && b < 10 && c < 10 && 2 <= |word| <= 3
    requires word[0] == (48 + a) as char && word[1] == (48 + b) as char && (|word| == 3 ==> word[2] == (48 + c) as char)
    ensures Number(word, U16) == Some(if |word| == 2 then 10 * a + b else 100 * a + 10 * b + c)
  {
    var n := if |word| == 2 then 10 * a + b else 100 * a + 10 * b + c;
    assert (10 * a + b) / 10 == a && (100 * a + 10 * b + c) / 10 == 10 * a + b;
    assert Ascii.Decimal(a) == [48 + a];
    assert Ascii.Decimal(10 * a + b) == [48 + a] + [48 + b];
    assert Ascii.Decimal(n) == Ascii.Text(word);
    hide Ascii.ParseUnsigned, Ascii.Decimal, Ascii.Text;
    Ascii.DecimalReadsBack(n, U16);
  }

  lemma Numbers()
    ensures Number("80", U16) == Some(80) && Number("301", U16) == Some(301) && Number("404", U16) == Some(404)
  {
    hide Number;
    DigitsRead("80", 8, 0, 0);
    DigitsRead("301", 3, 0, 1);
    DigitsRead("404", 4, 0, 4);
  }

  lemma RunListen(env: Env, srv: Server)
    requires srv == NEW_SERVER
    ensures RunItem(env, Directive4("listen", ["80"]), srv)
         == Some(srv.(listen := [Listen(Addr80(env), false, false, false)]))
  {
    hide ParseListen, Addr80, ServerShape, RunItem;
    var listen := Listen(Addr80(env), false, false, false);
    ListensOn80(env);
    ListenTakesAny();
    assert [] + [listen] == [listen];
    assert ApplyServer(env, "listen", ["80"], srv) == Some(srv.(listen := [listen]));
    hide ApplyServer;
    RunLeaf(env, "listen", ["80"], srv, AnyWords, srv.(listen := [listen]));
  }

  lemma ListensOn80(env: Env)
    ensures ParseListen(env, ["80"]) == Some(Listen(Addr80(env), false, false, false))
  {
    Numbers();
    hide Number;
    assert ListenWord(["80"]) == "80";
  }

  lemma ListenTakesAny()
    ensures ServerShape("listen") == Some(AnyWords)
  {
  }

  lemma DomainIsExactName(d: string)
    requires IsValidDomain(d)
    ensures ParseServerNames([d]) == [ExactName(d)]
  {
    assert [d][1..] == [] && ParseServerNames([d]) == [ParseServerName(d)] + ParseServerNames([]);
    assert DomainChar(d[0]);
  }

  lemma RunServerName(env: Env, d: string, srv: Server)
    requires IsValidDomain(d) && srv.names == []
    ensures RunItem(env, Directive4("server_name", [d]), srv) == Some(srv.(names := [ExactName(d)]))
  {
    DomainIsExactName(d);
    hide ParseServerNames, IsValidDomain;
    assert [] + [ExactName(d)] == [ExactName(d)];
    RunLeaf(env, "server_name", [d], srv, AnyWords, srv.(names := [ExactName(d)]));
  }

  lemma RunCons(env: Env, item: Item, items: seq<Item>, srv: Server, next: Server)
    requires RunItem(env, item, srv) == Some(next)
    ensures RunItems(env, [item] + items, srv) == RunItems(env, items, next)
  {
    hide RunItem;
    assert ([item] + items)[1..] == items;
  }

  lemma RunNames(env: Env, site: Site, more: seq<Item>)
    requires IsValidDomain(site.domain)
    ensures RunItems(env, [Directive4("listen", ["80"]), Directive4("server_name", [site.domain])] + more, NEW_SERVER)
         == RunItems(env, more, BaseServer(env, site))
  {
    hide IsValidDomain, RunItems, RunItem, Addr80;
    var a, b := Directive4("listen", ["80"]), Directive4("server_name", [site.domain]);
    var s1 := NEW_SERVER.(listen := [Listen(Addr80(env), false, false, false)]);
    RunListen(env, NEW_SERVER);
    RunServerName(env, site.domain, s1);
    RunCons(env, a, [b] + more, NEW_SERVER, s1);
    RunCons(env, b, more, s1, BaseServer(env, site));
    assert [a, b] + more == [a] + ([b] + more);
  }

  lemma RunHead(env: Env, site: Site)
    requires Writable(env, site)
    ensures RunItems(env, HeadItems(site), NEW_SERVER) == Some(RootServer(env, site))
  {
    hide IsValidDomain, BareWord, SafeRoot, RunItem, Addr80;
    var base := BaseServer(env, site);
    if site.kind.ProxySite? {
      RunNames(env, site, []);
    } else {
      var root := Directive4("root", [site.root]);
      var words := RootServer(env, site).index;
      var index := Directive4("index", words);
      RunNames(env, site, [root, index]);
      RunLeaf(env, "root", [site.root], base, OneWord, base.(root := Some(site.root)));
      RunLeaf(env, "index", words, base.(root := Some(site.root)), AnyWords, RootServer(env, site));
      RunCons(env, root, [index], base, base.(root := Some(site.root)));
      RunCons(env, index, [], base.(root := Some(site.root)), RootServer(env, site));
      assert [root, index] == [root] + [index] && [index] == [index] + [];
    }
  }

  lemma RunCloudflare(env: Env, site: Site, srv: Server)
    ensures RunItems(env, Cloudflare(site), srv) == Some(srv)
  {
    if site.cloudflare {
      var item := Directive4("real_ip_header", ["CF-Connecting-IP"]);
      assert ServerShape("real_ip_header") == None;
      assert RunItem(env, item, srv) == Some(srv);
      RunCons(env, item, [], srv, srv);
      assert [item] == [item] + [];
    }
  }

  // ---- The locations of each kind ----

  lemma RunLocation(env: Env, args: seq<string>, body: seq<Line>, srv: Server, pattern: Pattern, loc: Location)
    requires |srv.locations| < MAX_LOCATION_BLOCKS && ParsePattern(env, args) == Some(pattern)
    requires RunLines(env, body, NewLocation(pattern)) == Some(loc) && loc.realm.None? && loc.auth.None?
    ensures RunItem(env, LocationItem(args, body), srv) == Some(srv.(locations := srv.locations + [loc]))
  {
    hide ParsePattern, RunLines;
    assert CloseLocation(loc) == loc;
    assert RunItem(env, LocationItem(args, body), srv) == Some(srv.(locations := srv.locations + [CloseLocation(loc)]));
  }

  lemma SlashPattern(env: Env)
    ensures ParsePattern(env, ["/"]) == Some(Prefix("/"))
  {
    NotPrefix("@", "/");
  }

  lemma NotPrefix(a: string, b: string)
    requires |a| >= 1 && |b| >= 1 && a[0] != b[0]
    ensures !(a <= b)
  {
  }

  lemma RunOneLine(env: Env, l: Line, ls: seq<Line>, loc: Location, next: Location)
    requires RunLine(env, l, loc) == Some(next)
    ensures RunLines(env, [l] + ls, loc) == RunLines(env, ls, next)
  {
    hide RunLine;
    assert ([l] + ls)[1..] == ls;
  }

  lemma TryFilesParse(a: string, b: string, c: string)
    ensures ParseTryFiles([a, b, c]) == [ParseTryFile(a), ParseTryFile(b), ParseTryFile(c)]
  {
    hide ParseTryFile;
    var three, two, one := [a, b, c], [b, c], [c];
    assert three[1..] == two && two[1..] == one && one[1..] == [];
    assert ParseTryFiles([]) == [];
    assert ParseTryFiles(one) == [ParseTryFile(c)] + [];
    assert ParseTryFiles(two) == [ParseTryFile(b)] + ParseTryFiles(one);
    assert ParseTryFiles(three) == [ParseTryFile(a)] + ParseTryFiles(two);
  }

  lemma TryWords()
    ensures ParseTryFile("$uri") == TryPath("$uri") && ParseTryFile("$uri/") == TryPath("$uri/")
    ensures ParseTryFile("=404") == TryStatus(404)
    ensures ParseTryFile("/index.php?$args") == TryPath("/index.php?$args")
  {
    Numbers();
    NotPrefix("=", "$uri");
    NotPrefix("@", "$uri");
    NotPrefix("=", "$uri/");
    NotPrefix("@", "$uri/");
    NotPrefix("=", "/index.php?$args");
    NotPrefix("@", "/index.php?$args");
    hide Number;
    assert "=404"[1..] == "404" && "=404"[..1] == "=";
  }

  lemma RunTryFiles(env: Env, last: string, srv: Server)
    requires |srv.locations| < MAX_LOCATION_BLOCKS && (last == "=404" || last == "/index.php?$args")
    ensures RunItem(env, LocationItem(["/"], [Directive8("try_files", ["$uri", "$uri/", last])]), srv)
         == Some(srv.(locations := srv.locations + [TryLocation(ParseTryFile(last))]))
  {
    var l := Directive8("try_files", ["$uri", "$uri/", last]);
    var loc := NewLocation(Prefix("/"));
    TryWords();
    TryFilesParse("$uri", "$uri/", last);
    hide ParseTryFiles, ParseTryFile;
    assert LocationShape("try_files") == Some(AnyWords);
    assert RunLine(env, l, loc)
        == Some(loc.(tryFiles := Some([TryPath("$uri"), TryPath("$uri/"), ParseTryFile(last)])));
    RunOneLine(env, l, [], loc, TryLocation(ParseTryFile(last)));
    assert [l] == [l] + [];
    assert RunLines(env, [], TryLocation(ParseTryFile(last))) == Some(TryLocation(ParseTryFile(last)));
    SlashPattern(env);
    RunLocation(env, ["/"], [l], srv, Prefix("/"), TryLocation(ParseTryFile(last)));
  }

  lemma RunPhp(env: Env, site: Site, srv: Server)
    requires |srv.locations| < MAX_LOCATION_BLOCKS && env.isRegex("\\.php$")
    ensures RunItem(env, PhpLocation(site), srv) == Some(srv.(locations := srv.locations + [PhpHandler(site)]))
  {
    var pass, index := Directive8("fastcgi_pass", ["unix:" + site.socket]), Directive8("fastcgi_index", ["index.php"]);
    var loc := NewLocation(Regex("\\.php$"));
    var up := UnixSocket("/" + TrimStart(site.socket, {'/'}));
    var mid := loc.(handler := FastCgi(up, [], None, 60));
    assert ("unix:" + site.socket)[5..] == site.socket;
    hide TrimStart;
    assert ParseFastCgiUpstream(env, "unix:" + site.socket) == Some(up);
    hide ParseFastCgiUpstream;
    assert LocationShape("fastcgi_pass") == Some(OneWord) && LocationShape("fastcgi_index") == Some(OneWord);
    assert RunLine(env, pass, loc) == Some(mid);
    assert RunLine(env, index, mid) == Some(PhpHandler(site));
    hide RunLine, LocationShape;
    RunOneLine(env, pass, [index], loc, mid);
    RunOneLine(env, index, [], mid, PhpHandler(site));
    assert [pass, index] == [pass] + [index] && [index] == [index] + [];
    assert RunLines(env, [], PhpHandler(site)) == Some(PhpHandler(site));
    hide RunLines;
    RunLocation(env, ["~", "\\.php$"], [pass, index], srv, Regex("\\.php$"), PhpHandler(site));
  }

  lemma RunExpires(env: Env, srv: Server)
    requires |srv.locations| < MAX_LOCATION_BLOCKS
    requires env.isRegex("(?i)" + "\\.(js|css|png|jpg|jpeg|gif|ico|svg|woff2?)$")
    ensures var re := "\\.(js|css|png|jpg|jpeg|gif|ico|svg|woff2?)$";
      RunItem(env, LocationItem(["~*", re], [Directive8("expires", ["max"])]), srv)
        == Some(srv.(locations := srv.locations + [NewLocation(RegexInsensitive(re))]))
  {
    var re := "\\.(js|css|png|jpg|jpeg|gif|ico|svg|woff2?)$";
    var l, loc := Directive8("expires", ["max"]), NewLocation(RegexInsensitive(re));
    assert LocationShape("expires") == None;
    RunOneLine(env, l, [], loc, loc);
    assert [l] == [l] + [];
    assert RunLines(env, [], loc) == Some(loc);
    hide RunLines;
    RunLocation(env, ["~*", re], [l], srv, RegexInsensitive(re), loc);
  }

  lemma RunSetHeader(env: Env, key: string, value: string, loc: Location)
    requires loc.handler.Proxy?
    ensures RunLine(env, Directive8("proxy_set_header", [key, value]), loc)
         == Some(loc.(handler := loc.handler.(setHeaders := loc.handler.setHeaders + [(key, value)])))
  {
    assert LocationShape("proxy_set_header") == Some(TwoWords);
  }

  lemma RunProxyPass(env: Env, url: string, loc: Location)
    requires env.isProxyUrl(url)
    ensures RunLine(env, Directive8("proxy_pass", [url]), loc) == Some(loc.(handler := Proxy(url, [], 60, true, false)))
  {
    assert LocationShape("proxy_pass") == Some(OneWord);
  }

  function Proxied(url: string, headers: seq<(string, string)>): Location {
    NewLocation(Prefix("/")).(handler := Proxy(url, headers, 60, true, false))
  }

  lemma {:induction false} RunSetHeaders(env: Env, url: string, done: seq<(string, string)>,
                                         pairs: seq<(string, string)>)
    ensures RunLines(env, HeaderLines(pairs), Proxied(url, done)) == Some(Proxied(url, done + pairs))
    decreases |pairs|
  {
    hide RunLine;
    if pairs == [] {
      assert done + pairs == done;
    } else {
      RunSetHeader(env, pairs[0].0, pairs[0].1, Proxied(url, done));
      RunSetHeaders(env, url, done + [pairs[0]], pairs[1..]);
      assert done + [pairs[0]] + pairs[1..] == done + pairs;
      RunOneLine(env, Directive8("proxy_set_header", [pairs[0].0, pairs[0].1]), HeaderLines(pairs[1..]),
                 Proxied(url, done), Proxied(url, done + [pairs[0]]));
    }
  }

  function HeaderLines(pairs: seq<(string, string)>): seq<Line> {
    if pairs == [] then []
    else [Directive8("proxy_set_header", [pairs[0].0, pairs[0].1])] + HeaderLines(pairs[1..])
  }

  lemma FourHeaderLines(a: (string, string), b: (string, string), c: (string, string), d: (string, string))
    ensures HeaderLines([a, b, c, d]) == [
      Directive8("proxy_set_header", [a.0, a.1]), Directive8("proxy_set_header", [b.0, b.1]),
      Directive8("proxy_set_header", [c.0, c.1]), Directive8("proxy_set_header", [d.0, d.1])]
  {
    assert [a, b, c, d][1..] == [b, c, d] && [b, c, d][1..] == [c, d] && [c, d][1..] == [d] && [d][1..] == [];
    assert HeaderLines([d]) == [Directive8("proxy_set_header", [d.0, d.1])] + HeaderLines([]);
    assert HeaderLines([c, d]) == [Directive8("proxy_set_header", [c.0, c.1])] + HeaderLines([d]);
    assert HeaderLines([b, c, d]) == [Directive8("proxy_set_header", [b.0, b.1])] + HeaderLines([c, d]);
    assert HeaderLines([a, b, c, d]) == [Directive8("proxy_set_header", [a.0, a.1])] + HeaderLines([b, c, d]);
  }

  lemma RunProxy(env: Env, site: Site, srv: Server)
    requires |srv.locations| < MAX_LOCATION_BLOCKS && site.kind.ProxySite? && env.isProxyUrl(site.upstream)
    ensures RunItem(env, LocationItems(site)[0], srv) == Some(srv.(locations := srv.locations + SiteLocations(site)))
  {
    var (a, b, c, d) := (("Host", "$host"), ("X-Real-IP", "$remote_addr"),
      ("X-Forwarded-For", "$proxy_add_x_forwarded_for"), ("X-Forwarded-Proto", "$scheme"));
    var loc, body := NewLocation(Prefix("/")), LocationItems(site)[0].body;
    var pass := Directive8("proxy_pass", [site.upstream]);
    FourHeaderLines(a, b, c, d);
    assert body == [pass] + HeaderLines([a, b, c, d]);
    RunProxyPass(env, site.upstream, loc);
    hide RunLine, HeaderLines;
    RunOneLine(env, pass, HeaderLines([a, b, c, d]), loc, Proxied(site.upstream, []));
    RunSetHeaders(env, site.upstream, [], [a, b, c, d]);
    assert [] + [a, b, c, d] == [a, b, c, d];
    hide RunLines;
    SlashPattern(env);
    RunLocation(env, ["/"], body, srv, Prefix("/"), Proxied(site.upstream, [a, b, c, d]));
  }

  lemma RunLocations(env: Env, site: Site, srv: Server)
    requires Writable(env, site) && srv.locations == []
    ensures RunItems(env, LocationItems(site), srv) == Some(srv.(locations := SiteLocations(site)))
  {
    TryWords();
    hide RunItem, BareWord, SafeRoot, IsValidDomain, ParseTryFile, TrimStart, RunItems, Directive8;
    var items := LocationItems(site);
    NoItems(env, srv.(locations := SiteLocations(site)));
    assert forall l: Location :: srv.locations + [l] == [l];
    assert forall l: Location, m: Location :: [l] + [m] == [l, m];
    assert forall l: Location, m: Location, n: Location :: [l, m] + [n] == [l, m, n];
    assert srv.locations + SiteLocations(site) == SiteLocations(site);
    match site.kind {
      case StaticSite =>
        RunTryFiles(env, "=404", srv);
        RunCons(env, items[0], [], srv, srv.(locations := SiteLocations(site)));
        assert items == [items[0]] + [];
      case PhpSite =>
        var s1 := srv.(locations := [TryLocation(TryStatus(404))]);
        RunTryFiles(env, "=404", srv);
        RunPhp(env, site, s1);
        RunCons(env, items[0], [items[1]], srv, s1);
        RunCons(env, items[1], [], s1, srv.(locations := SiteLocations(site)));
        assert items == [items[0]] + [items[1]] && [items[1]] == [items[1]] + [];
      case WordpressSite =>
        var s1 := srv.(locations := [TryLocation(TryPath("/index.php?$args"))]);
        var s2 := srv.(locations := [TryLocation(TryPath("/index.php?$args")), PhpHandler(site)]);
        RunTryFiles(env, "/index.php?$args", srv);
        RunPhp(env, site, s1);
        RunExpires(env, s2);
        RunCons(env, items[0], [items[1], items[2]], srv, s1);
        RunCons(env, items[1], [items[2]], s1, s2);
        RunCons(env, items[2], [], s2, srv.(locations := SiteLocations(site)));
        assert items == [items[0]] + [items[1], items[2]] && [items[1], items[2]] == [items[1]] + [items[2]];
        assert [items[2]] == [items[2]] + [];
      case ProxySite =>
        RunProxy(env, site, srv);
        RunCons(env, items[0], [], srv, srv.(locations := SiteLocations(site)));
        assert items == [items[0]] + [];
    }
  }

  lemma NoItems(env: Env, srv: Server)
    ensures RunItems(env, [], srv) == Some(srv)
  {
  }

  lemma RunSite(env: Env, site: Site)
    requires Writable(env, site)
    ensures RunItems(env, SiteItems(site), NEW_SERVER) == Some(SiteServer(env, site))
  {
    hide Writable, RunItems, LocationItems, SiteLocations;
    var root := RootServer(env, site);
    RunHead(env, site);
    RunCloudflare(env, site, root);
    RunLocations(env, site, root);
    RunItemsAppend(env, HeadItems(site), Cloudflare(site), NEW_SERVER);
    RunItemsAppend(env, HeadItems(site) + Cloudflare(site), LocationItems(site), NEW_SERVER);
  }

  lemma RunReturn(env: Env, url: string, srv: Server)
    ensures RunItem(env, Directive4("return", ["301", url]), srv)
         == Some(srv.(answer := Some(ReturnDirective(301, UrlBody(url)))))
  {
    Numbers();
    hide Number;
    assert ServerShape("return") == Some(WordMaybe);
    assert ParseReturn(["301", url]) == Some(ReturnDirective(301, UrlBody(url)));
    hide ParseReturn;
    RunLeaf(env, "return", ["301", url], srv, WordMaybe, srv.(answer := Some(ReturnDirective(301, UrlBody(url)))));
  }

  lemma RunRedirect(env: Env, site: Site)
    requires IsValidDomain(site.domain)
    ensures RunItems(env, RedirectItems(site), NEW_SERVER) == Some(RedirectServer(env, site))
  {
    hide IsValidDomain, RunItem, RunItems, Directive4, BaseServer;
    var url := "https://" + site.domain + "$request_uri";
    var back := Directive4("return", ["301", url]);
    RunNames(env, site, [back]);
    RunReturn(env, url, BaseServer(env, site));
    RunCons(env, back, [], BaseServer(env, site), RedirectServer(env, site));
    NoItems(env, RedirectServer(env, site));
    assert RedirectItems(site) == [Directive4("listen", ["80"]), Directive4("server_name", [site.domain])] + [back];
    assert [back] == [back] + [];
  }

  // ---- Every word written is a bare word ----

  predicate Clear(s: string) { forall i | 0 <= i < |s| :: !EndsBare(s[i]) }

  lemma DomainIsBare(d: string)
    requires IsValidDomain(d)
    ensures BareWord(d) && BareWord("https://" + d + "$request_uri")
  {
    forall i | 0 <= i < |d| ensures !EndsBare(d[i]) { assert DomainChar(d[i]); }
    assert DomainChar(d[0]);
    var a, b := "https://", "$request_uri";
    assert Clear(a) && Clear(b);
    var s := a + d + b;
    forall i | 0 <= i < |s| ensures !EndsBare(s[i]) {
      assert s[i] == if i < |a| then a[i] else if i < |a| + |d| then d[i - |a|] else b[i - |a| - |d|];
    }
    assert s[0] == 'h';
  }

  lemma HeadWords()
    ensures BareWord("listen") && BareWord("80") && BareWord("server_name") && BareWord("root")
  {
  }

  lemma ReturnWords()
    ensures BareWord("return") && BareWord("301") && BareWord("index")
  {
  }

  lemma IndexWords()
    ensures BareWord("index.html") && BareWord("index.htm") && BareWord("index.php")
  {
  }

  lemma CloudflareWords()
    ensures BareWord("real_ip_header") && BareWord("CF-Connecting-IP")
  {
  }

  lemma TryFilesWords()
    ensures BareWord("/") && BareWord("try_files") && BareWord("$uri") && BareWord("$uri/") && BareWord("=404")
  {
  }

  lemma FallbackWords()
    ensures BareWord("/index.php?$args")
  {
  }

  lemma PhpWords()
    ensures BareWord("~") && BareWord("\\.php$") && BareWord("fastcgi_pass") && BareWord("fastcgi_index")
  {
  }

  lemma ExpiresWords()
    ensures BareWord("~*") && BareWord("expires") && BareWord("max")
  {
  }

  lemma ExtensionWords()
    ensures BareWord("\\.(js|css|png|jpg|jpeg|gif|ico|svg|woff2?)$")
  {
  }

  lemma ProxyWords()
    ensures BareWord("proxy_pass") && BareWord("proxy_set_header") && BareWord("Host") && BareWord("$host")
  {
  }

  lemma RealIpWords()
    ensures BareWord("X-Real-IP") && BareWord("$remote_addr") && BareWord("$scheme")
  {
  }

  lemma ForwardedForWords()
    ensures BareWord("X-Forwarded-For")
  {
  }

  lemma AddForwardedForWords()
    ensures BareWord("$proxy_add_x_forwarded_for")
  {
  }

  lemma ForwardedProtoWords()
    ensures BareWord("X-Forwarded-Proto")
  {
  }

  lemma GoodLeaf(name: string, args: seq<string>)
    requires BareWord(name) && BareWords(args)
    ensures GoodItem(Directive4(name, args)) && GoodLine(Directive8(name, args))
  {
    hide BareWord, BareWords;
  }

  lemma GoodHead(env: Env, site: Site)
    requires Writable(env, site)
    ensures forall item | item in HeadItems(site) :: GoodItem(item)
  {
    HeadWords();
    IndexWords();
    ReturnWords();
    DomainIsBare(site.domain);
    hide BareWord, SafeRoot, GoodItem, GoodLine, Directive4, IsValidDomain;
    GoodLeaf("listen", ["80"]);
    GoodLeaf("server_name", [site.domain]);
    GoodLeaf("index", ["index.html", "index.htm"]);
    GoodLeaf("index", ["index.php", "index.html"]);
    GoodLeaf("index", ["index.php"]);
    if !site.kind.ProxySite? { GoodLeaf("root", [site.root]); }
  }

  lemma GoodCloudflare(site: Site)
    ensures forall item | item in Cloudflare(site) :: GoodItem(item)
  {
    CloudflareWords();
    hide BareWord, GoodItem;
    GoodLeaf("real_ip_header", ["CF-Connecting-IP"]);
  }

  lemma GoodTryFiles(last: string)
    requires BareWord(last)
    ensures GoodItem(LocationItem(["/"], [Directive8("try_files", ["$uri", "$uri/", last])]))
  {
    TryFilesWords();
    hide BareWord, GoodLine;
    GoodLeaf("try_files", ["$uri", "$uri/", last]);
  }

  lemma GoodPhp(env: Env, site: Site)
    requires Writable(env, site) && (site.kind.PhpSite? || site.kind.WordpressSite?)
    ensures GoodItem(PhpLocation(site))
  {
    PhpWords();
    IndexWords();
    hide BareWord, GoodLine, SafeRoot, IsValidDomain;
    GoodLeaf("fastcgi_pass", ["unix:" + site.socket]);
    GoodLeaf("fastcgi_index", ["index.php"]);
  }

  lemma GoodExpires()
    ensures GoodItem(LocationItem(["~*", "\\.(js|css|png|jpg|jpeg|gif|ico|svg|woff2?)$"],
      [Directive8("expires", ["max"])]))
  {
    ExpiresWords();
    ExtensionWords();
    hide BareWord, GoodLine;
    GoodLeaf("expires", ["max"]);
  }

  lemma GoodHeaderLines()
    ensures GoodLine(Directive8("proxy_set_header", ["Host", "$host"]))
    ensures GoodLine(Directive8("proxy_set_header", ["X-Real-IP", "$remote_addr"]))
    ensures GoodLine(Directive8("proxy_set_header", ["X-Forwarded-For", "$proxy_add_x_forwarded_for"]))
    ensures GoodLine(Directive8("proxy_set_header", ["X-Forwarded-Proto", "$scheme"]))
  {
    ProxyWords();
    RealIpWords();
    ForwardedForWords();
    AddForwardedForWords();
    ForwardedProtoWords();
    hide BareWord, GoodLine;
    GoodLeaf("proxy_set_header", ["Host", "$host"]);
    GoodLeaf("proxy_set_header", ["X-Real-IP", "$remote_addr"]);
    GoodLeaf("proxy_set_header", ["X-Forwarded-For", "$proxy_add_x_forwarded_for"]);
    GoodLeaf("proxy_set_header", ["X-Forwarded-Proto", "$scheme"]);
  }

  lemma GoodProxy(env: Env, site: Site)
    requires Writable(env, site) && site.kind.ProxySite?
    ensures GoodItem(LocationItems(site)[0])
  {
    ProxyWords();
    TryFilesWords();
    GoodHeaderLines();
    hide BareWord, GoodLine, IsValidDomain, Directive8;
    GoodLeaf("proxy_pass", [site.upstream]);
    assert BareWords(["/"]);
  }

  lemma GoodLocations(env: Env, site: Site)
    requires Writable(env, site)
    ensures forall item | item in LocationItems(site) :: GoodItem(item)
  {
    TryFilesWords();
    FallbackWords();
    hide BareWord, GoodItem, PhpLocation, Writable, Directive8;
    GoodExpires();
    GoodTryFiles("=404");
    GoodTryFiles("/index.php?$args");
    match site.kind {
      case StaticSite =>
      case PhpSite => GoodPhp(env, site);
      case WordpressSite => GoodPhp(env, site);
      case ProxySite =>
        GoodProxy(env, site);
        assert LocationItems(site) == [LocationItems(site)[0]];
    }
  }

  lemma GoodSite(env: Env, site: Site)
    requires Writable(env, site)
    ensures forall item | item in SiteItems(site) :: GoodItem(item)
  {
    GoodHead(env, site);
    GoodCloudflare(site);
    GoodLocations(env, site);
    hide GoodItem, HeadItems, Cloudflare, LocationItems, Writable;
  }

  lemma GoodRedirect(site: Site)
    requires IsValidDomain(site.domain)
    ensures forall item | item in RedirectItems(site) :: GoodItem(item)
  {
    HeadWords();
    ReturnWords();
    DomainIsBare(site.domain);
    hide BareWord, GoodItem, GoodLine, IsValidDomain, Directive4;
    GoodLeaf("listen", ["80"]);
    GoodLeaf("server_name", [site.domain]);
    GoodLeaf("return", ["301", "https://" + site.domain + "$request_uri"]);
  }

  // ---- The written file read back ----

  /** The tokens of a written file: those of its blocks, one after the other. */
  lemma ConfigTokenizes(env: Env, site: Site)
    requires Writable(env, site)
    ensures Tokens(GenerateConfig(site))
         == ServerTokens(SiteItems(site)) + (if site.ssl then ServerTokens(RedirectItems(site)) + [] else [])
  {
    assert IsValidDomain(site.domain);
    GoodSite(env, site);
    GoodRedirect(site);
    assert Tokens("") == [];
    hide Tokens, ServerText, ServerTokens, SiteItems, RedirectItems, GoodItem, Writable, IsValidDomain;
    var second := ServerText(RedirectItems(site));
    assert second + "" == second && ServerText(SiteItems(site)) + "" == ServerText(SiteItems(site));
    if site.ssl {
      ServerTokenizes(RedirectItems(site), "");
      OneStep(Blank('\n'), second);
      assert [] + Tokens(second) == Tokens(second);
      ServerTokenizes(SiteItems(site), "\n" + second);
    } else {
      ServerTokenizes(SiteItems(site), "");
    }
  }

  /** What the API writes, the parser reads: the include loop finds the site's server block, and with
      SSL the redirect block behind it, and nothing else. */
  lemma GeneratedConfigReadsBack(env: Env, site: Site, earlier: seq<Server>)
    requires Writable(env, site) && |earlier| + |SiteServers(env, site)| <= MAX_SERVER_BLOCKS
    ensures ScanServers(env, Tokens(GenerateConfig(site)), earlier) == Some(earlier + SiteServers(env, site))
  {
    ConfigTokenizes(env, site);
    RunSite(env, site);
    assert IsValidDomain(site.domain);
    RunRedirect(env, site);
    var mine, redirect := SiteServer(env, site), RedirectServer(env, site);
    forall servers: seq<Server> ensures ScanServers(env, [], servers) == Some(servers) {}
    hide Tokens, GenerateConfig, ServerTokens, SiteItems, RedirectItems, RunItems, SiteServer, RedirectServer, Writable,
      IsValidDomain, ScanServers;
    if site.ssl {
      ServerScans(env, SiteItems(site), ServerTokens(RedirectItems(site)) + [], earlier);
      ServerScans(env, RedirectItems(site), [], earlier + [mine]);
      assert earlier + [mine] + [redirect] == earlier + ([mine] + [redirect]);
    } else {
      ServerScans(env, SiteItems(site), [], earlier);
      assert [mine] + [] == [mine];
    }
  }

  // ---- Routing to a written site ----

  lemma DomainCharsArePlain(domain: string, host: string)
    requires IsValidDomain(domain) && LowerText(host) == LowerText(domain)
    ensures |host| == |domain| > 0
    ensures forall i | 0 <= i < |host| :: host[i] != ':' && host[i] !in ConfigWords.SPACES
  {
    assert |LowerText(host)| == |LowerText(domain)|;
    forall i | 0 <= i < |host| ensures host[i] != ':' && host[i] !in ConfigWords.SPACES {
      assert DomainChar(domain[i]) && LowerText(host)[i] == LowerText(domain)[i];
    }
  }

  lemma HostNames(domain: string, host: string, port: string)
    requires IsValidDomain(domain) && LowerText(host) == LowerText(domain)
    requires port == "" || port[0] == ':'
    ensures HostOnly(host + port) == host
  {
    DomainCharsArePlain(domain, host);
    hide IsValidDomain, LowerText, HostOnly;
    assert "" + host + "" == host;
    PortIsDropped("", host, "", port);
  }

  /** The written site answers for its domain: `select_server` picks the site's own block, unless an
      earlier block lists the same exact name. The redirect block behind it has the same name, so no
      Host header of the domain ever reaches it. */
  lemma WrittenSiteIsSelected(env: Env, site: Site, earlier: seq<Server>, later: seq<Server>, host: string,
                              port: string, i: nat)
    requires IsValidDomain(site.domain) && LowerText(host) == LowerText(site.domain)
    requires port == "" || port[0] == ':'
    requires IsSelectedServer(earlier + SiteServers(env, site) + later, HostOnly(host + port), i)
    ensures i <= |earlier|
    ensures i == |earlier| <==> !exists j :: 0 <= j < |earlier| && HasName(earlier[j], 0, host)
  {
    HostNames(site.domain, host, port);
    var all, n := earlier + SiteServers(env, site) + later, |earlier|;
    assert all[n] == SiteServer(env, site);
    assert ExactName(site.domain) in all[n].names;
    hide SiteServer, RedirectServer, HasName, IsValidDomain, LowerText;
    SiteHasItsName(all[n], site.domain, host);
    assert Fit(all[n], host) == 0;
    assert Fit(all[i], host) == 0 && i <= n;
    forall j | 0 <= j < n ensures all[j] == earlier[j] {}
    if i < n {
      assert HasName(earlier[i], 0, host);
    } else {
      forall j | 0 <= j < n ensures !HasName(earlier[j], 0, host) {
        assert Fit(all[i], host) < Fit(all[j], host);
      }
    }
  }

  lemma SiteHasItsName(srv: Server, domain: string, host: string)
    requires ExactName(domain) in srv.names && LowerText(host) == LowerText(domain)
    ensures HasName(srv, 0, host)
  {
    assert NameRank(ExactName(domain)) == 0 && NameMatches(ExactName(domain), host);
  }
}

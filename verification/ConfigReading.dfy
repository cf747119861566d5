/** Reading printed directives: what it means that tokens lead a reader from one value to the next. */
module ConfigReading {
  import opened Common
  import opened Tokenizer
  import opened ConfigTypes
  import opened ConfigGrammar
  import opened ConfigLocality
  import opened ConfigInsertion

  // ---- One directive ----

  lemma ArgsRead(shape: Shape, args: seq<string>, rest: seq<Token>)
    ensures Args(shape, Words(args) + ([Semicolon] + rest))
         == if Takes(shape, args) then Some((args, |args| + 1)) else None
    ensures SkipUnknown(Words(args) + ([Semicolon] + rest)) == |args| + 1
    ensures Drop(Words(args) + ([Semicolon] + rest), |args| + 1) == rest
  {
    var ts := Words(args) + ([Semicolon] + rest);
    LeadingOfWords(args, [Semicolon] + rest);
    hide Leading;
    assert ts[|args|] == Semicolon;
    assert Texts(ts[..|args|]) == args;
    assert ts[|args| + 1..] == rest;
  }

  /** A directive that is taken whole leaves the block loop to the tokens behind it. */
  lemma StepParses<S>(d: Directive<S>, ts: seq<Token>, s: S, next: S, n: nat, rest: seq<Token>)
    requires ts != [] && ts[0].Word? && d(ts[0].text, ts[1..], s) == Some((next, n)) && Drop(ts, n + 1) == rest
    ensures Block(d, ts, s) == After(n + 1, Block(d, rest, next))
  {
    DropDrop(ts, 1, n);
    hide Block;
    BlockStep(d, ts, s);
  }

  /** A directive's own tokens are taken whole. */
  lemma OwnTokensParse<S>(d: Directive<S>, tokens: seq<Token>, rest: seq<Token>, name: string, after: seq<Token>,
                          s: S, next: S)
    requires tokens != [] && (tokens + rest)[0] == Word(name) && (tokens + rest)[1..] == after
    requires d(name, after, s) == Some((next, |tokens| - 1))
    ensures Block(d, tokens + rest, s) == After(|tokens|, Block(d, rest, next))
  {
    CutAppend(tokens, rest);
    hide Block, Drop;
    StepParses(d, tokens + rest, s, next, |tokens| - 1, rest);
  }

  lemma BlockEnds<S>(d: Directive<S>, rest: seq<Token>, s: S)
    ensures Block(d, [CloseBrace] + rest, s) == Some((s, 1))
  {
  }

  // ---- A reader, and what leads it on ----

  /** A reader of a part of a file: the value so far and the tokens left give the value read and how many
      tokens it took. */
  type Reader<!S> = (seq<Token>, S) -> Option<(S, nat)>

  /** The tokens `ts`, whatever is behind them, take the reader from value s to value `next`. */
  ghost predicate Leads<S(!new)>(read: Reader<S>, ts: seq<Token>, s: S, next: S) {
    forall rest: seq<Token> :: LeadsBefore(read, ts, s, next, rest)
  }

  ghost predicate LeadsBefore<S>(read: Reader<S>, ts: seq<Token>, s: S, next: S, rest: seq<Token>) {
    read(ts + rest, s) == After(|ts|, read(rest, next))
  }

  lemma LeadsNowhere<S(!new)>(read: Reader<S>, s: S)
    ensures Leads(read, [], s, s)
  {
    forall rest: seq<Token> ensures LeadsBefore(read, [], s, s, rest) { assert [] + rest == rest; }
  }

  lemma LeadsOn<S(!new)>(read: Reader<S>, a: seq<Token>, b: seq<Token>, s: S, mid: S, end: S)
    requires Leads(read, a, s, mid) && Leads(read, b, mid, end)
    ensures Leads(read, a + b, s, end)
  {
    forall rest: seq<Token> ensures LeadsBefore(read, a + b, s, end, rest) {
      Assoc(a, b, rest);
      assert LeadsBefore(read, a, s, mid, b + rest) && LeadsBefore(read, b, mid, end, rest);
    }
  }

  lemma LeadsThrough<S(!new)>(read: Reader<S>, a: seq<Token>, b: seq<Token>, c: seq<Token>, s0: S, s1: S, s2: S, s3: S)
    requires Leads(read, a, s0, s1) && Leads(read, b, s1, s2) && Leads(read, c, s2, s3)
    ensures Leads(read, a + b + c, s0, s3)
  {
    hide Leads;
    LeadsOn(read, a, b, s0, s1, s2);
    LeadsOn(read, a + b, c, s0, s2, s3);
  }

  lemma LeadsTo<S(!new)>(read: Reader<S>, ts: seq<Token>, s: S, next: S, rest: seq<Token>)
    requires Leads(read, ts, s, next)
    ensures read(ts + rest, s) == After(|ts|, read(rest, next))
  {
    assert LeadsBefore(read, ts, s, next, rest);
  }

  /** The tokens of a list of things, each printed the same way. */
  function Each<T>(show: T -> seq<Token>, items: seq<T>): seq<Token> {
    if items == [] then [] else Each(show, items[..|items| - 1]) + show(items[|items| - 1])
  }

  /** If every thing leads from the value with those before it to the value with it, the list leads from
      the first value to the last. */
  lemma {:induction false} EachLeads<S(!new), T>(read: Reader<S>, show: T -> seq<Token>, at: nat -> S, items: seq<T>)
    requires forall k: nat | k < |items| :: Leads(read, show(items[k]), at(k), at(k + 1))
    ensures Leads(read, Each(show, items), at(0), at(|items|))
    decreases |items|
  {
    hide Leads;
    if items == [] {
      LeadsNowhere(read, at(0));
    } else {
      var n := |items| - 1;
      assert forall k: nat | k < n :: items[..n][k] == items[k];
      EachLeads(read, show, at, items[..n]);
      LeadsOn(read, Each(show, items[..n]), show(items[n]), at(0), at(n), at(n + 1));
    }
  }

  /** The first k things of a list. */
  function FirstOf<T>(items: seq<T>, k: nat): seq<T> { if k <= |items| then items[..k] else items }

  lemma OneMoreOf<T>(items: seq<T>, k: nat)
    requires k < |items|
    ensures FirstOf(items, k + 1) == FirstOf(items, k) + [items[k]] && FirstOf(items, |items|) == items
  {
  }

  // ---- Lines ----

  /** A simple directive. */
  function Line(name: string, args: seq<string>): seq<Token> { [Word(name)] + (Words(args) + [Semicolon]) }

  lemma LineParts(name: string, args: seq<string>, rest: seq<Token>)
    ensures var ts := Line(name, args) + rest;
      ts != [] && ts[0] == Word(name) && ts[1..] == Words(args) + ([Semicolon] + rest)
    ensures |Line(name, args)| == |args| + 2
  {
    Assoc(Words(args), [Semicolon], rest);
    Assoc([Word(name)], Words(args) + [Semicolon], rest);
  }

  function BlockReader<S>(d: Directive<S>): Reader<S> { (ts, s) => Block(d, ts, s) }

  lemma LineLeads<S(!new)>(d: Directive<S>, name: string, args: seq<string>, s: S, next: S)
    requires forall rest: seq<Token> ::
      d(name, Words(args) + ([Semicolon] + rest), s) == Some((next, |args| + 1))
    ensures Leads(BlockReader(d), Line(name, args), s, next)
  {
    hide Block, Words;
    forall rest: seq<Token> ensures LeadsBefore(BlockReader(d), Line(name, args), s, next, rest) {
      LineParts(name, args, rest);
      OwnTokensParse(d, Line(name, args), rest, name, Words(args) + ([Semicolon] + rest), s, next);
    }
  }

  /** The words of a simple directive, read. */
  lemma SimpleReads<S>(shape: Shape, args: seq<string>, rest: seq<Token>, apply: seq<string> --> Option<S>, next: S)
    requires forall a | Takes(shape, a) :: apply.requires(a)
    requires Takes(shape, args) && apply(args) == Some(next)
    ensures Simple(shape, Words(args) + ([Semicolon] + rest), apply) == Some((next, |args| + 1))
  {
    ArgsRead(shape, args, rest);
    hide Args, Words;
  }

  lemma LocationLine(env: Env, name: string, args: seq<string>, loc: Location, next: Location)
    requires LocationShape(name).Some? && Takes(LocationShape(name).value, args)
    requires ApplyLocation(env, name, args, loc) == Some(next)
    ensures Leads(BlockReader(LocationDirective(env)), Line(name, args), loc, next)
  {
    var shape := LocationShape(name).value;
    hide LocationShape, ApplyLocation, Leads, Simple;
    forall rest: seq<Token>
      ensures LocationDirective(env)(name, Words(args) + ([Semicolon] + rest), loc) == Some((next, |args| + 1))
    {
      SimpleReads(shape, args, rest, a requires Takes(shape, a) => ApplyLocation(env, name, a, loc), next);
    }
    LineLeads(LocationDirective(env), name, args, loc, next);
  }

  lemma ServerLine(env: Env, name: string, args: seq<string>, srv: Server, next: Server)
    requires name != "location" && ServerShape(name).Some? && Takes(ServerShape(name).value, args)
    requires ApplyServer(env, name, args, srv) == Some(next)
    ensures Leads(BlockReader(ServerDirective(env)), Line(name, args), srv, next)
  {
    var shape := ServerShape(name).value;
    hide ServerShape, ApplyServer, Leads, Simple;
    forall rest: seq<Token>
      ensures ServerDirective(env)(name, Words(args) + ([Semicolon] + rest), srv) == Some((next, |args| + 1))
    {
      SimpleReads(shape, args, rest, a requires Takes(shape, a) => ApplyServer(env, name, a, srv), next);
    }
    LineLeads(ServerDirective(env), name, args, srv, next);
  }

  lemma HttpLine(env: Env, path: string, name: string, args: seq<string>, h: Http, next: Http)
    requires name !in ["upstream", "server", "include"] && HttpShape(name).Some? && Takes(HttpShape(name).value, args)
    requires ApplyHttp(env, name, args, h) == Some(next)
    ensures Leads(BlockReader(HttpDirective(env, path)), Line(name, args), h, next)
  {
    var shape := HttpShape(name).value;
    hide HttpShape, ApplyHttp, Leads, Simple;
    forall rest: seq<Token>
      ensures HttpDirective(env, path)(name, Words(args) + ([Semicolon] + rest), h) == Some((next, |args| + 1))
    {
      SimpleReads(shape, args, rest, a requires Takes(shape, a) => ApplyHttp(env, name, a, h), next);
    }
    LineLeads(HttpDirective(env, path), name, args, h, next);
  }

  // ---- Groups and the root ----

  function GroupReader(): Reader<UpstreamGroup> { (ts, g) => GroupBlock(ts, g) }

  lemma GroupLine(name: string, args: seq<string>, g: UpstreamGroup, next: UpstreamGroup)
    requires GroupShape(name).Some? && Takes(GroupShape(name).value, args)
    requires ApplyGroup(name, args, g) == Some(next)
    ensures Leads(GroupReader(), Line(name, args), g, next)
  {
    var shape := GroupShape(name).value;
    hide GroupShape, ApplyGroup, Simple, Words;
    forall rest: seq<Token> ensures LeadsBefore(GroupReader(), Line(name, args), g, next, rest) {
      var ts := Line(name, args) + rest;
      LineParts(name, args, rest);
      SimpleReads(shape, args, rest, a requires Takes(shape, a) => ApplyGroup(name, a, g), next);
      CutAppend(Line(name, args), rest);
      DropDrop(ts, 1, |args| + 1);
      GroupUnfolds(ts, g);
    }
  }

  lemma GroupUnfolds(ts: seq<Token>, g: UpstreamGroup)
    requires ts != [] && ts[0].Word?
    ensures GroupBlock(ts, g) == match GroupStep(ts[0].text, ts[1..], g)
      case None => None
      case Some((next, n)) => After(1 + n, GroupBlock(Drop(ts[1..], n), next))
  {
    hide GroupStep;
  }

  /** The root loop reads to the end, so what it read counts as all the tokens. */
  function RootReader(env: Env, path: string, depth: nat): Reader<Config>
    requires depth <= MAX_INCLUDE_DEPTH
  {
    (ts, cfg) => match RootLoop(env, path, depth, ts, cfg) case None => None case Some(c) => Some((c, |ts|))
  }

  /** A root directive that is no include. */
  lemma RootLeads(env: Env, path: string, depth: nat, ts: seq<Token>, name: string, cfg: Config, edit: Edit)
    requires depth <= MAX_INCLUDE_DEPTH && ts != [] && ts[0] == Word(name) && !edit.Include?
    requires forall rest: seq<Token> :: RootStep(env, path, name, ts[1..] + rest) == Some((edit, |ts| - 1))
    ensures Leads(RootReader(env, path, depth), ts, cfg, Edited(env, edit, cfg))
  {
    hide RootStep, Edited;
    forall rest: seq<Token>
      ensures LeadsBefore(RootReader(env, path, depth), ts, cfg, Edited(env, edit, cfg), rest)
    {
      CutAppend(ts, rest);
      assert (ts + rest)[1..] == ts[1..] + rest;
      DropDrop(ts + rest, 1, |ts| - 1);
      RootUnfolds(env, path, depth, ts + rest, cfg, edit, |ts| - 1);
    }
  }

  lemma RootUnfolds(env: Env, path: string, depth: nat, ts: seq<Token>, cfg: Config, edit: Edit, n: nat)
    requires depth <= MAX_INCLUDE_DEPTH && ts != [] && ts[0].Word? && !edit.Include?
    requires RootStep(env, path, ts[0].text, ts[1..]) == Some((edit, n))
    ensures RootLoop(env, path, depth, ts, cfg)
      == RootLoop(env, path, depth, Drop(ts[1..], n), Edited(env, edit, cfg))
  {
    hide RootStep, Edited;
  }

  lemma RootLine(env: Env, path: string, depth: nat, name: string, word: string, cfg: Config)
    requires depth <= MAX_INCLUDE_DEPTH && IsRootValue(name) && RootValueOk(name, word)
    requires name !in ["events", "http", "include"]
    ensures Leads(RootReader(env, path, depth), Line(name, [word]), cfg, ApplyRoot(env, name, word, cfg))
  {
    var ts := Line(name, [word]);
    LineParts(name, [word], []);
    forall rest: seq<Token> ensures RootStep(env, path, name, ts[1..] + rest) == Some((SetValue(name, [word]), 2)) {
      Assoc(Words([word]), [Semicolon], rest);
      ArgsRead(OneWord, [word], rest);
      hide Args, Words, IsRootValue, RootValueOk;
    }
    hide Leads, RootReader, RootStep, IsRootValue, RootValueOk, ApplyRoot;
    RootLeads(env, path, depth, ts, name, cfg, SetValue(name, [word]));
  }
}

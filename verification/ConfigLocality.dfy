/** The parser looks only at what it consumes: locality of every level of the grammar, and from it
    that an unknown directive, inserted at a directive boundary, changes nothing but positions. */
module ConfigLocality {
  import opened Common
  import opened Tokenizer
  import opened ConfigTypes
  import opened ConfigGrammar

  /** The same tokens up to position n. */
  predicate Agree(a: seq<Token>, b: seq<Token>, n: nat) { n <= |a| && n <= |b| && a[..n] == b[..n] }

  lemma AgreeTail(a: seq<Token>, b: seq<Token>, n: nat, m: nat)
    requires Agree(a, b, n) && m <= n
    ensures Agree(a[m..], b[m..], n - m) && (m > 0 ==> a[0] == b[0])
  {
    assert a[m..][..n - m] == a[..n][m..];
    assert b[m..][..n - m] == b[..n][m..];
    assert m > 0 ==> a[0] == a[..n][0] && b[0] == b[..n][0];
  }

  lemma AgreeAt(a: seq<Token>, b: seq<Token>, n: nat, i: nat)
    requires Agree(a, b, n) && i < n
    ensures a[i] == b[i] && a[..i] == b[..i] && a[..i + 1] == b[..i + 1]
  {
    assert a[i] == a[..n][i] && b[i] == b[..n][i];
    assert a[..i] == a[..n][..i] && b[..i] == b[..n][..i];
    assert a[..i + 1] == a[..n][..i + 1] && b[..i + 1] == b[..n][..i + 1];
  }

  lemma {:induction false} LeadingIs(ts: seq<Token>, k: nat)
    requires k <= |ts| && (forall i | 0 <= i < k :: ts[i].Word?) && (k < |ts| ==> !ts[k].Word?)
    ensures Leading(ts) == k
  {
    if k > 0 { LeadingIs(ts[1..], k - 1); }
  }

  /** The word count before the first other token depends on the tokens up to that one. */
  lemma LeadingLocal(a: seq<Token>, b: seq<Token>)
    requires Leading(a) < |a| && Agree(a, b, Leading(a) + 1)
    ensures Leading(b) == Leading(a)
  {
    hide Leading, Agree;
    var k := Leading(a);
    AgreeLong(a, b, k + 1);
    forall i | 0 <= i <= k ensures a[i] == b[i] { AgreeAt(a, b, k + 1, i); }
    WordsBefore(a);
    LeadingIs(b, k);
  }

  lemma WordsBefore(ts: seq<Token>)
    ensures forall i | 0 <= i < Leading(ts) :: ts[i].Word?
    ensures Leading(ts) < |ts| ==> !ts[Leading(ts)].Word?
  {
    hide Leading;
  }

  lemma ArgsLocal(shape: Shape, a: seq<Token>, b: seq<Token>)
    requires Args(shape, a).Some? && Agree(a, b, Args(shape, a).value.1)
    ensures Args(shape, b) == Args(shape, a)
  {
    var k := Leading(a);
    LeadingLocal(a, b);
    AgreeAt(a, b, k + 1, k);
    hide Leading, Takes;
  }

  lemma {:induction false} SkipBlockLocal(a: seq<Token>, b: seq<Token>, depth: nat)
    requires SkipBlock(a, depth) < |a| && Agree(a, b, SkipBlock(a, depth) + 1)
    ensures SkipBlock(b, depth) == SkipBlock(a, depth)
    decreases |a|
  {
    AgreeTail(a, b, SkipBlock(a, depth) + 1, 1);
    if depth > 0 {
      SkipBlockLocal(a[1..], b[1..], match a[0] case OpenBrace => depth + 1 case CloseBrace => depth - 1
        case _ => depth);
    }
  }

  lemma SkipUnknownLocal(a: seq<Token>, b: seq<Token>)
    requires SkipUnknown(a) < |a| && Agree(a, b, SkipUnknown(a) + 1)
    ensures SkipUnknown(b) == SkipUnknown(a)
  {
    var k, n := Leading(a), SkipUnknown(a);
    AgreeAt(a, b, n + 1, k);
    LeadingLocal(a, b);
    if a[k] == OpenBrace {
      AgreeTail(a, b, n + 1, k + 1);
      SkipBlockLocal(a[k + 1..], b[k + 1..], 1);
    }
    hide Leading, SkipBlock;
  }

  /** A directive whose outcome depends on what it consumes and the one token after it. */
  ghost predicate LocalAt<S(!new)>(d: Directive<S>, name: string, a: seq<Token>, b: seq<Token>, s: S) {
    (d(name, a, s).Some? && d(name, a, s).value.1 < |a| && Agree(a, b, d(name, a, s).value.1 + 1))
      ==> d(name, b, s) == d(name, a, s)
  }

  ghost predicate Local<S(!new)>(d: Directive<S>) {
    forall name, a, b, s :: LocalAt(d, name, a, b, s)
  }

  /** A closed block depends on the tokens up to its closing brace only. */
  lemma {:induction false} BlockLocal<S(!new)>(d: Directive<S>, a: seq<Token>, b: seq<Token>, s: S)
    requires Local(d) && Block(d, a, s).Some? && Agree(a, b, Block(d, a, s).value.1)
    ensures Block(d, b, s) == Block(d, a, s)
    decreases |a|
  {
    hide Block, Local, Agree;
    var n := Block(d, a, s).value.1;
    BlockEnd(d, a, s);
    AgreeLong(a, b, n);
    AgreeTail(a, b, n, 1);
    if a[0].Word? {
      BlockSplits(d, a, s);
      var (next, m) := d(a[0].text, a[1..], s).value;
      BlockEnd(d, Drop(a[1..], m), next);
      LocalHere(d, a[0].text, a[1..], b[1..], s, n - 1, m);
      AgreeTail(a[1..], b[1..], n - 1, m);
      BlockLocal(d, a[1..][m..], b[1..][m..], next);
      BlockJoins(d, a, b, s, next, m);
    } else {
      BlockEnd(d, b, s);
    }
  }

  lemma BlockJoins<S>(d: Directive<S>, a: seq<Token>, b: seq<Token>, s: S, next: S, m: nat)
    requires a != [] && b != [] && a[0] == b[0] && a[0].Word? && m <= |a[1..]| && m <= |b[1..]|
    requires d(a[0].text, a[1..], s) == Some((next, m)) && d(a[0].text, b[1..], s) == Some((next, m))
    requires Block(d, b[1..][m..], next) == Block(d, a[1..][m..], next)
    ensures Block(d, b, s) == Block(d, a, s)
  {
    hide Block;
    BlockUnfolds(d, a, s);
    BlockUnfolds(d, b, s);
  }

  lemma AgreeLong(a: seq<Token>, b: seq<Token>, n: nat)
    requires Agree(a, b, n)
    ensures n <= |a| && n <= |b|
  {
  }

  lemma LocalHere<S(!new)>(d: Directive<S>, name: string, a: seq<Token>, b: seq<Token>, s: S, n: nat, m: nat)
    requires Local(d) && Agree(a, b, n) && m < n && d(name, a, s).Some? && d(name, a, s).value.1 == m
    ensures d(name, b, s) == d(name, a, s)
  {
    AgreeAt(a, b, n, m);
    assert LocalAt(d, name, a, b, s);
  }

  lemma BlockEnd<S>(d: Directive<S>, ts: seq<Token>, s: S)
    ensures Block(d, ts, s).Some? ==> Block(d, ts, s).value.1 >= 1
    ensures ts != [] && !ts[0].Word? ==> Block(d, ts, s) == if ts[0] == CloseBrace then Some((s, 1)) else None
  {
  }

  lemma BlockUnfolds<S>(d: Directive<S>, ts: seq<Token>, s: S)
    requires ts != [] && ts[0].Word?
    ensures Block(d, ts, s) == match d(ts[0].text, ts[1..], s)
      case None => None
      case Some((next, n)) => After(1 + n, Block(d, Drop(ts[1..], n), next))
  {
  }

  lemma BlockSplits<S>(d: Directive<S>, a: seq<Token>, s: S)
    requires a != [] && a[0].Word? && Block(d, a, s).Some?
    ensures d(a[0].text, a[1..], s).Some?
    ensures var (next, m) := d(a[0].text, a[1..], s).value;
      Block(d, Drop(a[1..], m), next).Some? && Block(d, a, s).value.1 == 1 + m + Block(d, Drop(a[1..], m), next).value.1
  {
  }

  lemma BlockConsumes<S(!new)>(d: Directive<S>, ts: seq<Token>, s: S)
    requires Block(d, ts, s).Some?
    ensures Block(d, ts, s).value.1 >= 1
  {
  }

  // ---- The directives of each block are local ----

  lemma SimpleLocal<S>(shape: Shape, a: seq<Token>, b: seq<Token>, apply: seq<string> --> Option<S>)
    requires forall args | Takes(shape, args) :: apply.requires(args)
    requires Simple(shape, a, apply).Some? && Agree(a, b, Simple(shape, a, apply).value.1)
    ensures Simple(shape, b, apply) == Simple(shape, a, apply)
  {
    ArgsLocal(shape, a, b);
    hide Args;
  }

  lemma AgreeLess(a: seq<Token>, b: seq<Token>, n: nat, m: nat)
    requires Agree(a, b, n) && m <= n
    ensures Agree(a, b, m)
  {
    assert a[..m] == a[..n][..m] && b[..m] == b[..n][..m];
  }

  lemma LocationStepLocal(env: Env, name: string, a: seq<Token>, b: seq<Token>, loc: Location)
    requires var r := LocationStep(env, name, a, loc); r.Some? && r.value.1 < |a| && Agree(a, b, r.value.1 + 1)
    ensures LocationStep(env, name, b, loc) == LocationStep(env, name, a, loc)
  {
    var n := LocationStep(env, name, a, loc).value.1;
    AgreeLess(a, b, n + 1, n);
    match LocationShape(name) {
      case None => SkipUnknownLocal(a, b);
      case Some(shape) =>
        SimpleLocal(shape, a, b, args requires Takes(shape, args) => ApplyLocation(env, name, args, loc));
    }
    hide LocationShape, ApplyLocation, SkipUnknown, Args;
  }

  lemma LocationStepLocalAt(env: Env, name: string, a: seq<Token>, b: seq<Token>, loc: Location)
    ensures LocalAt(LocationDirective(env), name, a, b, loc)
  {
    hide LocationStep;
    var r := LocationStep(env, name, a, loc);
    if r.Some? && r.value.1 < |a| && Agree(a, b, r.value.1 + 1) { LocationStepLocal(env, name, a, b, loc); }
  }

  lemma LocationIsLocal(env: Env)
    ensures Local(LocationDirective(env))
  {
    forall name, a, b, loc ensures LocalAt(LocationDirective(env), name, a, b, loc) {
      LocationStepLocalAt(env, name, a, b, loc);
    }
  }

  lemma LocationBodyLocal(env: Env, pattern: Pattern, taken: nat, a: seq<Token>, b: seq<Token>)
    requires LocationBody(env, pattern, taken, a).Some?
    requires LocationBody(env, pattern, taken, a).value.1 - taken <= |a|
    requires Agree(a, b, LocationBody(env, pattern, taken, a).value.1 - taken)
    ensures LocationBody(env, pattern, taken, b) == LocationBody(env, pattern, taken, a)
  {
    hide Block, LocationDirective, Local, CloseLocation;
    LocationIsLocal(env);
    BlockConsumes(LocationDirective(env), a, NewLocation(pattern));
    BlockLocal(LocationDirective(env), a, b, NewLocation(pattern));
  }

  lemma LocationBodyConsumes(env: Env, pattern: Pattern, taken: nat, ts: seq<Token>)
    requires LocationBody(env, pattern, taken, ts).Some?
    ensures LocationBody(env, pattern, taken, ts).value.1 > taken
  {
    BlockConsumes(LocationDirective(env), ts, NewLocation(pattern));
    hide Block, LocationDirective;
  }

  lemma ParseLocationLocal(env: Env, a: seq<Token>, b: seq<Token>)
    requires ParseLocation(env, a).Some? && Agree(a, b, ParseLocation(env, a).value.1)
    ensures ParseLocation(env, b) == ParseLocation(env, a)
  {
    hide Leading, ParsePattern, Texts, LocationBody;
    var k, n := Leading(a), ParseLocation(env, a).value.1;
    var pattern := ParsePattern(env, Texts(a[..k])).value;
    LocationBodyConsumes(env, pattern, k + 1, a[k + 1..]);
    AgreeLess(a, b, n, k + 1);
    LeadingLocal(a, b);
    AgreeAt(a, b, n, k);
    AgreeTail(a, b, n, k + 1);
    LocationBodyLocal(env, pattern, k + 1, a[k + 1..], b[k + 1..]);
  }

  lemma ServerStepLocal(env: Env, name: string, a: seq<Token>, b: seq<Token>, srv: Server)
    requires var r := ServerStep(env, name, a, srv); r.Some? && r.value.1 < |a| && Agree(a, b, r.value.1 + 1)
    ensures ServerStep(env, name, b, srv) == ServerStep(env, name, a, srv)
  {
    var n := ServerStep(env, name, a, srv).value.1;
    AgreeLess(a, b, n + 1, n);
    if name == "location" {
      ParseLocationLocal(env, a, b);
    } else {
      match ServerShape(name) {
        case None => SkipUnknownLocal(a, b);
        case Some(shape) =>
          SimpleLocal(shape, a, b, args requires Takes(shape, args) => ApplyServer(env, name, args, srv));
      }
    }
    hide ServerShape, ApplyServer, SkipUnknown, Args, ParseLocation;
  }

  lemma ServerStepLocalAt(env: Env, name: string, a: seq<Token>, b: seq<Token>, srv: Server)
    ensures LocalAt(ServerDirective(env), name, a, b, srv)
  {
    hide ServerStep;
    var r := ServerStep(env, name, a, srv);
    if r.Some? && r.value.1 < |a| && Agree(a, b, r.value.1 + 1) { ServerStepLocal(env, name, a, b, srv); }
  }

  lemma ServerIsLocal(env: Env)
    ensures Local(ServerDirective(env))
  {
    forall name, a, b, srv ensures LocalAt(ServerDirective(env), name, a, b, srv) {
      ServerStepLocalAt(env, name, a, b, srv);
    }
  }

  lemma GroupStepLocal(name: string, a: seq<Token>, b: seq<Token>, g: UpstreamGroup)
    requires var r := GroupStep(name, a, g); r.Some? && r.value.1 < |a| && Agree(a, b, r.value.1 + 1)
    ensures GroupStep(name, b, g) == GroupStep(name, a, g)
  {
    var n, k := GroupStep(name, a, g).value.1, Leading(a);
    AgreeLess(a, b, n + 1, n);
    match GroupShape(name) {
      case None =>
        AgreeAt(a, b, n + 1, k);
        LeadingLocal(a, b);
      case Some(shape) =>
        SimpleLocal(shape, a, b, args requires Takes(shape, args) => ApplyGroup(name, args, g));
    }
    hide GroupShape, ApplyGroup, Args, Leading;
  }

  lemma GroupConsumes(ts: seq<Token>, g: UpstreamGroup)
    requires GroupBlock(ts, g).Some?
    ensures GroupBlock(ts, g).value.1 >= 1
  {
  }

  lemma {:induction false} GroupBlockLocal(a: seq<Token>, b: seq<Token>, g: UpstreamGroup)
    requires GroupBlock(a, g).Some? && Agree(a, b, GroupBlock(a, g).value.1)
    ensures GroupBlock(b, g) == GroupBlock(a, g)
    decreases |a|
  {
    hide GroupStep;
    var n := GroupBlock(a, g).value.1;
    GroupConsumes(a, g);
    AgreeTail(a, b, n, 1);
    if a[0] == CloseBrace {
    } else if !a[0].Word? {
      GroupBlockLocal(a[1..], b[1..], g);
    } else {
      var (next, m) := GroupStep(a[0].text, a[1..], g).value;
      GroupConsumes(Drop(a[1..], m), next);
      AgreeLess(a[1..], b[1..], n - 1, m + 1);
      GroupStepLocal(a[0].text, a[1..], b[1..], g);
      AgreeTail(a[1..], b[1..], n - 1, m);
      GroupBlockLocal(a[1..][m..], b[1..][m..], next);
    }
  }

  lemma ParseGroupLocal(a: seq<Token>, b: seq<Token>)
    requires ParseGroup(a).Some? && Agree(a, b, ParseGroup(a).value.1)
    ensures ParseGroup(b) == ParseGroup(a)
  {
    var n := ParseGroup(a).value.1;
    var g := NewGroup(a[0].text);
    GroupConsumes(a[2..], g);
    AgreeAt(a, b, n, 0);
    AgreeAt(a, b, n, 1);
    AgreeTail(a, b, n, 2);
    GroupBlockLocal(a[2..], b[2..], g);
    hide GroupBlock;
  }

  lemma ParseServerLocal(env: Env, a: seq<Token>, b: seq<Token>)
    requires |a| >= 1 && |b| >= 1 && ParseServer(env, a[1..]).Some?
    requires Agree(a, b, 1 + ParseServer(env, a[1..]).value.1)
    ensures a[0] == b[0] && ParseServer(env, b[1..]) == ParseServer(env, a[1..])
  {
    hide Block, ServerDirective, Local;
    var n := ParseServer(env, a[1..]).value.1;
    ServerIsLocal(env);
    AgreeTail(a, b, 1 + n, 1);
    BlockLocal(ServerDirective(env), a[1..], b[1..], NEW_SERVER);
  }

  lemma HttpStepLocal(env: Env, path: string, name: string, a: seq<Token>, b: seq<Token>, h: Http)
    requires var r := HttpStep(env, path, name, a, h); r.Some? && r.value.1 < |a| && Agree(a, b, r.value.1 + 1)
    ensures HttpStep(env, path, name, b, h) == HttpStep(env, path, name, a, h)
  {
    var n := HttpStep(env, path, name, a, h).value.1;
    AgreeLess(a, b, n + 1, n);
    hide ParseGroup, ParseServer, IncludeServers, ApplyHttp, SkipUnknown, Args, HttpShape;
    if name == "upstream" {
      ParseGroupLocal(a, b);
    } else if name == "server" {
      ParseServerLocal(env, a, b);
    } else if name == "include" {
      ArgsLocal(OneWord, a, b);
    } else {
      match HttpShape(name) {
        case None => SkipUnknownLocal(a, b);
        case Some(shape) =>
          SimpleLocal(shape, a, b, args requires Takes(shape, args) => ApplyHttp(env, name, args, h));
      }
    }
  }

  lemma HttpStepLocalAt(env: Env, path: string, name: string, a: seq<Token>, b: seq<Token>, h: Http)
    ensures LocalAt(HttpDirective(env, path), name, a, b, h)
  {
    hide HttpStep;
    var r := HttpStep(env, path, name, a, h);
    if r.Some? && r.value.1 < |a| && Agree(a, b, r.value.1 + 1) { HttpStepLocal(env, path, name, a, b, h); }
  }

  lemma HttpIsLocal(env: Env, path: string)
    ensures Local(HttpDirective(env, path))
  {
    forall name, a, b, h ensures LocalAt(HttpDirective(env, path), name, a, b, h) {
      HttpStepLocalAt(env, path, name, a, b, h);
    }
  }

  // ---- Inserting an unknown directive ----

  /** A directive no block knows: a word, arguments, and a semicolon or a balanced block. */
  datatype Unknown = Unknown(name: string, args: seq<string>, body: Option<seq<Token>>)

  function Words(args: seq<string>): (r: seq<Token>)
    ensures |r| == |args| && forall i | 0 <= i < |args| :: r[i] == Word(args[i])
  {
    seq(|args|, i requires 0 <= i < |args| => Word(args[i]))
  }

  /** The brace depth after `ts`, unless a brace closes more than was opened. */
  function Nest(ts: seq<Token>, depth: nat): Option<nat> {
    if ts == [] then Some(depth)
    else
      match ts[0]
      case OpenBrace => Nest(ts[1..], depth + 1)
      case CloseBrace => if depth == 0 then None else Nest(ts[1..], depth - 1)
      case _ => Nest(ts[1..], depth)
  }

  predicate Balanced(x: Unknown) { x.body.Some? ==> Nest(x.body.value, 0) == Some(0) }

  function Ending(x: Unknown): (r: seq<Token>)
    ensures |r| > 0
  {
    match x.body case None => [Semicolon] case Some(b) => [OpenBrace] + b + [CloseBrace]
  }

  function UnknownTokens(x: Unknown): (r: seq<Token>)
    ensures |r| > 1 && r[0] == Word(x.name)
  {
    [Word(x.name)] + Words(x.args) + Ending(x)
  }

  /** Brace matching is exact: a balanced body and its closing brace are skipped, and nothing more. */
  lemma {:induction false} SkipsBalanced(body: seq<Token>, depth: nat, rest: seq<Token>)
    requires Nest(body, depth) == Some(0)
    ensures SkipBlock(body + ([CloseBrace] + rest), depth + 1) == |body| + 1
    decreases |body|
  {
    var ts := body + ([CloseBrace] + rest);
    if body == [] {
      assert ts == [CloseBrace] + rest && ts[1..] == rest;
      assert SkipBlock(rest, 0) == 0;
    } else {
      assert ts[0] == body[0] && ts[1..] == body[1..] + ([CloseBrace] + rest);
      SkipsBalanced(body[1..], match body[0] case OpenBrace => depth + 1 case CloseBrace => depth - 1
        case _ => depth, rest);
    }
  }

  lemma LeadingOfWords(args: seq<string>, rest: seq<Token>)
    requires rest != [] && !rest[0].Word?
    ensures Leading(Words(args) + rest) == |args|
  {
    LeadingIs(Words(args) + rest, |args|);
  }

  lemma SkipsUnknown(x: Unknown, rest: seq<Token>)
    requires Balanced(x)
    ensures (UnknownTokens(x) + rest)[1..] == Words(x.args) + (Ending(x) + rest)
    ensures SkipUnknown(Words(x.args) + (Ending(x) + rest)) == |UnknownTokens(x)| - 1
  {
    hide SkipUnknown, Words, Leading, SkipBlock, UnknownTokens, Ending, Balanced;
    var ts := Words(x.args) + (Ending(x) + rest);
    UnknownIs(x, rest);
    EndingIs(x, rest);
    SkipBehindWords(x.args, Ending(x) + rest);
    match x.body {
      case None =>
      case Some(body) =>
        assert Nest(body, 0) == Some(0) by { BodyIsBalanced(x); }
        SkipsBalanced(body, 0, rest);
    }
  }

  lemma BodyIsBalanced(x: Unknown)
    requires Balanced(x) && x.body.Some?
    ensures Nest(x.body.value, 0) == Some(0)
  {
  }

  lemma UnknownIs(x: Unknown, rest: seq<Token>)
    ensures (UnknownTokens(x) + rest)[1..] == Words(x.args) + (Ending(x) + rest)
    ensures |UnknownTokens(x)| == 1 + |x.args| + |Ending(x)|
  {
    hide Ending;
    assert UnknownTokens(x) + rest == [Word(x.name)] + (Words(x.args) + (Ending(x) + rest));
  }

  /** How an unknown directive goes on behind its words. */
  lemma EndingIs(x: Unknown, rest: seq<Token>)
    ensures var after := Ending(x) + rest;
      match x.body
      case None => |Ending(x)| == 1 && after != [] && after[0] == Semicolon
      case Some(body) =>
        && |Ending(x)| == |body| + 2 && after != [] && after[0] == OpenBrace
        && after[1..] == body + ([CloseBrace] + rest)
  {
    if x.body.Some? {
      var body := x.body.value;
      assert Ending(x) + rest == [OpenBrace] + (body + ([CloseBrace] + rest));
      CutAppend([OpenBrace], body + ([CloseBrace] + rest));
    }
  }

  lemma SkipBehindWords(args: seq<string>, after: seq<Token>)
    requires after != [] && !after[0].Word?
    ensures SkipUnknown(Words(args) + after) == |args| +
      match after[0] case Semicolon => 1 case OpenBrace => 1 + SkipBlock(after[1..], 1) case _ => 0
  {
    hide Leading, SkipBlock;
    var ts := Words(args) + after;
    LeadingOfWords(args, after);
    assert ts[|args|] == after[0];
    CutAppend(Words(args), after);
    assert ts[|args| + 1..] == ts[|args|..][1..];
  }

  function Insert(ts: seq<Token>, k: nat, u: seq<Token>): seq<Token>
    requires k <= |ts|
  {
    ts[..k] + u + ts[k..]
  }

  lemma InsertedIsLonger(ts: seq<Token>, n: nat, u: seq<Token>)
    requires n <= |ts|
    ensures |Insert(ts, n, u)| == |ts| + |u|
  {
  }

  lemma InsertAgrees(ts: seq<Token>, k: nat, u: seq<Token>, n: nat)
    requires n <= k <= |ts|
    ensures Agree(ts, Insert(ts, k, u), n)
  {
    assert Insert(ts, k, u)[..n] == ts[..n];
  }

  lemma InsertTail(ts: seq<Token>, k: nat, u: seq<Token>, m: nat)
    requires m <= k <= |ts|
    ensures m <= |Insert(ts, k, u)| && Insert(ts, k, u)[m..] == Insert(ts[m..], k - m, u)
    ensures m > 0 ==> Insert(ts, k, u)[0] == ts[0]
  {
  }

  lemma DropInserted(ts: seq<Token>, k: nat, u: seq<Token>, n: nat)
    requires k <= |ts| && k <= n
    ensures Drop(Insert(ts, k, u), n + |u|) == Drop(ts, n)
  {
  }

  function Shift<S>(r: Option<(S, nat)>, n: nat): Option<(S, nat)> {
    match r case None => None case Some((s, m)) => Some((s, m + n))
  }

  /** The places of a block body where a directive may start: the loop head, if `here`, and whatever
      `inner` says lies inside the arguments of a directive. */
  ghost predicate Boundary<S>(d: Directive<S>, here: bool, inner: (string, seq<Token>, S, nat) -> bool,
                              ts: seq<Token>, s: S, k: nat)
    decreases |ts|
  {
    || (here && k == 0)
    || (ts != [] && ts[0].Word? && 1 <= k <= |ts| && (
        || inner(ts[0].text, ts[1..], s, k - 1)
        || (match d(ts[0].text, ts[1..], s)
            case None => false
            case Some((next, n)) => 1 + n <= k && Boundary(d, here, inner, ts[1..][n..], next, k - 1 - n))))
  }

  /** What the loop needs of its directives for the insertion of `u` to go unnoticed. */
  ghost predicate InnerAbsorbs<S(!new)>(d: Directive<S>, inner: (string, seq<Token>, S, nat) -> bool, u: seq<Token>) {
    forall name, ts, s, k: nat :: InnerAbsorbsAt(d, inner, u, name, ts, s, k)
  }

  ghost predicate InnerAbsorbsAt<S(!new)>(d: Directive<S>, inner: (string, seq<Token>, S, nat) -> bool, u: seq<Token>,
                                          name: string, ts: seq<Token>, s: S, k: nat) {
    inner(name, ts, s, k) ==>
      && k <= |ts| && d(name, Insert(ts, k, u), s) == Shift(d(name, ts, s), |u|)
      && (d(name, ts, s).Some? ==> k <= d(name, ts, s).value.1)
  }

  /** A directive that ended right where `u` now stands either ends there still, or was an unfinished
      unknown directive that takes `u` along. */
  ghost predicate EndAbsorbs<S(!new)>(d: Directive<S>, u: seq<Token>) {
    forall name, ts, s :: EndAbsorbsAt(d, u, name, ts, s)
  }

  ghost predicate EndAbsorbsAt<S(!new)>(d: Directive<S>, u: seq<Token>, name: string, ts: seq<Token>, s: S) {
    d(name, ts, s).Some? && d(name, ts, s).value.1 <= |ts| ==>
      var r := d(name, Insert(ts, d(name, ts, s).value.1, u), s);
      r == d(name, ts, s) || r == Shift(d(name, ts, s), |u|)
  }

  ghost predicate Skips<S(!new)>(d: Directive<S>, u: seq<Token>)
    requires |u| > 0 && u[0].Word?
  {
    forall rest, s :: SkipsAt(d, u, rest, s)
  }

  ghost predicate SkipsAt<S(!new)>(d: Directive<S>, u: seq<Token>, rest: seq<Token>, s: S)
    requires |u| > 0 && u[0].Word?
  {
    d(u[0].text, (u + rest)[1..], s) == Some((s, |u| - 1))
  }

  /** The rest of a block after a directive with outcome `r` on the tokens `after` its name. */
  function BlockFrom<S>(d: Directive<S>, r: Option<(S, nat)>, after: seq<Token>): Option<(S, nat)> {
    match r case None => None case Some((next, n)) => After(1 + n, Block(d, Drop(after, n), next))
  }

  lemma BlockStep<S>(d: Directive<S>, ts: seq<Token>, s: S)
    requires ts != [] && ts[0].Word?
    ensures Block(d, ts, s) == BlockFrom(d, d(ts[0].text, ts[1..], s), ts[1..])
  {
  }

  lemma FromShifted<S>(d: Directive<S>, r: Option<(S, nat)>, a: seq<Token>, b: seq<Token>, m: nat)
    requires r.Some? ==> Drop(b, r.value.1 + m) == Drop(a, r.value.1)
    ensures BlockFrom(d, Shift(r, m), b) == Shift(BlockFrom(d, r, a), m)
  {
    hide Block, Drop;
  }

  lemma FromSame<S>(d: Directive<S>, r: Option<(S, nat)>, a: seq<Token>, b: seq<Token>, m: nat)
    requires r.Some? ==> Block(d, Drop(b, r.value.1), r.value.0) == Shift(Block(d, Drop(a, r.value.1), r.value.0), m)
    ensures BlockFrom(d, r, b) == Shift(BlockFrom(d, r, a), m)
  {
    hide Block, Drop;
  }

  lemma InsertHere<S(!new)>(d: Directive<S>, ts: seq<Token>, s: S, u: seq<Token>)
    requires |u| > 0 && u[0].Word? && Skips(d, u)
    ensures Block(d, Insert(ts, 0, u), s) == Shift(Block(d, ts, s), |u|)
  {
    hide Block;
    assert Insert(ts, 0, u) == u + ts;
    assert (u + ts)[1..][|u| - 1..] == ts;
    BlockStep(d, u + ts, s);
    assert SkipsAt(d, u, ts, s);
  }

  lemma InsertInner<S(!new)>(
      d: Directive<S>, inner: (string, seq<Token>, S, nat) -> bool, ts: seq<Token>, s: S, k: nat, u: seq<Token>)
    requires InnerAbsorbs(d, inner, u) && 1 <= k <= |ts| && ts[0].Word? && inner(ts[0].text, ts[1..], s, k - 1)
    ensures Block(d, Insert(ts, k, u), s) == Shift(Block(d, ts, s), |u|)
  {
    hide Block, Insert, Shift, Drop, BlockFrom, InnerAbsorbsAt, InnerAbsorbs;
    var after := ts[1..];
    InnerOutcome(d, inner, ts[0].text, after, s, k - 1, u);
    FromShifted(d, d(ts[0].text, after, s), after, Insert(after, k - 1, u), |u|);
    InsertUnfolds(d, ts, s, k, u);
  }

  lemma InnerOutcome<S(!new)>(d: Directive<S>, inner: (string, seq<Token>, S, nat) -> bool,
                              name: string, ts: seq<Token>, s: S, k: nat, u: seq<Token>)
    requires InnerAbsorbs(d, inner, u) && inner(name, ts, s, k)
    ensures k <= |ts| && d(name, Insert(ts, k, u), s) == Shift(d(name, ts, s), |u|)
    ensures var r := d(name, ts, s); r.Some? ==> Drop(Insert(ts, k, u), r.value.1 + |u|) == Drop(ts, r.value.1)
  {
    assert InnerAbsorbsAt(d, inner, u, name, ts, s, k);
    if d(name, ts, s).Some? { DropInserted(ts, k, u, d(name, ts, s).value.1); }
    hide Insert;
  }

  /** The directive before the insertion, when the insertion is not inside it. */
  lemma EarlierDirective<S(!new)>(d: Directive<S>, here: bool, name: string, ts: seq<Token>, s: S, k: nat,
                                  u: seq<Token>)
    requires Local(d) && (here ==> EndAbsorbs(d, u))
    requires d(name, ts, s).Some? && d(name, ts, s).value.1 <= k <= |ts| && (d(name, ts, s).value.1 == k ==> here)
    ensures var r := d(name, Insert(ts, k, u), s);
      r == d(name, ts, s) || (d(name, ts, s).value.1 == k && r == Shift(d(name, ts, s), |u|))
  {
    var n := d(name, ts, s).value.1;
    if n < k {
      InsertAgrees(ts, k, u, n + 1);
      assert LocalAt(d, name, ts, Insert(ts, k, u), s);
    } else {
      assert EndAbsorbsAt(d, u, name, ts, s);
    }
  }

  lemma {:induction false} InsertionUnnoticed<S(!new)>(
      d: Directive<S>, here: bool, inner: (string, seq<Token>, S, nat) -> bool, ts: seq<Token>, s: S, k: nat,
      u: seq<Token>)
    requires k <= |ts| && |u| > 0 && u[0].Word?
    requires Local(d) && InnerAbsorbs(d, inner, u) && (here ==> EndAbsorbs(d, u) && Skips(d, u))
    requires Boundary(d, here, inner, ts, s, k)
    ensures Block(d, Insert(ts, k, u), s) == Shift(Block(d, ts, s), |u|)
    decreases |ts|
  {
    hide Block, Local, InnerAbsorbs, EndAbsorbs, Skips;
    if here && k == 0 {
      InsertHere(d, ts, s, u);
    } else if inner(ts[0].text, ts[1..], s, k - 1) {
      InsertInner(d, inner, ts, s, k, u);
    } else {
      var name, after, j := ts[0].text, ts[1..], k - 1;
      var (next, n) := d(name, after, s).value;
      if n == j { BoundaryHere(d, here, inner, after[n..], next); }
      InsertionUnnoticed(d, here, inner, after[n..], next, j - n, u);
      InsertLater(d, here, name, after, s, j, u, next, n);
      InsertUnfolds(d, ts, s, k, u);
    }
  }

  /** The insertion is behind the first directive, and goes unnoticed there. */
  lemma InsertLater<S(!new)>(d: Directive<S>, here: bool, name: string, after: seq<Token>, s: S, j: nat, u: seq<Token>,
                             next: S, n: nat)
    requires d(name, after, s) == Some((next, n)) && n <= j <= |after|
    requires Local(d) && (here ==> EndAbsorbs(d, u)) && (n == j ==> here)
    requires Block(d, Insert(after[n..], j - n, u), next) == Shift(Block(d, after[n..], next), |u|)
    ensures BlockFrom(d, d(name, Insert(after, j, u), s), Insert(after, j, u))
      == Shift(BlockFrom(d, d(name, after, s), after), |u|)
  {
    EarlierDirective(d, here, name, after, s, j, u);
    hide Block, Insert, BlockFrom, Local, EndAbsorbs;
    AfterEarlier(d, d(name, after, s), d(name, Insert(after, j, u), s), after, j, u);
  }

  lemma InsertUnfolds<S>(d: Directive<S>, ts: seq<Token>, s: S, k: nat, u: seq<Token>)
    requires 1 <= k <= |ts| && ts[0].Word?
    requires BlockFrom(d, d(ts[0].text, Insert(ts[1..], k - 1, u), s), Insert(ts[1..], k - 1, u))
          == Shift(BlockFrom(d, d(ts[0].text, ts[1..], s), ts[1..]), |u|)
    ensures Block(d, Insert(ts, k, u), s) == Shift(Block(d, ts, s), |u|)
  {
    hide *;
    InsertTail(ts, k, u, 1);
    var more := Insert(ts, k, u);
    assert more != [] && more[0].Word? && more[1..] == Insert(ts[1..], k - 1, u);
    BlockStep(d, ts, s);
    BlockStep(d, more, s);
  }

  lemma AfterEarlier<S(!new)>(d: Directive<S>, r: Option<(S, nat)>, r': Option<(S, nat)>, ts: seq<Token>, k: nat,
                              u: seq<Token>)
    requires r.Some? && r.value.1 <= k <= |ts|
    requires r' == r || (r.value.1 == k && r' == Shift(r, |u|))
    requires Block(d, Insert(ts[r.value.1..], k - r.value.1, u), r.value.0)
      == Shift(Block(d, ts[r.value.1..], r.value.0), |u|)
    ensures BlockFrom(d, r', Insert(ts, k, u)) == Shift(BlockFrom(d, r, ts), |u|)
  {
    hide Block, BlockFrom;
    InsertTail(ts, k, u, r.value.1);
    DropInserted(ts, k, u, k);
    if r' == r {
      FromSame(d, r, ts, Insert(ts, k, u), |u|);
    } else {
      FromShifted(d, r, ts, Insert(ts, k, u), |u|);
    }
  }

  /** Boundaries lie before the end of the block. */
  lemma {:induction false} BoundaryInside<S(!new)>(
      d: Directive<S>, here: bool, inner: (string, seq<Token>, S, nat) -> bool, ts: seq<Token>, s: S, k: nat,
      u: seq<Token>)
    requires k <= |ts| && InnerAbsorbs(d, inner, u)
    requires Boundary(d, here, inner, ts, s, k) && Block(d, ts, s).Some?
    ensures k < Block(d, ts, s).value.1
    decreases |ts|
  {
    if !(here && k == 0) {
      var (next, n) := d(ts[0].text, ts[1..], s).value;
      BlockConsumes(d, Drop(ts[1..], n), next);
      assert InnerAbsorbsAt(d, inner, u, ts[0].text, ts[1..], s, k - 1);
      if !inner(ts[0].text, ts[1..], s, k - 1) { BoundaryInside(d, here, inner, ts[1..][n..], next, k - 1 - n, u); }
    } else {
      BlockConsumes(d, ts, s);
    }
  }

  lemma BoundaryHere<S>(d: Directive<S>, here: bool, inner: (string, seq<Token>, S, nat) -> bool, ts: seq<Token>, s: S)
    requires Boundary(d, here, inner, ts, s, 0)
    ensures here
  {
  }
}

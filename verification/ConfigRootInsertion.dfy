/** Unknown directives between the root directives of a file, up to the configuration that loading returns.
    Behind an events block that does not close they may be noticed: one can fill an empty block. */
module ConfigRootInsertion {
  import opened Common
  import opened Tokenizer
  import opened ConfigTypes
  import opened ConfigGrammar
  import opened ConfigLocality
  import opened ConfigInsertion
  import opened ConfigLoading
  import opened ConfigEvents

  // ---- Behind an events block that does not close ----

  /** A directive that ended before the insertion is the same. */
  lemma TakesAgain(ts: seq<Token>, c: Option<nat>, j: nat, u: seq<Token>)
    requires ts != [] && ts[0].Word? && EventsFirst(ts, c).Some?
    requires var m := EventsFirst(ts, c).value.0;
      0 < m <= j <= |ts| && (m < j || ts[m - 1] == Semicolon)
    ensures var more := Insert(ts, j, u);
      more != [] && more[0] == ts[0] && EventsFirst(more, c) == EventsFirst(ts, c)
  {
    hide Insert, Number;
    var m, more := EventsFirst(ts, c).value.0, Insert(ts, j, u);
    InsertedIsLonger(ts, j, u);
    InsertAgrees(ts, j, u, j);
    AgreeAt(ts, more, j, 0);
    if ts[0] == Word("worker_connections") {
      AgreeTail(ts, more, j, 1);
      AgreeLess(ts[1..], more[1..], j - 1, m - 1);
      ArgsLocal(OneWord, ts[1..], more[1..]);
      hide Args;
    } else {
      var k := Leading(ts);
      WordsBefore(ts);
      hide Leading;
      AgreeLess(ts, more, j, k + 1);
      LeadingLocal(ts, more);
      AgreeAt(ts, more, j, k);
    }
  }

  /** Behind unfinished words, or none, the words of the inserted directive join them. */
  lemma TakesWords(words: seq<Token>, x: Unknown, rest: seq<Token>, c: Option<nat>)
    requires forall i | 0 <= i < |words| :: words[i].Word?
    requires (words + [Word(x.name)])[0] != Word("worker_connections")
    ensures var w := words + UnknownTokens(x) + rest;
      && w != [] && w[0].Word?
      && EventsFirst(w, c) == Some((|words| + if x.body.None? then |UnknownTokens(x)| else 1 + |x.args|, c))
      && w[|words| + |UnknownTokens(x)|..] == rest
      && (x.body.Some? ==> 1 + |x.args| < |UnknownTokens(x)| && w[|words| + 1 + |x.args|] == OpenBrace)
  {
    var u := UnknownTokens(x);
    var w, k := words + u + rest, |words| + 1 + |x.args|;
    assert u[..1 + |x.args|] == [Word(x.name)] + Words(x.args) && u[1 + |x.args|] == Ending(x)[0];
    assert |u| == 1 + |x.args| + |Ending(x)|;
    CutAppend(words + u, rest);
    forall i | 0 <= i < k ensures w[i].Word? {
      if i >= |words| { assert w[i] == u[..1 + |x.args|][i - |words|]; }
    }
    assert w[k] == u[1 + |x.args|] == Ending(x)[0];
    assert w[0] == (words + [Word(x.name)])[0];
    LeadingIs(w, k);
    hide Leading, UnknownTokens;
  }

  lemma StopsBehind(w: seq<Token>, p: nat, c: Option<nat>)
    requires w != [] && w[0].Word? && 0 < p <= |w| && (p < |w| ==> !w[p].Word?)
    ensures CloseEvents(w, p, c) == Some((c, if p < |w| && w[p] == CloseBrace then p + 1 else p))
  {
    hide Args, Number, Leading;
  }

  /** The inserted directive is put into an empty block, right before its closing brace. */
  predicate FillsEmpty(ts: seq<Token>, x: Unknown) { x.body.None? && ts != [] && ts[0] == CloseBrace }

  /** What a block's loop makes of an insertion where it stopped: the same connections; and it stops again,
      unless the insertion fills an empty block. */
  predicate StopsAgain(ts: seq<Token>, x: Unknown, c: Option<nat>, more: seq<Token>, r: Option<(Option<nat>, nat)>) {
    && r.Some? && r.value.0 == c
    && if FillsEmpty(ts, x) then r.value.1 == |UnknownTokens(x)| + 1
       else r.value.1 <= |more| && (r.value.1 < |more| ==> !more[r.value.1].Word?)
  }

  lemma InsertIntoNone(ts: seq<Token>, c: Option<nat>, x: Unknown)
    requires (ts == [] || !ts[0].Word?) && x.name != "worker_connections"
    ensures var more := Insert(ts, 0, UnknownTokens(x));
      StopsAgain(ts, x, c, more, EventsBlock(more, c))
  {
    hide EventsBlock, EventsFirst, CloseEvents, UnknownTokens;
    var u := UnknownTokens(x);
    assert Insert(ts, 0, u) == [] + u + ts;
    assert ([] + [Word(x.name)])[0] == Word(x.name);
    TakesWords([], x, ts, c);
    var w := [] + u + ts;
    FirstIs(w, c);
    var p := if x.body.None? then |u| else 1 + |x.args|;
    if x.body.None? && ts != [] { assert w[p] == w[|u|..][0]; }
    hide Insert;
    StopsBehind(w, p, c);
  }

  lemma InsertBehindWords(ts: seq<Token>, c: Option<nat>, m: nat, x: Unknown)
    requires ts != [] && ts[0].Word? && x.name != "worker_connections"
    requires EventsFirst(ts, c).Some? && EventsFirst(ts, c).value.0 == m && 0 < m <= |ts| && ts[m - 1].Word?
    requires m < |ts| ==> !ts[m].Word? && ts[m] != CloseBrace
    ensures EventsFirst(ts, c).value.1 == c
    ensures var more := Insert(ts, m, UnknownTokens(x));
      StopsAgain(ts, x, c, more, EventsBlock(more, c))
  {
    hide EventsBlock, EventsFirst, CloseEvents, UnknownTokens, Insert;
    Unfinished(ts, c);
    var u, words, rest := UnknownTokens(x), ts[..m], ts[m..];
    assert Insert(ts, m, u) == words + u + rest by { InsertIs(ts, m, u); }
    TakesWords(words, x, rest, c);
    var w := words + u + rest;
    FirstIs(w, c);
    var p := m + if x.body.None? then |u| else 1 + |x.args|;
    if x.body.None? && m < |ts| { assert w[p] == w[m + |u|..][0] == ts[m]; }
    StopsBehind(w, p, c);
  }

  lemma InsertIs(ts: seq<Token>, k: nat, u: seq<Token>)
    requires k <= |ts|
    ensures Insert(ts, k, u) == ts[..k] + u + ts[k..]
  {
  }

  /** A directive that ends with a word is not `worker_connections`, and consists of words. */
  lemma Unfinished(ts: seq<Token>, c: Option<nat>)
    requires ts != [] && ts[0].Word? && EventsFirst(ts, c).Some?
    requires var m := EventsFirst(ts, c).value.0; 0 < m <= |ts| && ts[m - 1].Word?
    ensures ts[0] != Word("worker_connections") && EventsFirst(ts, c).value.1 == c
    ensures forall i | 0 <= i < EventsFirst(ts, c).value.0 :: ts[i].Word?
  {
    hide Number;
    if ts[0] == Word("worker_connections") {
      LastOfArgs(ts[1..]);
    } else {
      WordsBefore(ts);
    }
    hide Args, Leading;
  }

  /** The insertion where a block's loop stopped without closing. */
  lemma {:induction false} InsertIntoEvents(ts: seq<Token>, c: Option<nat>, x: Unknown)
    requires EventsBlock(ts, c).Some? && !Closes(ts) && x.name != "worker_connections"
    ensures EventsBlock(ts, c).value.1 == EventsRun(ts)
    ensures var more := Insert(ts, EventsRun(ts), UnknownTokens(x));
      StopsAgain(ts, x, EventsBlock(ts, c).value.0, more, EventsBlock(more, c))
    decreases |ts|
  {
    hide *;
    EventsEnd(ts, c);
    RunStartsWithWord(ts);
    if ts == [] || !ts[0].Word? {
      NoDirective(ts, c);
      InsertIntoNone(ts, c, x);
    } else {
      FirstIs(ts, c);
      var (m, next) := EventsFirst(ts, c).value;
      OpenGoesOn(ts, c, m, next);
      var n := EventsRun(ts);
      if m < n || ts[m - 1] == Semicolon {
        InsertIntoEvents(ts[m..], next, x);
        InsertFurtherOn(ts, c, m, next, n, x);
      } else {
        NoDirective(ts[m..], next);
        InsertBehindWords(ts, c, m, x);
      }
    }
  }

  lemma NoDirective(ts: seq<Token>, c: Option<nat>)
    requires ts == [] || !ts[0].Word?
    ensures EventsBlock(ts, c) == Some((c, 0))
  {
  }

  /** Behind its first directive an open block goes on, and stays open. */
  lemma OpenGoesOn(ts: seq<Token>, c: Option<nat>, m: nat, next: Option<nat>)
    requires ts != [] && ts[0].Word? && IsDirective(ts, m) && !Closes(ts) && EventsBlock(ts, c).Some?
    requires EventsBlock(ts, c) == CloseEvents(ts, m, next)
    ensures 0 < m <= EventsRun(ts) <= |ts| && !Closes(ts[m..]) && EventsRun(ts[m..]) == EventsRun(ts) - m
    ensures EventsBlock(ts[m..], next).Some? && EventsBlock(ts, c).value.0 == EventsBlock(ts[m..], next).value.0
    ensures m < |ts| ==> ts[m] != CloseBrace && (ts[m].Word? <==> m < EventsRun(ts))
    ensures ts[m - 1].Word? || ts[m - 1] == Semicolon
  {
    hide EventsBlock, EventsRun;
    RunSplits(ts, m);
    RunStartsWithWord(ts[m..]);
    var rest, k := ts[m..], EventsRun(ts[m..]);
    assert IsRun(ts, EventsRun(ts)) && IsRun(rest, k);
    assert k < |rest| ==> rest[k] == ts[m + k];
    assert m < |ts| ==> rest[0] == ts[m];
    assert InRun(ts, m - 1);
  }

  /** The insertion behind a directive that ended before it. */
  lemma InsertFurtherOn(ts: seq<Token>, c: Option<nat>, m: nat, next: Option<nat>, n: nat, x: Unknown)
    requires ts != [] && ts[0].Word? && EventsFirst(ts, c) == Some((m, next)) && 0 < m <= n <= |ts|
    requires m < n || ts[m - 1] == Semicolon
    requires m < |ts| ==> ts[m] != CloseBrace && (ts[m].Word? <==> m < n)
    requires EventsBlock(ts, c).Some? && EventsBlock(ts[m..], next).Some?
    requires var more := Insert(ts[m..], n - m, UnknownTokens(x));
      StopsAgain(ts[m..], x, EventsBlock(ts, c).value.0, more, EventsBlock(more, next))
    ensures var more := Insert(ts, n, UnknownTokens(x));
      StopsAgain(ts, x, EventsBlock(ts, c).value.0, more, EventsBlock(more, c))
  {
    hide EventsBlock, EventsFirst, UnknownTokens, Insert;
    var u := UnknownTokens(x);
    var more := Insert(ts, n, u);
    TakesAgain(ts, c, n, u);
    FirstIs(more, c);
    InsertTail(ts, n, u, m);
    InsertedIsLonger(ts, n, u);
    assert more[m..][0] == more[m];
    InsertedAt(ts, n, u, m);
  }

  lemma InsertedAt(ts: seq<Token>, n: nat, u: seq<Token>, i: nat)
    requires i <= n <= |ts| && u != []
    ensures i < |Insert(ts, n, u)| && Insert(ts, n, u)[i] == if i < n then ts[i] else u[0]
  {
  }

  // ---- Between root directives ----

  predicate KnownAtRoot(name: string) { name in ["events", "http", "include"] || IsRootValue(name) }

  /** Position k of a file is a head of its root loop. */
  predicate RootHead(env: Env, path: string, ts: seq<Token>, k: nat)
    decreases |ts|
  {
    || k == 0
    || (ts != [] && ts[0].Word? &&
        match RootStep(env, path, ts[0].text, ts[1..])
        case None => false
        case Some((_, n)) => 1 + n <= k <= |ts| && RootHead(env, path, ts[1..][n..], k - 1 - n))
  }

  /** The first directive is an events block that does not close, and ends at position k. */
  predicate OpenEvents(env: Env, path: string, ts: seq<Token>, k: nat) {
    && |ts| >= 2 && ts[0] == Word("events") && ts[1] == OpenBrace && !Closes(ts[2..])
    && RootStep(env, path, "events", ts[1..]).Some? && RootStep(env, path, "events", ts[1..]).value.1 + 1 == k
  }

  /** Position k, a head of the root loop, is directly before the brace of an empty events block. */
  predicate InEmptyEvents(env: Env, path: string, ts: seq<Token>, k: nat)
    decreases |ts|
  {
    && k > 0 && ts != [] && ts[0].Word?
    && if OpenEvents(env, path, ts, k) then k < |ts| && ts[k] == CloseBrace
       else
         match RootStep(env, path, ts[0].text, ts[1..])
         case None => false
         case Some((_, n)) => 1 + n <= k && InEmptyEvents(env, path, Drop(ts[1..], n), k - 1 - n)
  }

  /** The configuration that the loop has gathered when it comes to its head at position k. */
  function GatheredAt(env: Env, path: string, depth: nat, ts: seq<Token>, k: nat, cfg: Config): Option<Config>
    requires depth <= MAX_INCLUDE_DEPTH
    decreases |ts|
  {
    if k == 0 || ts == [] || !ts[0].Word? then Some(cfg)
    else
      match RootStep(env, path, ts[0].text, ts[1..])
      case None => None
      case Some((edit, n)) =>
        match Merged(env, path, depth, edit, cfg)
        case None => None
        case Some(next) => GatheredAt(env, path, depth, Drop(ts[1..], n), if 1 + n <= k then k - 1 - n else 0, next)
  }

  lemma ClosedEventsEnd(ts: seq<Token>, u: seq<Token>)
    requires ts != [] && EventsBlock(ts[1..], None).Some? && Closes(ts[1..])
    ensures var n := 1 + EventsBlock(ts[1..], None).value.1;
      && n <= |ts| && Insert(ts, n, u)[0] == ts[0]
      && EventsBlock(Insert(ts, n, u)[1..], None) == EventsBlock(ts[1..], None)
  {
    var body := ts[1..];
    var n := EventsBlock(body, None).value.1;
    EventsEnd(body, None);
    hide EventsBlock, EventsRun;
    InsertTail(ts, n + 1, u, 1);
    InsertAgrees(body, n, u, n);
    EventsLocal(body, Insert(body, n, u), None);
  }

  lemma RootEnds(env: Env, path: string, x: Unknown, name: string, ts: seq<Token>)
    requires Balanced(x) && RootStep(env, path, name, ts).Some? && RootStep(env, path, name, ts).value.1 <= |ts|
    requires name == "events" ==> Closes(ts[1..])
    ensures var r, u := RootStep(env, path, name, ts), UnknownTokens(x);
      var more := RootStep(env, path, name, Insert(ts, r.value.1, u));
      more == r || more == Shift(r, |u|)
  {
    hide EventsBlock, Closes, ParseHttp, SkipUnknown, IsRootValue, RootValueOk, Args, Insert, UnknownTokens, Balanced;
    var n, u := RootStep(env, path, name, ts).value.1, UnknownTokens(x);
    InsertAgrees(ts, n, u, n);
    if name == "events" {
      ClosedEventsEnd(ts, u);
      assert Insert(ts, n, u) != [] by { hide *; InsertedIsLonger(ts, n, u); }
    } else if name == "http" {
      ParseHttpLocal(env, path, ts, Insert(ts, n, u));
    } else if name == "include" || IsRootValue(name) {
      ArgsLocal(OneWord, ts, Insert(ts, n, u));
    } else {
      SkipUnknownAbsorbs(ts, x);
    }
  }

  lemma EventsOpens(env: Env, path: string, ts: seq<Token>)
    requires RootStep(env, path, "events", ts).Some?
    ensures ts != [] && ts[0] == OpenBrace
  {
    hide EventsBlock, ParseHttp, SkipUnknown, IsRootValue, Args;
  }

  /** The directive before the insertion, when the insertion is not inside it. */
  lemma EarlierRootDirective(env: Env, path: string, x: Unknown, name: string, ts: seq<Token>, k: nat)
    requires Balanced(x) && RootStep(env, path, name, ts).Some? && RootStep(env, path, name, ts).value.1 <= k <= |ts|
    requires RootStep(env, path, name, ts).value.1 == k && name == "events" ==> Closes(ts[1..])
    ensures var r, u := RootStep(env, path, name, ts), UnknownTokens(x);
      var more := RootStep(env, path, name, Insert(ts, k, u));
      more == r || (r.value.1 == k && more == Shift(r, |u|))
  {
    hide RootStep, Closes, Insert, UnknownTokens, Balanced;
    var n, u := RootStep(env, path, name, ts).value.1, UnknownTokens(x);
    if n < k {
      InsertAgrees(ts, k, u, n + 1);
      RootStepLocal(env, path, name, ts, Insert(ts, k, u));
    } else {
      RootEnds(env, path, x, name, ts);
    }
  }

  lemma InsertAtHead(env: Env, path: string, depth: nat, ts: seq<Token>, x: Unknown, cfg: Config)
    requires depth <= MAX_INCLUDE_DEPTH && Balanced(x) && !KnownAtRoot(x.name)
    ensures RootLoop(env, path, depth, Insert(ts, 0, UnknownTokens(x)), cfg) == RootLoop(env, path, depth, ts, cfg)
  {
    hide SkipUnknown, KnownAtRoot, RootLoop, RootStep, UnknownTokens, Balanced;
    var u := UnknownTokens(x);
    assert Insert(ts, 0, u) == u + ts;
    SkipsUnknown(x, ts);
    assert (u + ts)[1..][|u| - 1..] == ts;
    RootUnfold(env, path, depth, u + ts, cfg);
    UnknownStep(env, path, x.name, (u + ts)[1..]);
  }

  lemma UnknownStep(env: Env, path: string, name: string, ts: seq<Token>)
    requires !KnownAtRoot(name)
    ensures RootStep(env, path, name, ts) == Some((Nothing, SkipUnknown(ts)))
  {
    hide EventsBlock, ParseHttp, SkipUnknown, IsRootValue, Args;
  }

  /** The loop behind its first directive, without and with the insertion. */
  lemma RootGoesOn(env: Env, path: string, depth: nat, ts: seq<Token>, k: nat, u: seq<Token>, cfg: Config)
    requires depth <= MAX_INCLUDE_DEPTH && ts != [] && ts[0].Word? && 1 <= k <= |ts|
    requires RootStep(env, path, ts[0].text, ts[1..]).Some? && RootStep(env, path, ts[0].text, ts[1..]).value.1 <= k - 1
    requires var r := RootStep(env, path, ts[0].text, ts[1..]);
      var more := RootStep(env, path, ts[0].text, Insert(ts[1..], k - 1, u));
      more == r || (r.value.1 == k - 1 && more == Shift(r, |u|))
    ensures var (edit, n) := RootStep(env, path, ts[0].text, ts[1..]).value;
      match Merged(env, path, depth, edit, cfg)
      case None =>
        RootLoop(env, path, depth, ts, cfg) == None && RootLoop(env, path, depth, Insert(ts, k, u), cfg) == None
      case Some(next) =>
        && RootLoop(env, path, depth, ts, cfg) == RootLoop(env, path, depth, ts[1..][n..], next)
        && (RootLoop(env, path, depth, Insert(ts, k, u), cfg)
            == if RootStep(env, path, ts[0].text, Insert(ts[1..], k - 1, u)).value.1 == n
               then RootLoop(env, path, depth, Insert(ts[1..][n..], k - 1 - n, u), next)
               else RootLoop(env, path, depth, ts[1..][n..], next))
  {
    hide RootLoop, RootStep, RootFrom, Merged, Insert;
    var after, more := ts[1..], Insert(ts[1..], k - 1, u);
    var r := RootStep(env, path, ts[0].text, after);
    var (edit, n) := r.value;
    InsertedIsLonger(ts, k, u);
    InsertedIsLonger(after, k - 1, u);
    InsertTail(ts, k, u, 1);
    RootUnfold(env, path, depth, ts, cfg);
    RootUnfold(env, path, depth, Insert(ts, k, u), cfg);
    InsertTail(after, k - 1, u, n);
    RootFromIs(env, path, depth, r, after, cfg);
    RootFromIs(env, path, depth, RootStep(env, path, ts[0].text, more), more, cfg);
    DropInserted(after, k - 1, u, k - 1);
  }

  lemma RootFromIs(env: Env, path: string, depth: nat, r: Option<(Edit, nat)>, after: seq<Token>, cfg: Config)
    requires depth <= MAX_INCLUDE_DEPTH && r.Some?
    ensures RootFrom(env, path, depth, r, after, cfg) == match Merged(env, path, depth, r.value.0, cfg)
      case None => None
      case Some(next) => RootLoop(env, path, depth, Drop(after, r.value.1), next)
  {
    hide RootLoop, Merged;
  }

  lemma MergedConnections(env: Env, path: string, depth: nat, c: Option<nat>, cfg: Config)
    requires depth <= MAX_INCLUDE_DEPTH
    ensures Merged(env, path, depth, SetConnections(c), cfg) == Some(Edited(env, SetConnections(c), cfg))
  {
  }

  /** The loop over a file that begins with an events block read without an error. */
  lemma EventsFileLoop(env: Env, path: string, depth: nat, body: seq<Token>, cfg: Config)
    requires depth <= MAX_INCLUDE_DEPTH && EventsBlock(body, None).Some?
    ensures var (c, n) := EventsBlock(body, None).value;
      RootLoop(env, path, depth, EventsFile(body), cfg)
        == RootLoop(env, path, depth, Drop(body, n), Edited(env, SetConnections(c), cfg))
  {
    var (c, n) := EventsBlock(body, None).value;
    var ts := EventsFile(body);
    EventsStep(env, path, body);
    assert Drop(ts[1..], 1 + n) == Drop(body, n);
    assert ts != [] && ts[0] == Word("events");
    hide *;
    RootUnfold(env, path, depth, ts, cfg);
    MergedConnections(env, path, depth, c, cfg);
    RootFromIs(env, path, depth, RootStep(env, path, "events", ts[1..]), ts[1..], cfg);
  }

  lemma OpenEventsAre(env: Env, path: string, ts: seq<Token>, k: nat)
    requires OpenEvents(env, path, ts, k)
    ensures ts == EventsFile(ts[2..]) && EventsBlock(ts[2..], None).Some? && !Closes(ts[2..])
    ensures k == 2 + EventsRun(ts[2..]) <= |ts| && (k < |ts| ==> !ts[k].Word? && ts[k] == ts[2..][k - 2])
    ensures RootStep(env, path, "events", ts[1..]) == Some((SetConnections(EventsBlock(ts[2..], None).value.0), k - 1))
    ensures k < |ts| && ts[k] == CloseBrace ==> k == 2
    ensures |ts| > 2 && ts[2] == CloseBrace ==> k == 2
  {
    RunStartsWithWord(ts[2..]);
    var body := ts[2..];
    assert ts == EventsFile(body);
    hide RootStep, EventsRun, EventsBlock;
    EventsStep(env, path, body);
    EventsEnd(body, None);
    assert IsRun(body, EventsRun(body));
    assert k < |ts| ==> body[k - 2] == ts[k];
  }

  lemma InsertInEventsFile(body: seq<Token>, k: nat, u: seq<Token>)
    requires k <= |body|
    ensures Insert(EventsFile(body), 2 + k, u) == EventsFile(Insert(body, k, u))
  {
  }

  /** The insertion behind an events block that does not close. */
  lemma InsertBehindEvents(env: Env, path: string, depth: nat, ts: seq<Token>, k: nat, x: Unknown, cfg: Config)
    requires depth <= MAX_INCLUDE_DEPTH && OpenEvents(env, path, ts, k) && x.name != "worker_connections"
    ensures k <= |ts|
    ensures var c := Edited(env, SetConnections(EventsBlock(ts[2..], None).value.0), cfg);
      && RootLoop(env, path, depth, ts, cfg) == Some(c)
      && RootLoop(env, path, depth, Insert(ts, k, UnknownTokens(x)), cfg)
         == if x.body.None? && k < |ts| && ts[k] == CloseBrace
            then RootLoop(env, path, depth, ts[k + 1..], c) else Some(c)
  {
    hide *;
    OpenEventsAre(env, path, ts, k);
    var body, u := ts[2..], UnknownTokens(x);
    var run := EventsRun(body);
    var more := Insert(body, run, u);
    InsertIntoEvents(body, None, x);
    InsertInEventsFile(body, run, u);
    StopsAgainIs(body, x, EventsBlock(body, None).value.0, more, EventsBlock(more, None));
    EventsFileLoop(env, path, depth, body, cfg);
    EventsFileLoop(env, path, depth, more, cfg);
    var c := Edited(env, SetConnections(EventsBlock(body, None).value.0), cfg);
    Leftover(body, run);
    Stops(env, path, depth, Drop(body, run), c);
    OutcomeOfInsertion(env, path, depth, ts, k, x, body, more, c);
  }

  lemma StopsAgainIs(ts: seq<Token>, x: Unknown, c: Option<nat>, more: seq<Token>, r: Option<(Option<nat>, nat)>)
    requires StopsAgain(ts, x, c, more, r)
    ensures r.Some? && r.value.0 == c
  {
  }

  lemma Leftover(body: seq<Token>, n: nat)
    requires n <= |body| && (n < |body| ==> !body[n].Word?)
    ensures Drop(body, n) == [] || !Drop(body, n)[0].Word?
  {
  }

  lemma OutcomeOfInsertion(env: Env, path: string, depth: nat, ts: seq<Token>, k: nat, x: Unknown,
                           body: seq<Token>, more: seq<Token>, c: Config)
    requires depth <= MAX_INCLUDE_DEPTH && 2 <= k <= |ts|
    requires body == ts[2..] && more == Insert(body, k - 2, UnknownTokens(x))
    requires k < |ts| && ts[k] == CloseBrace ==> k == 2
    requires k < |ts| ==> ts[k] == body[k - 2]
    requires body != [] && body[0] == CloseBrace ==> k == 2
    requires EventsBlock(body, None).Some? && EventsBlock(more, None).Some?
    requires StopsAgain(body, x, EventsBlock(body, None).value.0, more, EventsBlock(more, None))
    ensures RootLoop(env, path, depth, Drop(more, EventsBlock(more, None).value.1), c)
         == if x.body.None? && k < |ts| && ts[k] == CloseBrace
            then RootLoop(env, path, depth, ts[k + 1..], c) else Some(c)
  {
    hide RootLoop, EventsBlock, UnknownTokens;
    var n, u := EventsBlock(more, None).value.1, UnknownTokens(x);
    if FillsEmpty(body, x) {
      assert Insert(body, 0, u) == u + body;
      assert Drop(more, |u| + 1) == body[1..] == ts[k + 1..];
    } else {
      Leftover(more, n);
      Stops(env, path, depth, Drop(more, n), c);
    }
  }

  /** What the loop goes on with behind the token at position k. */
  function BehindHead(env: Env, path: string, depth: nat, ts: seq<Token>, k: nat, cfg: Config): Option<Config>
    requires depth <= MAX_INCLUDE_DEPTH && RootHead(env, path, ts, k)
  {
    match GatheredAt(env, path, depth, ts, k, cfg)
    case None => None
    case Some(c) => RootLoop(env, path, depth, Drop(ts, k + 1), c)
  }

  lemma HeadIs(env: Env, path: string, ts: seq<Token>, k: nat)
    requires RootHead(env, path, ts, k) && k > 0
    ensures ts != [] && ts[0].Word? && RootStep(env, path, ts[0].text, ts[1..]).Some?
    ensures var n := RootStep(env, path, ts[0].text, ts[1..]).value.1;
      1 + n <= k <= |ts| && RootHead(env, path, ts[1..][n..], k - 1 - n)
  {
    hide RootStep;
  }

  lemma GatheredStep(env: Env, path: string, depth: nat, ts: seq<Token>, k: nat, cfg: Config)
    requires depth <= MAX_INCLUDE_DEPTH && RootHead(env, path, ts, k) && k > 0
    ensures ts != [] && ts[0].Word? && RootStep(env, path, ts[0].text, ts[1..]).Some?
    ensures var (edit, n) := RootStep(env, path, ts[0].text, ts[1..]).value;
      && 1 + n <= k <= |ts| && RootHead(env, path, ts[1..][n..], k - 1 - n)
      && (GatheredAt(env, path, depth, ts, k, cfg)
          == match Merged(env, path, depth, edit, cfg)
             case None => None
             case Some(next) => GatheredAt(env, path, depth, ts[1..][n..], k - 1 - n, next))
  {
    hide RootStep, Merged;
  }

  lemma EmptyStep(env: Env, path: string, ts: seq<Token>, k: nat)
    requires RootHead(env, path, ts, k) && k > 0
    ensures ts != [] && ts[0].Word? && RootStep(env, path, ts[0].text, ts[1..]).Some?
    ensures var n := RootStep(env, path, ts[0].text, ts[1..]).value.1;
      && 1 + n <= k <= |ts| && RootHead(env, path, ts[1..][n..], k - 1 - n)
      && (InEmptyEvents(env, path, ts, k)
          == if OpenEvents(env, path, ts, k) then k < |ts| && ts[k] == CloseBrace
             else InEmptyEvents(env, path, ts[1..][n..], k - 1 - n))
  {
    hide RootStep, OpenEvents;
  }

  lemma NothingBefore(env: Env, path: string, depth: nat, ts: seq<Token>, cfg: Config)
    requires depth <= MAX_INCLUDE_DEPTH
    ensures RootHead(env, path, ts, 0) && !InEmptyEvents(env, path, ts, 0)
    ensures GatheredAt(env, path, depth, ts, 0, cfg) == Some(cfg)
  {
    hide RootStep, Merged, OpenEvents;
  }

  /** What an insertion does: nothing, or it fills an empty events block, and the loop goes on behind it. */
  ghost predicate Outcome(env: Env, path: string, depth: nat, ts: seq<Token>, k: nat, x: Unknown, cfg: Config)
    requires depth <= MAX_INCLUDE_DEPTH && RootHead(env, path, ts, k) && k <= |ts|
  {
    var after := RootLoop(env, path, depth, Insert(ts, k, UnknownTokens(x)), cfg);
    if x.body.None? && InEmptyEvents(env, path, ts, k) then
      && RootLoop(env, path, depth, ts, cfg) == GatheredAt(env, path, depth, ts, k, cfg)
      && after == BehindHead(env, path, depth, ts, k, cfg)
    else after == RootLoop(env, path, depth, ts, cfg)
  }

  lemma OutcomeAtEvents(env: Env, path: string, depth: nat, ts: seq<Token>, k: nat, x: Unknown, cfg: Config)
    requires depth <= MAX_INCLUDE_DEPTH && RootHead(env, path, ts, k) && 0 < k <= |ts|
    requires OpenEvents(env, path, ts, k) && x.name != "worker_connections"
    ensures Outcome(env, path, depth, ts, k, x, cfg)
  {
    hide RootLoop, RootStep, Merged, Insert, UnknownTokens, RootHead, InEmptyEvents, GatheredAt;
    hide OpenEvents, EventsBlock, Edited, Closes;
    OpenEventsAre(env, path, ts, k);
    InsertBehindEvents(env, path, depth, ts, k, x, cfg);
    EmptyStep(env, path, ts, k);
    GatheredStep(env, path, depth, ts, k, cfg);
    var c := EventsBlock(ts[2..], None).value.0;
    MergedConnections(env, path, depth, c, cfg);
    NothingBefore(env, path, depth, ts[1..][k - 1..], Edited(env, SetConnections(c), cfg));
  }

  /** The step of the induction: the insertion is behind the first directive, and not where an events block
      stayed open. */
  lemma OutcomeLater(env: Env, path: string, depth: nat, ts: seq<Token>, k: nat, x: Unknown, cfg: Config,
                     edit: Edit, n: nat, merged: Option<Config>)
    requires depth <= MAX_INCLUDE_DEPTH && RootHead(env, path, ts, k) && 1 + n <= k <= |ts|
    requires Balanced(x) && !OpenEvents(env, path, ts, k)
    requires ts[0].Word? && RootStep(env, path, ts[0].text, ts[1..]) == Some((edit, n))
    requires RootHead(env, path, ts[1..][n..], k - 1 - n) && merged == Merged(env, path, depth, edit, cfg)
    requires merged.Some? ==> Outcome(env, path, depth, ts[1..][n..], k - 1 - n, x, merged.value)
    ensures Outcome(env, path, depth, ts, k, x, cfg)
  {
    hide RootLoop, RootStep, Merged, Insert, UnknownTokens, RootHead, InEmptyEvents, GatheredAt;
    hide OpenEvents, Balanced, Closes;
    var u, after, name := UnknownTokens(x), ts[1..], ts[0].text;
    NotOpen(env, path, ts, k);
    EarlierRootDirective(env, path, x, name, after, k - 1);
    RootGoesOn(env, path, depth, ts, k, u, cfg);
    EmptyStep(env, path, ts, k);
    GatheredStep(env, path, depth, ts, k, cfg);
    DropTails(ts, n, k);
    if k - 1 == n { NothingBefore(env, path, depth, after[n..], cfg); }
  }

  lemma DropTails(ts: seq<Token>, n: nat, k: nat)
    requires 1 + n <= k <= |ts|
    ensures Drop(ts[1..][n..], k - 1 - n + 1) == Drop(ts, k + 1)
  {
  }

  lemma NotOpen(env: Env, path: string, ts: seq<Token>, k: nat)
    requires ts != [] && ts[0].Word? && !OpenEvents(env, path, ts, k)
    requires RootStep(env, path, ts[0].text, ts[1..]).Some?
    ensures ts[0].text == "events" ==> ts[1..] != []
    ensures RootStep(env, path, ts[0].text, ts[1..]).value.1 + 1 == k && ts[0].text == "events" ==> Closes(ts[1..][1..])
  {
    hide RootStep, Closes;
    if ts[0].text == "events" {
      EventsOpens(env, path, ts[1..]);
      assert ts[1..][1..] == ts[2..] && ts[0] == Word("events");
    }
  }

  lemma {:induction false} OutcomeAtRoot(
      env: Env, path: string, depth: nat, ts: seq<Token>, k: nat, x: Unknown, cfg: Config)
    requires depth <= MAX_INCLUDE_DEPTH && Balanced(x) && !KnownAtRoot(x.name)
    requires RootHead(env, path, ts, k) && k <= |ts|
    ensures Outcome(env, path, depth, ts, k, x, cfg)
    decreases |ts|
  {
    hide RootLoop, RootStep, Merged, Insert, UnknownTokens, RootHead, InEmptyEvents, GatheredAt, OpenEvents, Balanced;
    if k == 0 {
      NothingBefore(env, path, depth, ts, cfg);
      InsertAtHead(env, path, depth, ts, x, cfg);
    } else if OpenEvents(env, path, ts, k) {
      OutcomeAtEvents(env, path, depth, ts, k, x, cfg);
    } else {
      HeadIs(env, path, ts, k);
      var (edit, n) := RootStep(env, path, ts[0].text, ts[1..]).value;
      var merged := Merged(env, path, depth, edit, cfg);
      hide Outcome;
      if merged.Some? { OutcomeAtRoot(env, path, depth, ts[1..][n..], k - 1 - n, x, merged.value); }
      OutcomeLater(env, path, depth, ts, k, x, cfg, edit, n, merged);
    }
  }

  /** An unknown directive at any head of the root loop leaves the configuration that the loop returns, error
      or not, the same, unless it fills an empty events block: without a block of its own, right before the
      brace. Then the file is read on behind that brace, and the insertion goes unnoticed exactly when loading
      had failed before, or reading on adds nothing. */
  lemma UnknownDirectiveAtRoot(env: Env, path: string, depth: nat, ts: seq<Token>, k: nat, x: Unknown, cfg: Config)
    requires depth <= MAX_INCLUDE_DEPTH && Balanced(x) && !KnownAtRoot(x.name)
    requires RootHead(env, path, ts, k) && k <= |ts|
    ensures RootLoop(env, path, depth, Insert(ts, k, UnknownTokens(x)), cfg) == RootLoop(env, path, depth, ts, cfg)
       <==> || x.body.Some? || !InEmptyEvents(env, path, ts, k)
            || GatheredAt(env, path, depth, ts, k, cfg) == None
            || BehindHead(env, path, depth, ts, k, cfg) == GatheredAt(env, path, depth, ts, k, cfg)
    ensures x.body.None? && InEmptyEvents(env, path, ts, k) ==>
      RootLoop(env, path, depth, Insert(ts, k, UnknownTokens(x)), cfg) == BehindHead(env, path, depth, ts, k, cfg)
  {
    hide RootLoop, RootStep, Merged, Insert, UnknownTokens, RootHead, InEmptyEvents, GatheredAt, Balanced, KnownAtRoot;
    OutcomeAtRoot(env, path, depth, ts, k, x, cfg);
  }
}

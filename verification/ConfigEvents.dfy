/** Where the root loop stops: which tokens an events block takes, which files are read to their end,
    and what becomes of the rest of the others. */
module ConfigEvents {
  import opened Common
  import opened Tokenizer
  import opened ConfigTypes
  import opened ConfigGrammar
  import opened ConfigLocality
  import opened ConfigInsertion
  import opened ConfigLoading

  // ---- The events block ----

  /** A word, or a semicolon directly behind a word. */
  predicate InRun(ts: seq<Token>, i: nat)
    requires i < |ts|
  {
    ts[i].Word? || (ts[i] == Semicolon && i > 0 && ts[i - 1].Word?)
  }

  /** The longest front of words and of semicolons directly behind a word. */
  ghost predicate IsRun(ts: seq<Token>, k: nat) {
    k <= |ts| && (forall i | 0 <= i < k :: InRun(ts, i)) && (k < |ts| ==> !InRun(ts, k))
  }

  function RunFrom(ts: seq<Token>, i: nat): (k: nat)
    requires i <= |ts| && forall j | 0 <= j < i :: InRun(ts, j)
    ensures IsRun(ts, k)
    decreases |ts| - i
  {
    if i < |ts| && InRun(ts, i) then RunFrom(ts, i + 1) else i
  }

  function EventsRun(ts: seq<Token>): (k: nat)
    ensures IsRun(ts, k)
  {
    RunFrom(ts, 0)
  }

  /** That front is not empty, and a closing brace is behind it. */
  predicate Closes(ts: seq<Token>) {
    0 < EventsRun(ts) < |ts| && ts[EventsRun(ts)] == CloseBrace
  }

  lemma ClosesInside(ts: seq<Token>)
    requires Closes(ts)
    ensures EventsRun(ts) < |ts|
  {
  }

  lemma RunIs(ts: seq<Token>, k: nat)
    requires IsRun(ts, k)
    ensures EventsRun(ts) == k
  {
    assert IsRun(ts, EventsRun(ts));
  }

  /** One directive of the block: words, and their semicolon if there is one. */
  predicate IsDirective(ts: seq<Token>, m: nat) {
    && 0 < m <= |ts| && (forall i | 0 <= i < m :: InRun(ts, i))
    && (m < |ts| ==> !(ts[m] == Semicolon && ts[m - 1].Word?)) && (m < |ts| && ts[m].Word? ==> !ts[m - 1].Word?)
  }

  lemma RunSplits(ts: seq<Token>, m: nat)
    requires IsDirective(ts, m)
    ensures EventsRun(ts) == m + EventsRun(ts[m..])
  {
    var rest, k := ts[m..], EventsRun(ts[m..]);
    forall i: nat | m <= i < |ts| ensures InRun(ts, i) <==> InRun(rest, i - m) {
      if i > m { assert ts[i - 1] == rest[i - m - 1]; }
    }
    assert IsRun(ts, m + k);
    RunIs(ts, m + k);
  }

  lemma RunStartsWithWord(ts: seq<Token>)
    ensures EventsRun(ts) > 0 <==> ts != [] && ts[0].Word?
  {
    assert ts != [] ==> (InRun(ts, 0) <==> ts[0].Word?);
  }

  /** What the block's loop takes first, and the connections it then knows. */
  function EventsFirst(ts: seq<Token>, c: Option<nat>): Option<(nat, Option<nat>)>
    requires ts != [] && ts[0].Word?
  {
    if ts[0] == Word("worker_connections") then
      match Args(OneWord, ts[1..])
      case None => None
      case Some((args, n)) => if Number(args[0], U64).None? then None else Some((1 + n, Number(args[0], U64)))
    else
      var k := Leading(ts);
      Some((if k < |ts| && ts[k] == Semicolon then k + 1 else k, c))
  }

  lemma FirstIs(ts: seq<Token>, c: Option<nat>)
    requires ts != [] && ts[0].Word?
    ensures match EventsFirst(ts, c)
      case None => EventsBlock(ts, c) == None
      case Some((m, next)) => IsDirective(ts, m) && EventsBlock(ts, c) == CloseEvents(ts, m, next)
  {
    hide EventsBlock, CloseEvents, Number;
    EventsUnfold(ts, c);
    if ts[0] == Word("worker_connections") && Args(OneWord, ts[1..]).Some? {
      assert ts[1..][0] == ts[1] && ts[1..][1] == ts[2];
    }
    hide Args, Leading;
  }

  /** An events block that is read without an error takes the run, and the closing brace behind it. */
  lemma {:induction false} EventsEnd(ts: seq<Token>, c: Option<nat>)
    requires EventsBlock(ts, c).Some?
    ensures EventsBlock(ts, c).value.1 == EventsRun(ts) + if Closes(ts) then 1 else 0
    decreases |ts|
  {
    hide EventsBlock, EventsRun;
    RunStartsWithWord(ts);
    EventsUnfold(ts, c);
    if ts != [] && ts[0].Word? {
      FirstIs(ts, c);
      var (m, c') := EventsFirst(ts, c).value;
      RunSplits(ts, m);
      RunStartsWithWord(ts[m..]);
      if !(m < |ts| && ts[m] == CloseBrace) { EventsEnd(ts[m..], c'); }
    }
    hide IsDirective;
  }

  // ---- The root loop ----

  /** The tokens that the root loop leaves unread when it stops without an error in a directive. */
  function Unread(env: Env, path: string, ts: seq<Token>): (r: Option<seq<Token>>)
    ensures r.Some? ==> |r.value| <= |ts|
    decreases |ts|
  {
    if ts == [] || !ts[0].Word? then Some(ts)
    else
      match RootStep(env, path, ts[0].text, ts[1..])
      case None => None
      case Some((_, n)) => Unread(env, path, Drop(ts[1..], n))
  }

  lemma UnreadStops(env: Env, path: string, ts: seq<Token>)
    requires ts == [] || !ts[0].Word?
    ensures Unread(env, path, ts) == Some(ts)
  {
  }

  lemma UnreadGoesOn(env: Env, path: string, ts: seq<Token>, n: nat)
    requires ts != [] && ts[0].Word?
    requires RootStep(env, path, ts[0].text, ts[1..]).Some? && RootStep(env, path, ts[0].text, ts[1..]).value.1 == n
    ensures Unread(env, path, ts) == Unread(env, path, Drop(ts[1..], n))
  {
    hide RootStep;
  }

  function EventsFile(body: seq<Token>): seq<Token> { [Word("events"), OpenBrace] + body }

  lemma EventsStep(env: Env, path: string, body: seq<Token>)
    ensures EventsFile(body)[1..][1..] == body
    ensures RootStep(env, path, "events", EventsFile(body)[1..]).Some? <==> EventsBlock(body, None).Some?
    ensures EventsBlock(body, None).Some? ==>
      RootStep(env, path, "events", EventsFile(body)[1..])
        == Some((SetConnections(EventsBlock(body, None).value.0), 1 + EventsBlock(body, None).value.1))
  {
    hide EventsBlock, ParseHttp, SkipUnknown, IsRootValue, Args;
    assert EventsFile(body)[1..] == [OpenBrace] + body;
  }

  /** Behind an events block without an error the root loop goes on exactly when the block closes or the
      file is at its end; otherwise everything from the first token outside the run is left unread. */
  lemma EventsGoOn(env: Env, path: string, body: seq<Token>)
    requires EventsBlock(body, None).Some?
    ensures var k := EventsRun(body);
      Unread(env, path, EventsFile(body)) == if Closes(body) then Unread(env, path, body[k + 1..]) else Some(body[k..])
  {
    hide EventsBlock, RootStep, Unread, EventsRun;
    var ts, k := EventsFile(body), EventsRun(body);
    EventsStep(env, path, body);
    EventsEnd(body, None);
    var n := if Closes(body) then k + 1 else k;
    UnreadGoesOn(env, path, ts, 1 + n);
    assert Drop(ts[1..], 1 + n) == body[n..];
    if !Closes(body) {
      if k == 0 { RunStartsWithWord(body); }
      UnreadStops(env, path, body[k..]);
    }
  }

  /** No token is out of place between the root directives of a file: every events block closes, or runs
      to the end, and no other directive is followed by a mark. */
  predicate NoStrayToken(env: Env, path: string, ts: seq<Token>)
    decreases |ts|
  {
    ts == [] || (ts[0].Word? &&
      if ts[0].text == "events" && |ts| >= 2 && ts[1] == OpenBrace then
        var body := ts[2..];
        if Closes(body) then NoStrayToken(env, path, body[EventsRun(body) + 1..]) else EventsRun(body) == |body|
      else
        match RootStep(env, path, ts[0].text, ts[1..])
        case None => true
        case Some((_, n)) => NoStrayToken(env, path, Drop(ts[1..], n)))
  }

  /** Which files are read to the end: without an error in a directive, exactly those in which every
      events block closes and no mark stands in the place of a directive. */
  lemma {:induction false} ReadsToEnd(env: Env, path: string, ts: seq<Token>)
    requires Unread(env, path, ts).Some?
    ensures Unread(env, path, ts) == Some([]) <==> NoStrayToken(env, path, ts)
    decreases |ts|
  {
    hide RootStep, EventsRun, EventsBlock, Closes;
    if ts != [] && ts[0].Word? {
      if ts[0].text == "events" && |ts| >= 2 && ts[1] == OpenBrace {
        var body := ts[2..];
        assert ts == EventsFile(body);
        EventsStep(env, path, body);
        EventsGoOn(env, path, body);
        if Closes(body) {
          ClosesInside(body);
          ReadsToEnd(env, path, body[EventsRun(body) + 1..]);
        }
      } else {
        ReadsToEnd(env, path, Drop(ts[1..], RootStep(env, path, ts[0].text, ts[1..]).value.1));
      }
    }
  }

  /** What the loop leaves unread is the end of the file, and it does not count: the configuration, or the
      error, is that of every file with the same tokens up to the first unread one. */
  lemma {:induction false} UnreadIsIgnored(
      env: Env, path: string, depth: nat, ts: seq<Token>, other: seq<Token>, left: seq<Token>, cfg: Config)
    requires depth <= MAX_INCLUDE_DEPTH && Unread(env, path, ts) == Some(left) && left != []
    requires Agree(ts, other, |ts| - |left| + 1)
    ensures left == ts[|ts| - |left|..]
    ensures RootLoop(env, path, depth, other, cfg) == RootLoop(env, path, depth, ts, cfg)
    decreases |ts|
  {
    hide *;
    UnreadIsLeft(env, path, ts);
    UnreadUnfolds(env, path, ts, other, left);
    if ts == [] || !ts[0].Word? {
      Stops(env, path, depth, ts, cfg);
      Stops(env, path, depth, other, cfg);
    } else {
      var (edit, n) := RootStep(env, path, ts[0].text, ts[1..]).value;
      var merged := Merged(env, path, depth, edit, cfg);
      if merged.Some? { UnreadIsIgnored(env, path, depth, ts[1..][n..], other[1..][n..], left, merged.value); }
      RootUnfold(env, path, depth, ts, cfg);
      RootUnfold(env, path, depth, other, cfg);
      RootFromSame(env, path, depth, edit, n, ts[1..], other[1..], cfg);
    }
  }

  /** The first directive of the loop is the same, and the rest of the two files agrees as they do. */
  lemma UnreadUnfolds(env: Env, path: string, ts: seq<Token>, other: seq<Token>, left: seq<Token>)
    requires Unread(env, path, ts) == Some(left) && left != [] && Agree(ts, other, |ts| - |left| + 1)
    ensures other != [] && ts != [] && other[0] == ts[0]
    ensures ts[0].Word? ==>
      var r := RootStep(env, path, ts[0].text, ts[1..]);
      && r.Some? && RootStep(env, path, ts[0].text, other[1..]) == r
      && r.value.1 <= |ts[1..]| && r.value.1 <= |other[1..]|
      && var a, b := ts[1..][r.value.1..], other[1..][r.value.1..];
      && |a| < |ts| && Unread(env, path, a) == Some(left) && Agree(a, b, |a| - |left| + 1)
  {
    hide RootStep, Unread, Agree;
    var k := |ts| - |left|;
    UnreadSteps(env, path, ts);
    AgreeLong(ts, other, k + 1);
    AgreeAt(ts, other, k + 1, 0);
    if ts[0].Word? {
      var name, a, b := ts[0].text, ts[1..], other[1..];
      var n := RootStep(env, path, name, a).value.1;
      AgreeTail(ts, other, k + 1, 1);
      AgreeLess(a, b, k, n + 1);
      RootStepLocal(env, path, name, a, b);
      AgreeLong(a, b, k);
      AgreeTail(a, b, k, n);
    }
  }

  lemma UnreadSteps(env: Env, path: string, ts: seq<Token>)
    requires Unread(env, path, ts).Some?
    ensures |Unread(env, path, ts).value| <= |ts|
    ensures ts != [] && ts[0].Word? ==>
      && RootStep(env, path, ts[0].text, ts[1..]).Some?
      && var rest := Drop(ts[1..], RootStep(env, path, ts[0].text, ts[1..]).value.1);
      && Unread(env, path, rest) == Unread(env, path, ts) && |Unread(env, path, ts).value| <= |rest|
  {
    hide RootStep;
  }

  lemma Stops(env: Env, path: string, depth: nat, ts: seq<Token>, cfg: Config)
    requires depth <= MAX_INCLUDE_DEPTH && (ts == [] || !ts[0].Word?)
    ensures RootLoop(env, path, depth, ts, cfg) == Some(cfg)
  {
  }

  lemma {:induction false} UnreadIsLeft(env: Env, path: string, ts: seq<Token>)
    ensures Unread(env, path, ts).Some? ==>
      Unread(env, path, ts).value == ts[|ts| - |Unread(env, path, ts).value|..]
    decreases |ts|
  {
    hide RootStep;
    if ts != [] && ts[0].Word? && RootStep(env, path, ts[0].text, ts[1..]).Some? {
      UnreadIsLeft(env, path, Drop(ts[1..], RootStep(env, path, ts[0].text, ts[1..]).value.1));
    }
  }
}

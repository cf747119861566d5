/** The scan detector with the program's own score: when garbage collection shows, and when the limit of
    one report a day fails. */
module ScanLimits {
  import opened Common
  import opened ScanDetector
  import ConfigTypes

  function ScoreOf(threshold: nat, rate: real): (nat, nat, nat) -> nat {
    (reqs, errors, probes) => Score(threshold, rate, reqs, errors, probes)
  }

  /** The detector that a loaded configuration starts. */
  function Detector(c: ConfigTypes.Config, whitelist: set<Ip>): Config {
    Config(c.scanDetection, c.scanWindow, c.scanBlock, whitelist, c.abuseReport && c.abuseKey.Some?,
           ScoreOf(c.scanThreshold, c.scanErrorRate))
  }

  /** Settings under which every request reaches the trigger: a threshold of at most one request gives
      full volume, and an error rate of zero is always reached. */
  predicate RefusesAll(threshold: nat, rate: real) { threshold <= 1 && rate == 0.0 }

  lemma RefusesAllScores(threshold: nat, rate: real, reqs: nat, errors: nat, probes: nat)
    requires RefusesAll(threshold, rate) && reqs > 0
    ensures Score(threshold, rate, reqs, errors, probes) >= SCORE_TRIGGER
  {
    assert errors as real / reqs as real >= 0.0;
  }

  // ---- A sequence of plain visits ----

  lemma FloorIs(x: real, q: nat)
    requires q as real <= x < (q + 1) as real
    ensures x.Floor == q
  {
  }

  lemma VolumeIs(threshold: nat, reqs: nat)
    requires reqs < threshold
    ensures VolumeScore(threshold, reqs) == 30 * reqs / threshold
  {
    Fraction(reqs, threshold);
    Thirtyfold(threshold, reqs, 30 * reqs / threshold);
    FloorIs(reqs as real / threshold as real * 30.0, 30 * reqs / threshold);
  }

  lemma Thirtyfold(threshold: nat, reqs: nat, k: nat)
    requires threshold > 0 && k * threshold <= 30 * reqs < (k + 1) * threshold
    ensures k as real <= reqs as real / threshold as real * 30.0 < (k + 1) as real
  {
    InReals(k, k + 1, threshold, reqs);
    Quotient(reqs as real, threshold as real);
    ScaledBetween(reqs as real, threshold as real, reqs as real / threshold as real, k as real, (k + 1) as real);
  }

  lemma InReals(low: nat, high: nat, d: nat, n: nat)
    requires low * d <= 30 * n < high * d
    ensures low as real * d as real <= 30.0 * n as real < high as real * d as real
  {
    TimesAsReal(low, d);
    TimesAsReal(high, d);
    TimesAsReal(30, n);
  }

  lemma ScaledBetween(r: real, d: real, q: real, low: real, high: real)
    requires d > 0.0 && q * d == r && low * d <= 30.0 * r < high * d
    ensures low <= q * 30.0 < high
  {
    Scaled(r, d, q);
    Between(q * 30.0, d, 30.0 * r, low, high);
  }

  lemma Scaled(r: real, d: real, q: real)
    requires q * d == r
    ensures (q * 30.0) * d == 30.0 * r
  {
  }

  lemma TimesAsReal(a: nat, b: nat)
    ensures (a * b) as real == a as real * b as real
  {
  }

  lemma Between(x: real, d: real, n: real, low: real, high: real)
    requires d > 0.0 && x * d == n && low * d <= n < high * d
    ensures low <= x < high
  {
    if x < low { Times(x, low, d); }
    if x > high { Times(high, x, d); }
  }

  lemma NoErrorScore(rate: real, reqs: nat)
    requires reqs > 0
    ensures ErrorScore(rate, reqs, 0) == if rate == 0.0 then 40 else 0
  {
    assert 0 as real / reqs as real == 0.0;
  }

  /** With these settings a visit that probes for anything is refused at once. */
  predicate Touchy(threshold: nat, rate: real) { rate == 0.0 && threshold <= 3 }

  /** Visits that are quiet one by one: three that probe, unless that is refused, and then plain ones. */
  function PathAt(touchy: bool, i: nat): string {
    if touchy || i >= 3 then "/" else if i == 0 then "/.env" else if i == 1 then "/.git" else "/admin"
  }

  function Found(touchy: bool, i: nat): (r: set<string>)
    ensures |r| == if touchy then 0 else Min(i, 3)
  {
    if touchy || i == 0 then {} else if i == 1 then {"/.env"} else if i == 2 then {"/.env", "/.git"}
    else {"/.env", "/.git", "/admin"}
  }

  /** The i-th of these visits reaches the trigger, after n other requests. */
  predicate Loud(threshold: nat, rate: real, n: nat, i: nat) {
    Score(threshold, rate, n + i + 1, 0, |Found(Touchy(threshold, rate), i + 1)|) >= SCORE_TRIGGER
  }

  lemma AloneIsQuiet(threshold: nat, rate: real, probes: nat)
    requires !RefusesAll(threshold, rate) && probes <= if Touchy(threshold, rate) then 0 else 1
    ensures Score(threshold, rate, 1, 0, probes) < SCORE_TRIGGER
  {
    NoErrorScore(rate, 1);
    if threshold > 1 { VolumeIs(threshold, 1); }
    if threshold >= 4 { assert 30 / threshold <= 7; }
  }

  lemma LateIsLoud(threshold: nat, rate: real, n: nat, i: nat)
    requires !RefusesAll(threshold, rate) && i >= threshold + 2
    ensures Loud(threshold, rate, n, i)
  {
    NoErrorScore(rate, n + i + 1);
  }

  /** The first loud visit from the i-th on. */
  lemma {:induction false} FirstLoud(threshold: nat, rate: real, n: nat, i: nat) returns (m: nat)
    requires !RefusesAll(threshold, rate)
    ensures m >= i && Loud(threshold, rate, n, m) && forall j | i <= j < m :: !Loud(threshold, rate, n, j)
    decreases threshold + 2 - i
  {
    hide Loud;
    if i >= threshold + 2 { LateIsLoud(threshold, rate, n, i); }
    if Loud(threshold, rate, n, i) { m := i; } else { m := FirstLoud(threshold, rate, n, i + 1); }
  }

  // ---- Probes of short paths ----

  lemma NotInShort(s: string, part: string)
    requires |part| > |s| || (|part| == |s| && part != s)
    ensures !Contains(s, part)
  {
  }

  lemma ProbesOfPaths()
    ensures ProbesIn("/") == {} && ProbesIn("/.env") == {"/.env"} && ProbesIn("/.git") == {"/.git"}
    ensures ProbesIn("/admin") == {"/admin"}
  {
    assert LowerText("/") == "/" && LowerText("/.env") == "/.env" && LowerText("/.git") == "/.git";
    assert LowerText("/admin") == "/admin";
    forall p | p in PROBE_PATHS
      ensures !Contains("/", p) && (Contains("/.env", p) ==> p == "/.env") && (Contains("/.git", p) ==> p == "/.git")
      ensures Contains("/admin", p) ==> p == "/admin"
    {
      ShortProbes(p);
      NotInShort("/", p);
      if p != "/.env" { NotInShort("/.env", p); }
      if p != "/.git" { NotInShort("/.git", p); }
      if p == "/.env" || p == "/.git" { LacksPart("/admin", p, 1); } else if p != "/admin" { NotInShort("/admin", p); }
    }
    assert forall s: string {:trigger Contains(s, s)} :: s[0..] == s;
    assert Contains("/.env", "/.env") && Contains("/.git", "/.git") && Contains("/admin", "/admin");
  }

  lemma ShortProbes(p: string)
    requires p in PROBE_PATHS
    ensures |p| >= 5 && (|p| == 5 ==> p == "/.env" || p == "/.git") && (|p| == 6 ==> p == "/admin")
  {
  }

  // ---- The visits as a run ----

  /** The record after n other requests and the first i of these visits, in a window from `start`. */
  function RecordAt(touchy: bool, start: nat, n: nat, i: nat): IpRecord {
    IpRecord(start, n + i, 0, Found(touchy, i), None, None)
  }

  lemma FindsAt(touchy: bool, i: nat)
    ensures Found(touchy, i) + ProbesIn(PathAt(touchy, i)) == Found(touchy, i + 1)
    ensures ProbesIn(PathAt(touchy, i)) == {} || (!touchy && |ProbesIn(PathAt(touchy, i))| == 1)
  {
    ProbesOfPaths();
    hide ProbesIn;
  }

  lemma VisitAt(cfg: Config, threshold: nat, rate: real, start: nat, n: nat, i: nat, now: nat)
    requires cfg.score == ScoreOf(threshold, rate) && start <= now <= start + cfg.window * SECOND
    ensures var t := Touchy(threshold, rate);
      var o := Visit(cfg, RecordAt(t, start, n, i), now, PathAt(t, i), 200);
      && (!Loud(threshold, rate, n, i) ==> o == Outcome(RecordAt(t, start, n, i + 1), false, false))
      && (Loud(threshold, rate, n, i) ==>
           && o.refused && o.reported == cfg.reporting && o.rec.windowStart == start
           && o.rec.blockedUntil == if cfg.block > 0 then Some(now + cfg.block * SECOND) else None)
  {
    FindsAt(Touchy(threshold, rate), i);
    hide ProbesIn, Score, PathAt, Touchy, Found;
  }

  lemma VisitFresh(cfg: Config, now: nat, path: string)
    ensures var o := Visit(cfg, NewRecord(now), now, path, 200);
      && (o.refused <==> cfg.score(1, 0, |ProbesIn(path)|) >= SCORE_TRIGGER)
      && (!o.refused ==> o == Outcome(IpRecord(now, 1, 0, ProbesIn(path), None, None), false, false))
  {
    assert {} + ProbesIn(path) == ProbesIn(path);
    hide ProbesIn;
  }

  /** Any of these visits is quiet when it is the first one. */
  lemma FreshVisit(cfg: Config, threshold: nat, rate: real, i: nat, now: nat)
    requires cfg.score == ScoreOf(threshold, rate) && !RefusesAll(threshold, rate)
    ensures !Visit(cfg, NewRecord(now), now, PathAt(Touchy(threshold, rate), i), 200).refused
  {
    hide ProbesIn, Score, PathAt, Touchy, Visit, Found, RefusesAll;
    var path := PathAt(Touchy(threshold, rate), i);
    FindsAt(Touchy(threshold, rate), i);
    AloneIsQuiet(threshold, rate, |ProbesIn(path)|);
    VisitFresh(cfg, now, path);
  }

  /** A request when no other address is on record. */
  lemma NextIs(cfg: Config, tr: Tracker, ip: Ip, now: nat, path: string)
    requires Watched(cfg, ip) && tr.Keys <= {ip}
    ensures var e, o := Timed(now, Request(ip, path, 200)), Visit(cfg, RecordOf(tr, ip, now), now, path, 200);
      Next(cfg, tr, e) == map[ip := o.rec] && Reports(cfg, tr, e, ip) == o.reported
  {
    hide Visit;
  }

  lemma FirstIsQuiet(threshold: nat, rate: real)
    requires !RefusesAll(threshold, rate)
    ensures !Loud(threshold, rate, 0, 0)
  {
    AloneIsQuiet(threshold, rate, |Found(Touchy(threshold, rate), 1)|);
  }

  function Visits(ip: Ip, now: nat, touchy: bool, i: nat, m: nat): seq<Timed>
    decreases m - i
  {
    if i >= m then [] else [Timed(now, Request(ip, PathAt(touchy, i), 200))] + Visits(ip, now, touchy, i + 1, m)
  }

  function After(cfg: Config, tr: Tracker, es: seq<Timed>): Tracker
    decreases |es|
  {
    if es == [] then tr else After(cfg, Next(cfg, tr, es[0]), es[1..])
  }

  lemma {:induction false} RunsJoin(cfg: Config, tr: Tracker, a: seq<Timed>, b: seq<Timed>, ip: Ip)
    ensures Answers(cfg, tr, a + b) == Answers(cfg, tr, a) + Answers(cfg, After(cfg, tr, a), b)
    ensures ReportTimes(cfg, tr, a + b, ip) == ReportTimes(cfg, tr, a, ip) + ReportTimes(cfg, After(cfg, tr, a), b, ip)
    ensures After(cfg, tr, a + b) == After(cfg, After(cfg, tr, a), b)
    decreases |a|
  {
    hide Next, AnswerOf, Reports;
    if a == [] {
      assert a + b == b;
    } else {
      assert (a + b)[0] == a[0] && (a + b)[1..] == a[1..] + b;
      RunsJoin(cfg, Next(cfg, tr, a[0]), a[1..], b, ip);
    }
  }

  lemma {:induction false} WithoutGcJoins(a: seq<Timed>, b: seq<Timed>)
    ensures WithoutGc(a + b) == WithoutGc(a) + WithoutGc(b)
  {
    if a == [] {
      assert a + b == b;
    } else {
      assert (a + b)[0] == a[0] && (a + b)[1..] == a[1..] + b;
      WithoutGcJoins(a[1..], b);
    }
  }

  lemma {:induction false} VisitsKeepOrder(
      ip: Ip, now: nat, touchy: bool, i: nat, m: nat, rest: seq<Timed>, before: nat)
    requires before <= now && InOrder(rest, now)
    ensures WithoutGc(Visits(ip, now, touchy, i, m)) == Visits(ip, now, touchy, i, m)
    ensures InOrder(Visits(ip, now, touchy, i, m) + rest, before)
    decreases m - i
  {
    var es := Visits(ip, now, touchy, i, m);
    if i >= m {
      assert es + rest == rest;
    } else {
      VisitsKeepOrder(ip, now, touchy, i + 1, m, rest, now);
      assert (es + rest)[1..] == Visits(ip, now, touchy, i + 1, m) + rest;
    }
  }

  /** Quiet visits leave the record as counted, and report nothing. */
  lemma {:induction false} QuietVisits(cfg: Config, threshold: nat, rate: real, ip: Ip, tr: Tracker,
                                       start: nat, n: nat, now: nat, i: nat, m: nat)
    requires cfg.score == ScoreOf(threshold, rate) && Watched(cfg, ip) && i <= m
    requires start <= now <= start + cfg.window * SECOND && forall j | i <= j < m :: !Loud(threshold, rate, n, j)
    requires RecordOf(tr, ip, now) == RecordAt(Touchy(threshold, rate), start, n, i) && tr.Keys <= {ip}
    ensures var t := Touchy(threshold, rate);
      var next := After(cfg, tr, Visits(ip, now, t, i, m));
      && RecordOf(next, ip, now) == RecordAt(t, start, n, m) && next.Keys <= {ip} && (i < m ==> ip in next)
      && (ip in tr ==> ip in next) && ReportTimes(cfg, tr, Visits(ip, now, t, i, m), ip) == []
    decreases m - i
  {
    var t := Touchy(threshold, rate);
    hide Visit, PathAt, Loud, Touchy, RecordAt;
    if i < m {
      var e := Timed(now, Request(ip, PathAt(t, i), 200));
      VisitAt(cfg, threshold, rate, start, n, i, now);
      NextIs(cfg, tr, ip, now, PathAt(t, i));
      var next := Next(cfg, tr, e);
      assert Visits(ip, now, t, i, m)[1..] == Visits(ip, now, t, i + 1, m);
      hide Next, Reports;
      assert RecordOf(next, ip, now) == RecordAt(t, start, n, i + 1) && next.Keys == {ip};
      hide RecordOf;
      QuietVisits(cfg, threshold, rate, ip, next, start, n, now, i + 1, m);
    }
  }

  // ---- Garbage collection ----

  /** No run tells whether collections happen in it. */
  ghost predicate GcNeverShows(cfg: Config) {
    forall es | InOrder(es, 0) :: Answers(cfg, map[], WithoutGc(es)) == Answers(cfg, map[], es)
  }

  /** The next visits and queries of every address are refused alike. */
  predicate Refusing(tr: Tracker, ip: Ip, now: nat) { ip in tr && ActiveBlock(tr[ip], now) }

  ghost predicate SameBlocks(a: Tracker, b: Tracker, now: nat) {
    forall ip, t: nat | now <= t :: Refusing(a, ip, t) <==> Refusing(b, ip, t)
  }

  ghost predicate AlwaysTriggers(cfg: Config) {
    forall reqs: nat, errors: nat, probes: nat | reqs > 0 :: cfg.score(reqs, errors, probes) >= SCORE_TRIGGER
  }

  lemma RefusesAllTriggers(cfg: Config, threshold: nat, rate: real)
    requires cfg.score == ScoreOf(threshold, rate) && RefusesAll(threshold, rate)
    ensures AlwaysTriggers(cfg)
  {
    forall reqs: nat, errors: nat, probes: nat | reqs > 0 ensures cfg.score(reqs, errors, probes) >= SCORE_TRIGGER {
      RefusesAllScores(threshold, rate, reqs, errors, probes);
    }
  }

  /** Where every request reaches the trigger, a visit that is not blocked is refused and sets the block. */
  lemma TriggeredVisit(cfg: Config, rec: IpRecord, now: nat, path: string, status: nat)
    requires AlwaysTriggers(cfg) && !ActiveBlock(rec, now)
    ensures var o := Visit(cfg, rec, now, path, status);
      && o.refused && o.rec.windowStart == (if WindowOver(cfg, rec, now) then now else rec.windowStart)
      && o.rec.blockedUntil == (if cfg.block > 0 then Some(now + cfg.block * SECOND) else None)
      && o.reported == (cfg.reporting && !ReportedLately(rec, now))
      && o.rec.lastReported == if o.reported then Some(now) else rec.lastReported
  {
    hide ProbesIn;
  }

  /** What a request of `ip` leaves blocked. */
  predicate RefusingNext(cfg: Config, tr: Tracker, ip: Ip, at: nat, j: Ip, t: nat) {
    if j == ip && !Refusing(tr, ip, at) then cfg.block > 0 && t < at + cfg.block * SECOND else Refusing(tr, j, t)
  }

  lemma TriggeredStep(cfg: Config, tr: Tracker, e: Timed)
    requires AlwaysTriggers(cfg) && e.event.Request? && Watched(cfg, e.event.ip)
    ensures AnswerOf(cfg, tr, e) == [Answer(e.at, e.event.ip, true)]
    ensures forall j, t: nat | e.at <= t ::
      Refusing(Next(cfg, tr, e), j, t) <==> RefusingNext(cfg, tr, e.event.ip, e.at, j, t)
  {
    var rec := RecordOf(tr, e.event.ip, e.at);
    if !ActiveBlock(rec, e.at) { TriggeredVisit(cfg, rec, e.at, e.event.path, e.event.status); }
    BlockedVisit(cfg, rec, e.at, e.event.path, e.event.status);
    hide Visit, AlwaysTriggers;
  }

  lemma BlockedVisit(cfg: Config, rec: IpRecord, now: nat, path: string, status: nat)
    ensures ActiveBlock(rec, now) ==> Visit(cfg, rec, now, path, status) == Outcome(rec, true, false)
  {
    hide Counted;
  }

  lemma BlocksStepAlike(cfg: Config, a: Tracker, b: Tracker, e: Timed)
    requires AlwaysTriggers(cfg) && SameBlocks(a, b, e.at) && !e.event.Collect?
    ensures AnswerOf(cfg, a, e) == AnswerOf(cfg, b, e) && SameBlocks(Next(cfg, a, e), Next(cfg, b, e), e.at)
  {
    hide AlwaysTriggers, Visit;
    assert Refusing(a, e.event.ip, e.at) <==> Refusing(b, e.event.ip, e.at);
    if e.event.Request? && Watched(cfg, e.event.ip) {
      TriggeredStep(cfg, a, e);
      TriggeredStep(cfg, b, e);
      hide Next, Refusing, AnswerOf;
      forall j, t: nat | e.at <= t ensures Refusing(Next(cfg, a, e), j, t) <==> Refusing(Next(cfg, b, e), j, t) {
        assert Refusing(a, j, t) <==> Refusing(b, j, t);
        assert Refusing(Next(cfg, a, e), j, t) <==> RefusingNext(cfg, a, e.event.ip, e.at, j, t);
        assert Refusing(Next(cfg, b, e), j, t) <==> RefusingNext(cfg, b, e.event.ip, e.at, j, t);
      }
    }
  }

  lemma CollectionKeepsBlocks(cfg: Config, a: Tracker, b: Tracker, now: nat)
    requires SameBlocks(a, b, now)
    ensures SameBlocks(a, Collected(cfg, b, now), now)
  {
    forall ip, t: nat | now <= t ensures Refusing(a, ip, t) <==> Refusing(Collected(cfg, b, now), ip, t) {
      assert Refusing(a, ip, t) <==> Refusing(b, ip, t);
    }
  }

  lemma {:induction false} SameRefusals(cfg: Config, a: Tracker, b: Tracker, es: seq<Timed>, now: nat)
    requires AlwaysTriggers(cfg) && SameBlocks(a, b, now) && InOrder(es, now)
    ensures Answers(cfg, a, WithoutGc(es)) == Answers(cfg, b, es)
    decreases |es|
  {
    hide Next, AnswerOf, AlwaysTriggers;
    if es != [] {
      var e := es[0];
      assert SameBlocks(a, b, e.at);
      if e.event.Collect? {
        NextCollects(cfg, b, e);
        CollectionKeepsBlocks(cfg, a, b, e.at);
        hide SameBlocks;
        SameRefusals(cfg, a, Next(cfg, b, e), es[1..], e.at);
        assert [] + WithoutGc(es[1..]) == WithoutGc(es[1..]);
        assert [] + Answers(cfg, Next(cfg, b, e), es[1..]) == Answers(cfg, Next(cfg, b, e), es[1..]);
      } else {
        BlocksStepAlike(cfg, a, b, e);
        hide SameBlocks;
        SameRefusals(cfg, Next(cfg, a, e), Next(cfg, b, e), es[1..], e.at);
        assert ([e] + WithoutGc(es[1..]))[1..] == WithoutGc(es[1..]);
      }
    }
  }

  lemma OneAnswer(cfg: Config, tr: Tracker, e: Timed)
    ensures Answers(cfg, tr, [e]) == AnswerOf(cfg, tr, e)
  {
    hide AnswerOf, Next;
    assert [e][1..] == [];
  }

  lemma AnswersCollect(cfg: Config, tr: Tracker, now: nat, e: Timed)
    ensures Answers(cfg, tr, [Timed(now, Collect), e]) == AnswerOf(cfg, Collected(cfg, tr, now), e)
  {
    hide AnswerOf, Collected;
    var gc := Timed(now, Collect);
    NextCollects(cfg, tr, gc);
    OneAnswer(cfg, Collected(cfg, tr, now), e);
    assert [gc, e][1..] == [e];
  }

  /** A run that shows the collection: visits at time zero up to the first loud one, which comes only a
      cutoff later, right behind a collection. */
  lemma GcShows(cfg: Config, threshold: nat, rate: real, ip: Ip) returns (es: seq<Timed>)
    requires cfg.score == ScoreOf(threshold, rate) && Watched(cfg, ip)
    requires Cutoff(cfg) <= cfg.window && !RefusesAll(threshold, rate)
    ensures InOrder(es, 0) && Answers(cfg, map[], WithoutGc(es)) != Answers(cfg, map[], es)
  {
    var t, later := Touchy(threshold, rate), Cutoff(cfg) * SECOND;
    var m := FirstLoud(threshold, rate, 0, 0);
    FirstIsQuiet(threshold, rate);
    var a := Visits(ip, 0, t, 0, m);
    var gc, last := Timed(later, Collect), Timed(later, Request(ip, PathAt(t, m), 200));
    es := a + [gc, last];
    QuietVisits(cfg, threshold, rate, ip, map[], 0, 0, 0, 0, m);
    VisitAt(cfg, threshold, rate, 0, 0, m, later);
    FreshVisit(cfg, threshold, rate, m, later);
    hide Answers, Loud, Touchy, PathAt, Visit, ReportTimes, WithoutGc, InOrder, Visits;
    InOrderPair(gc, last);
    VisitsKeepOrder(ip, 0, t, 0, m, [gc, last], 0);
    CollectsAll(cfg, After(cfg, map[], a), ip, later);
    CutShows(cfg, a, gc, last, ip);
  }

  lemma CollectsAll(cfg: Config, tr: Tracker, ip: Ip, now: nat)
    requires ip in tr && tr.Keys <= {ip} && !Kept(cfg, tr[ip], now)
    ensures Collected(cfg, tr, now) == map[]
  {
  }

  /** A collection of everything before the last request of a run, when that request then is answered
      otherwise. */
  lemma CutShows(cfg: Config, a: seq<Timed>, gc: Timed, last: Timed, ip: Ip)
    requires WithoutGc(a) == a && gc.event.Collect? && !last.event.Collect?
    requires Collected(cfg, After(cfg, map[], a), gc.at) == map[]
    requires AnswerOf(cfg, After(cfg, map[], a), last) != AnswerOf(cfg, map[], last)
    ensures Answers(cfg, map[], WithoutGc(a + [gc, last])) != Answers(cfg, map[], a + [gc, last])
  {
    hide *;
    WithoutGcJoins(a, [gc, last]);
    WithoutGcPair(gc, last);
    var tr := After(cfg, map[], a);
    RunsJoin(cfg, map[], a, [last], ip);
    RunsJoin(cfg, map[], a, [gc, last], ip);
    OneAnswer(cfg, tr, last);
    AnswersCollect(cfg, tr, gc.at, last);
    assert gc == Timed(gc.at, Collect);
    Differ(Answers(cfg, map[], a), AnswerOf(cfg, tr, last), AnswerOf(cfg, map[], last));
  }

  lemma Differ(a: seq<Answer>, x: seq<Answer>, y: seq<Answer>)
    requires x != y
    ensures a + x != a + y
  {
    assert (a + x)[|a|..] == x && (a + y)[|a|..] == y;
  }

  lemma InOrderPair(a: Timed, b: Timed)
    requires a.at == b.at
    ensures InOrder([a, b], 0)
  {
    assert [a, b][1..] == [b] && [b][1..] == [];
    assert InOrder([b], a.at);
  }

  lemma WithoutGcPair(a: Timed, b: Timed)
    requires a.event.Collect? && !b.event.Collect?
    ensures WithoutGc([a, b]) == [b]
  {
    assert [a, b][1..] == [b] && [b][1..] == [];
    assert WithoutGc([b]) == [b];
  }

  /** Collection is invisible exactly when three windows, in 64 bits, are longer than one, or when every
      request is refused: it shows with a window of zero, and with one so long that the product wraps
      below it. */
  lemma GcIsInvisible(cfg: Config, threshold: nat, rate: real, ip: Ip)
    requires cfg.score == ScoreOf(threshold, rate) && Watched(cfg, ip)
    ensures GcNeverShows(cfg) <==> Cutoff(cfg) > cfg.window || RefusesAll(threshold, rate)
  {
    if Cutoff(cfg) > cfg.window {
      forall es | InOrder(es, 0) ensures Answers(cfg, map[], WithoutGc(es)) == Answers(cfg, map[], es) {
        SameAnswers(cfg, map[], map[], es, 0);
      }
    } else if RefusesAll(threshold, rate) {
      RefusesAllTriggers(cfg, threshold, rate);
      forall es | InOrder(es, 0) ensures Answers(cfg, map[], WithoutGc(es)) == Answers(cfg, map[], es) {
        SameRefusals(cfg, map[], map[], es, 0);
      }
    } else {
      var es := GcShows(cfg, threshold, rate, ip);
    }
  }

  // ---- Garbage collection and the queries alone ----

  /** The answers of `is_blocked`, the only ones that its callers act on. */
  function QueryAnswers(cfg: Config, tr: Tracker, es: seq<Timed>): seq<Answer>
    decreases |es|
  {
    if es == [] then []
    else
      (if es[0].event.Query? then AnswerOf(cfg, tr, es[0]) else [])
      + QueryAnswers(cfg, Next(cfg, tr, es[0]), es[1..])
  }

  ghost predicate GcNeverShowsInQueries(cfg: Config) {
    forall es | InOrder(es, 0) :: QueryAnswers(cfg, map[], WithoutGc(es)) == QueryAnswers(cfg, map[], es)
  }

  /** The answers at the places of the queries. */
  function AtQueries(es: seq<Timed>, answers: seq<Answer>): seq<Answer>
    requires |answers| == |es|
  {
    if es == [] then []
    else (if es[0].event.Query? then [answers[0]] else []) + AtQueries(es[1..], answers[1..])
  }

  lemma OneAnswerEach(cfg: Config, tr: Tracker, e: Timed)
    ensures |AnswerOf(cfg, tr, e)| == if e.event.Collect? then 0 else 1
  {
    hide Visit, RecordOf;
  }

  lemma {:induction false} QueriesAreAnswered(cfg: Config, tr: Tracker, es: seq<Timed>)
    ensures |Answers(cfg, tr, es)| == |WithoutGc(es)|
    ensures QueryAnswers(cfg, tr, es) == AtQueries(WithoutGc(es), Answers(cfg, tr, es))
    decreases |es|
  {
    hide Next, AnswerOf;
    if es != [] {
      OneAnswerEach(cfg, tr, es[0]);
      QueriesAreAnswered(cfg, Next(cfg, tr, es[0]), es[1..]);
      if es[0].event.Collect? {
        assert [] + WithoutGc(es[1..]) == WithoutGc(es[1..]);
        assert AnswerOf(cfg, tr, es[0]) == [];
        assert [] + Answers(cfg, Next(cfg, tr, es[0]), es[1..]) == Answers(cfg, Next(cfg, tr, es[0]), es[1..]);
      } else {
        assert Answers(cfg, tr, es)[1..] == Answers(cfg, Next(cfg, tr, es[0]), es[1..]);
        assert WithoutGc(es)[1..] == WithoutGc(es[1..]);
      }
    }
  }

  lemma {:induction false} WithoutGcTwice(es: seq<Timed>)
    ensures WithoutGc(WithoutGc(es)) == WithoutGc(es)
  {
    if es != [] {
      WithoutGcTwice(es[1..]);
      if es[0].event.Collect? {
        assert [] + WithoutGc(es[1..]) == WithoutGc(es[1..]);
      } else {
        assert WithoutGc(es)[1..] == WithoutGc(es[1..]);
      }
    }
  }

  /** What never shows at all does not show in the queries. */
  lemma QueriesAgree(cfg: Config, es: seq<Timed>)
    requires Answers(cfg, map[], WithoutGc(es)) == Answers(cfg, map[], es)
    ensures QueryAnswers(cfg, map[], WithoutGc(es)) == QueryAnswers(cfg, map[], es)
  {
    hide *;
    QueriesAreAnswered(cfg, map[], es);
    QueriesAreAnswered(cfg, map[], WithoutGc(es));
    WithoutGcTwice(es);
  }

  ghost predicate NobodyBlocked(tr: Tracker) { forall ip | ip in tr :: tr[ip].blockedUntil == None }

  /** Without a block time no address is ever blocked. */
  lemma NoBlockTime(cfg: Config, tr: Tracker, e: Timed)
    requires cfg.block == 0 && NobodyBlocked(tr)
    ensures NobodyBlocked(Next(cfg, tr, e))
    ensures e.event.Query? ==> AnswerOf(cfg, tr, e) == [Answer(e.at, e.event.ip, false)]
  {
    hide ProbesIn;
  }

  lemma {:induction false} SameUnblocked(cfg: Config, a: Tracker, b: Tracker, es: seq<Timed>)
    requires cfg.block == 0 && NobodyBlocked(a) && NobodyBlocked(b)
    ensures QueryAnswers(cfg, a, WithoutGc(es)) == QueryAnswers(cfg, b, es)
    decreases |es|
  {
    hide Next, AnswerOf, NobodyBlocked;
    if es != [] {
      var e := es[0];
      NoBlockTime(cfg, a, e);
      NoBlockTime(cfg, b, e);
      if e.event.Collect? {
        SameUnblocked(cfg, a, Next(cfg, b, e), es[1..]);
        assert [] + WithoutGc(es[1..]) == WithoutGc(es[1..]);
        assert [] + QueryAnswers(cfg, Next(cfg, b, e), es[1..]) == QueryAnswers(cfg, Next(cfg, b, e), es[1..]);
      } else {
        SameUnblocked(cfg, Next(cfg, a, e), Next(cfg, b, e), es[1..]);
        assert ([e] + WithoutGc(es[1..]))[1..] == WithoutGc(es[1..]);
      }
    }
  }

  lemma {:induction false} QueriesJoin(cfg: Config, tr: Tracker, a: seq<Timed>, b: seq<Timed>)
    ensures QueryAnswers(cfg, tr, a + b) == QueryAnswers(cfg, tr, a) + QueryAnswers(cfg, After(cfg, tr, a), b)
    decreases |a|
  {
    hide Next, AnswerOf;
    if a == [] {
      assert a + b == b;
    } else {
      assert (a + b)[0] == a[0] && (a + b)[1..] == a[1..] + b;
      QueriesJoin(cfg, Next(cfg, tr, a[0]), a[1..], b);
    }
  }

  /** A request, and a query of the same address at the same time. */
  lemma AskBehind(cfg: Config, tr: Tracker, ip: Ip, now: nat, path: string)
    requires Watched(cfg, ip) && tr.Keys <= {ip}
    ensures QueryAnswers(cfg, tr, [Timed(now, Request(ip, path, 200)), Timed(now, Query(ip))])
         == [Answer(now, ip, ActiveBlock(Visit(cfg, RecordOf(tr, ip, now), now, path, 200).rec, now))]
  {
    hide Visit, RecordOf;
    var e, q := Timed(now, Request(ip, path, 200)), Timed(now, Query(ip));
    NextIs(cfg, tr, ip, now, path);
    assert [e, q][1..] == [q] && [q][1..] == [];
    assert QueryAnswers(cfg, Next(cfg, tr, e), [q]) == AnswerOf(cfg, Next(cfg, tr, e), q) + [];
    assert [] + AnswerOf(cfg, Next(cfg, tr, e), q) == AnswerOf(cfg, Next(cfg, tr, e), q);
  }

  lemma QueriesCollect(cfg: Config, tr: Tracker, now: nat, es: seq<Timed>)
    ensures QueryAnswers(cfg, tr, [Timed(now, Collect)] + es) == QueryAnswers(cfg, Collected(cfg, tr, now), es)
  {
    hide AnswerOf, Collected;
    var gc := Timed(now, Collect);
    NextCollects(cfg, tr, gc);
    assert ([gc] + es)[1..] == es;
    assert [] + QueryAnswers(cfg, Collected(cfg, tr, now), es) == QueryAnswers(cfg, Collected(cfg, tr, now), es);
  }

  /** A collection of everything before a request and a query of its address, when that request sets a block
      only without the collection. */
  lemma CutShowsInQuery(cfg: Config, a: seq<Timed>, ip: Ip, now: nat, path: string)
    requires Watched(cfg, ip) && WithoutGc(a) == a && After(cfg, map[], a).Keys <= {ip}
    requires Collected(cfg, After(cfg, map[], a), now) == map[]
    requires ActiveBlock(Visit(cfg, RecordOf(After(cfg, map[], a), ip, now), now, path, 200).rec, now)
    requires !ActiveBlock(Visit(cfg, RecordOf(map[], ip, now), now, path, 200).rec, now)
    ensures var ask := [Timed(now, Request(ip, path, 200)), Timed(now, Query(ip))];
      var es := a + ([Timed(now, Collect)] + ask);
      QueryAnswers(cfg, map[], WithoutGc(es)) != QueryAnswers(cfg, map[], es)
  {
    hide *;
    var ask := [Timed(now, Request(ip, path, 200)), Timed(now, Query(ip))];
    var tr := After(cfg, map[], a);
    WithoutGcJoins(a, [Timed(now, Collect)] + ask);
    WithoutGcOfAsk(ip, now, path);
    QueriesJoin(cfg, map[], a, ask);
    QueriesJoin(cfg, map[], a, [Timed(now, Collect)] + ask);
    QueriesCollect(cfg, tr, now, ask);
    AskBehind(cfg, tr, ip, now, path);
    AskBehind(cfg, map[], ip, now, path);
    Differ(QueryAnswers(cfg, map[], a), QueryAnswers(cfg, tr, ask), QueryAnswers(cfg, map[], ask));
  }

  lemma WithoutGcOfAsk(ip: Ip, now: nat, path: string)
    ensures var ask := [Timed(now, Request(ip, path, 200)), Timed(now, Query(ip))];
      WithoutGc([Timed(now, Collect)] + ask) == ask && InOrder([Timed(now, Collect)] + ask, now)
  {
    var gc, e, q := Timed(now, Collect), Timed(now, Request(ip, path, 200)), Timed(now, Query(ip));
    assert ([gc] + [e, q])[1..] == [e, q] && [e, q][1..] == [q] && [q][1..] == [];
    assert WithoutGc([q]) == [q] && InOrder([q], now);
    assert WithoutGc([e, q]) == [e, q] && InOrder([e, q], now);
  }

  lemma GcShowsInQueries(cfg: Config, threshold: nat, rate: real, ip: Ip) returns (es: seq<Timed>)
    requires cfg.score == ScoreOf(threshold, rate) && Watched(cfg, ip) && cfg.block > 0
    requires Cutoff(cfg) <= cfg.window && !RefusesAll(threshold, rate)
    ensures InOrder(es, 0) && QueryAnswers(cfg, map[], WithoutGc(es)) != QueryAnswers(cfg, map[], es)
  {
    var t, later := Touchy(threshold, rate), Cutoff(cfg) * SECOND;
    var m := FirstLoud(threshold, rate, 0, 0);
    FirstIsQuiet(threshold, rate);
    var a, path := Visits(ip, 0, t, 0, m), PathAt(t, m);
    QuietVisits(cfg, threshold, rate, ip, map[], 0, 0, 0, 0, m);
    VisitAt(cfg, threshold, rate, 0, 0, m, later);
    FreshVisit(cfg, threshold, rate, m, later);
    VisitFresh(cfg, later, path);
    hide QueryAnswers, Loud, Touchy, PathAt, Visit, ReportTimes, WithoutGc, InOrder, Visits;
    CollectsAll(cfg, After(cfg, map[], a), ip, later);
    WithoutGcOfAsk(ip, later, path);
    var rest := [Timed(later, Collect)] + [Timed(later, Request(ip, path, 200)), Timed(later, Query(ip))];
    VisitsKeepOrder(ip, 0, t, 0, m, rest, 0);
    es := a + rest;
    CutShowsInQuery(cfg, a, ip, later, path);
  }

  /** To callers that act on the queries alone, collection is invisible exactly when it is to all, or when
      there is no block time. */
  lemma GcIsInvisibleToQueries(cfg: Config, threshold: nat, rate: real, ip: Ip)
    requires cfg.score == ScoreOf(threshold, rate) && Watched(cfg, ip)
    ensures GcNeverShowsInQueries(cfg) <==> Cutoff(cfg) > cfg.window || RefusesAll(threshold, rate) || cfg.block == 0
  {
    hide QueryAnswers, Answers, WithoutGc, InOrder, Cutoff, RefusesAll;
    if Cutoff(cfg) > cfg.window || RefusesAll(threshold, rate) {
      GcIsInvisible(cfg, threshold, rate, ip);
      forall es | InOrder(es, 0) ensures QueryAnswers(cfg, map[], WithoutGc(es)) == QueryAnswers(cfg, map[], es) {
        QueriesAgree(cfg, es);
      }
    } else if cfg.block == 0 {
      forall es | InOrder(es, 0) ensures QueryAnswers(cfg, map[], WithoutGc(es)) == QueryAnswers(cfg, map[], es) {
        SameUnblocked(cfg, map[], map[], es);
      }
    } else {
      var es := GcShowsInQueries(cfg, threshold, rate, ip);
    }
  }

  // ---- One report a day: when it fails ----

  ghost predicate ReportsDailyAtMost(cfg: Config) {
    forall es, ip | InOrder(es, 0) :: DayApart(ReportTimes(cfg, map[], es, ip))
  }

  lemma {:induction false} VisitsSnoc(ip: Ip, now: nat, touchy: bool, i: nat, m: nat)
    requires i <= m
    ensures Visits(ip, now, touchy, i, m + 1)
         == Visits(ip, now, touchy, i, m) + [Timed(now, Request(ip, PathAt(touchy, m), 200))]
    decreases m - i
  {
    hide PathAt;
    if i < m { VisitsSnoc(ip, now, touchy, i + 1, m); }
  }

  lemma ReportOne(cfg: Config, tr: Tracker, e: Timed, ip: Ip)
    ensures ReportTimes(cfg, tr, [e], ip) == (if Reports(cfg, tr, e, ip) then [e.at] else [])
    ensures After(cfg, tr, [e]) == Next(cfg, tr, e)
  {
    hide Next, Reports;
    assert [e][1..] == [];
  }

  lemma ReportCons(cfg: Config, tr: Tracker, e: Timed, es: seq<Timed>, ip: Ip)
    ensures ReportTimes(cfg, tr, [e] + es, ip)
         == (if Reports(cfg, tr, e, ip) then [e.at] else []) + ReportTimes(cfg, Next(cfg, tr, e), es, ip)
  {
    hide Next, Reports;
    assert ([e] + es)[1..] == es;
  }

  lemma ReportCollect(cfg: Config, tr: Tracker, now: nat, es: seq<Timed>, ip: Ip)
    ensures ReportTimes(cfg, tr, [Timed(now, Collect)] + es, ip) == ReportTimes(cfg, Collected(cfg, tr, now), es, ip)
  {
    var gc := Timed(now, Collect);
    ReportCons(cfg, tr, gc, es, ip);
    NextCollects(cfg, tr, gc);
    CollectReportsNothing(cfg, tr, gc, ip);
  }

  /** When a record of a window from `start`, blocked at `now`, may be collected. */
  function CollectedFrom(cfg: Config, start: nat, now: nat): (r: nat)
    ensures r >= now && r >= start + Cutoff(cfg) * SECOND && r >= now + cfg.block * SECOND
  {
    if start + Cutoff(cfg) * SECOND <= now + cfg.block * SECOND then now + cfg.block * SECOND
    else start + Cutoff(cfg) * SECOND
  }

  lemma CollectedSoon(cfg: Config, start: nat)
    requires !KeepsADay(cfg)
    ensures CollectedFrom(cfg, start, start + cfg.window * SECOND) < start + cfg.window * SECOND + DAY
    ensures Cutoff(cfg) < 86400 ==> CollectedFrom(cfg, start, start) < start + DAY
  {
    hide Cutoff;
  }

  function BlockFrom(cfg: Config, now: nat): Option<nat> {
    if cfg.block > 0 then Some(now + cfg.block * SECOND) else None
  }

  /** From n quiet requests on, the visits up to the first loud one make one report. */
  lemma BurstReports(cfg: Config, threshold: nat, rate: real, ip: Ip, tr: Tracker, start: nat, n: nat, now: nat)
    returns (m: nat)
    requires cfg.score == ScoreOf(threshold, rate) && Watched(cfg, ip) && cfg.reporting && !RefusesAll(threshold, rate)
    requires start <= now <= start + cfg.window * SECOND && tr.Keys <= {ip}
    requires RecordOf(tr, ip, now) == RecordAt(Touchy(threshold, rate), start, n, 0)
    ensures var es := Visits(ip, now, Touchy(threshold, rate), 0, m);
      && ReportTimes(cfg, tr, es, ip) == [now] && After(cfg, tr, es).Keys == {ip}
      && After(cfg, tr, es)[ip].windowStart == start && After(cfg, tr, es)[ip].blockedUntil == BlockFrom(cfg, now)
  {
    var t := Touchy(threshold, rate);
    var k := FirstLoud(threshold, rate, n, 0);
    m := k + 1;
    QuietVisits(cfg, threshold, rate, ip, tr, start, n, now, 0, k);
    VisitsSnoc(ip, now, t, 0, k);
    LoudStep(cfg, threshold, rate, ip, After(cfg, tr, Visits(ip, now, t, 0, k)), start, n, k, now);
    hide *;
    var last := Timed(now, Request(ip, PathAt(t, k), 200));
    RunsJoin(cfg, tr, Visits(ip, now, t, 0, k), [last], ip);
    ReportOne(cfg, After(cfg, tr, Visits(ip, now, t, 0, k)), last, ip);
  }

  lemma LoudStep(cfg: Config, threshold: nat, rate: real, ip: Ip, tr: Tracker, start: nat, n: nat, i: nat, now: nat)
    requires cfg.score == ScoreOf(threshold, rate) && Watched(cfg, ip) && cfg.reporting && Loud(threshold, rate, n, i)
    requires start <= now <= start + cfg.window * SECOND && tr.Keys <= {ip}
    requires RecordOf(tr, ip, now) == RecordAt(Touchy(threshold, rate), start, n, i)
    ensures var e := Timed(now, Request(ip, PathAt(Touchy(threshold, rate), i), 200));
      && Reports(cfg, tr, e, ip) && Next(cfg, tr, e).Keys == {ip} && Next(cfg, tr, e)[ip].windowStart == start
      && Next(cfg, tr, e)[ip].blockedUntil == BlockFrom(cfg, now)
  {
    hide Visit, PathAt, Touchy, Loud, RecordAt, Next, Reports, RecordOf;
    VisitAt(cfg, threshold, rate, start, n, i, now);
    NextIs(cfg, tr, ip, now, PathAt(Touchy(threshold, rate), i));
  }

  lemma PlainFirst(cfg: Config, threshold: nat, rate: real, ip: Ip)
    requires cfg.score == ScoreOf(threshold, rate) && Watched(cfg, ip) && !RefusesAll(threshold, rate)
    ensures var e := Timed(0, Request(ip, "/", 200));
      !Reports(cfg, map[], e, ip) && Next(cfg, map[], e) == map[ip := RecordAt(Touchy(threshold, rate), 0, 1, 0)]
  {
    FreshVisit(cfg, threshold, rate, 3, 0);
    ProbesOfPaths();
    VisitFresh(cfg, 0, "/");
    NextIs(cfg, map[], ip, 0, "/");
    hide ProbesIn, Touchy, Score, Visit, Next, Reports;
  }

  /** Two reports with a collection between them: a quiet request opens the window, its record triggers
      where the window ends, and is collected as soon as it may be. */
  lemma ReportsTwice(cfg: Config, threshold: nat, rate: real, ip: Ip) returns (es: seq<Timed>)
    requires cfg.score == ScoreOf(threshold, rate) && Watched(cfg, ip) && cfg.reporting
    requires !RefusesAll(threshold, rate) && !KeepsADay(cfg)
    ensures InOrder(es, 0) && !DayApart(ReportTimes(cfg, map[], es, ip))
  {
    hide *;
    var t, w := Touchy(threshold, rate), cfg.window * SECOND;
    var later := CollectedFrom(cfg, 0, w);
    CollectedSoon(cfg, 0);
    var first := Timed(0, Request(ip, "/", 200));
    var one: Tracker := map[ip := RecordAt(t, 0, 1, 0)];
    NoVisitsYet(t, ip, w, later);
    PlainFirst(cfg, threshold, rate, ip);
    var m := BurstReports(cfg, threshold, rate, ip, one, 0, 1, w);
    var a := Visits(ip, w, t, 0, m);
    TooOld(cfg, After(cfg, one, a), ip, 0, w, later);
    var m' := BurstReports(cfg, threshold, rate, ip, map[], later, 0, later);
    var b := Visits(ip, later, t, 0, m');
    es := [first] + (a + ([Timed(later, Collect)] + b));
    BurstsInOrder(ip, t, w, later, m, m', first, Timed(later, Collect));
    TwoBursts(cfg, ip, first, a, b, one, w, later);
    NotADayApart(cfg, w, later);
  }

  lemma NoVisitsYet(touchy: bool, ip: Ip, now: nat, later: nat)
    ensures RecordOf(map[ip := RecordAt(touchy, 0, 1, 0)], ip, now) == RecordAt(touchy, 0, 1, 0)
    ensures RecordOf(map[], ip, later) == RecordAt(touchy, later, 0, 0)
  {
  }

  /** A record is collected when its window is too old and its block is over. */
  lemma TooOld(cfg: Config, tr: Tracker, ip: Ip, start: nat, now: nat, later: nat)
    requires tr.Keys == {ip} && tr[ip].windowStart == start && tr[ip].blockedUntil == BlockFrom(cfg, now)
    requires start + Cutoff(cfg) * SECOND <= later && now + cfg.block * SECOND <= later
    ensures Collected(cfg, tr, later) == map[]
  {
    hide Cutoff, Collected;
    CollectsAll(cfg, tr, ip, later);
  }

  lemma TwoBursts(cfg: Config, ip: Ip, first: Timed, a: seq<Timed>, b: seq<Timed>, one: Tracker, w: nat, later: nat)
    requires !Reports(cfg, map[], first, ip) && Next(cfg, map[], first) == one
    requires ReportTimes(cfg, one, a, ip) == [w] && Collected(cfg, After(cfg, one, a), later) == map[]
    requires ReportTimes(cfg, map[], b, ip) == [later]
    ensures ReportTimes(cfg, map[], [first] + (a + ([Timed(later, Collect)] + b)), ip) == [w, later]
  {
    hide *;
    ReportCons(cfg, map[], first, a + ([Timed(later, Collect)] + b), ip);
    RunsJoin(cfg, one, a, [Timed(later, Collect)] + b, ip);
    ReportCollect(cfg, After(cfg, one, a), later, b, ip);
  }

  lemma NotADayApart(cfg: Config, at: nat, later: nat)
    requires later < at + DAY
    ensures !DayApart([at, later])
  {
    var ts := [at, later];
    assert ts[0] + DAY > ts[1];
  }

  lemma BurstsInOrder(ip: Ip, t: bool, w: nat, later: nat, m: nat, m': nat, first: Timed, gc: Timed)
    requires w <= later && first.at == 0 && gc.at == later
    ensures InOrder([first] + (Visits(ip, w, t, 0, m) + ([gc] + Visits(ip, later, t, 0, m'))), 0)
  {
    var a, b := Visits(ip, w, t, 0, m), Visits(ip, later, t, 0, m');
    VisitsKeepOrder(ip, later, t, 0, m', [], later);
    assert b + [] == b && ([gc] + b)[1..] == b;
    assert InOrder([gc] + b, w);
    VisitsKeepOrder(ip, w, t, 0, m, [gc] + b, 0);
    assert ([first] + (a + ([gc] + b)))[1..] == a + ([gc] + b);
    hide Visits;
  }

  // ---- One report a day, where every request is refused ----

  function Visited(ip: Ip, now: nat): Timed { Timed(now, Request(ip, "/", 200)) }

  lemma TriggeredNext(cfg: Config, ip: Ip, tr: Tracker, now: nat)
    requires AlwaysTriggers(cfg) && Watched(cfg, ip) && cfg.reporting && tr.Keys <= {ip} && !Refusing(tr, ip, now)
    ensures var rec, next := RecordOf(tr, ip, now), Next(cfg, tr, Visited(ip, now));
      && Reports(cfg, tr, Visited(ip, now), ip) == !ReportedLately(rec, now) && next.Keys == {ip}
      && next[ip].windowStart == (if WindowOver(cfg, rec, now) then now else rec.windowStart)
      && next[ip].blockedUntil == BlockFrom(cfg, now)
      && next[ip].lastReported == if ReportedLately(rec, now) then rec.lastReported else Some(now)
  {
    TriggeredVisit(cfg, RecordOf(tr, ip, now), now, "/", 200);
    NextIs(cfg, tr, ip, now, "/");
    hide Visit, AlwaysTriggers, Next, Reports;
  }

  lemma FirstReports(cfg: Config, ip: Ip, now: nat)
    requires AlwaysTriggers(cfg) && Watched(cfg, ip) && cfg.reporting
    ensures var next := Next(cfg, map[], Visited(ip, now));
      && Reports(cfg, map[], Visited(ip, now), ip) && next.Keys == {ip} && next[ip].windowStart == now
      && next[ip].blockedUntil == BlockFrom(cfg, now) && next[ip].lastReported == Some(now)
  {
    TriggeredNext(cfg, ip, map[], now);
    hide Next, Reports, AlwaysTriggers;
  }

  /** A report, then a collection of its record, and another report. */
  lemma ReportAgain(cfg: Config, ip: Ip, tr: Tracker, now: nat, later: nat)
    requires AlwaysTriggers(cfg) && Watched(cfg, ip) && cfg.reporting && tr.Keys <= {ip}
    requires !Refusing(tr, ip, now) && !ReportedLately(RecordOf(tr, ip, now), now)
    requires var rec := RecordOf(tr, ip, now);
      && (if WindowOver(cfg, rec, now) then now else rec.windowStart) + Cutoff(cfg) * SECOND <= later
      && now + cfg.block * SECOND <= later
    ensures ReportTimes(cfg, tr, [Visited(ip, now)] + ([Timed(later, Collect)] + [Visited(ip, later)]), ip)
      == [now, later]
  {
    hide *;
    var next := Next(cfg, tr, Visited(ip, now));
    TriggeredNext(cfg, ip, tr, now);
    FirstReports(cfg, ip, later);
    TooOld(cfg, next, ip, next[ip].windowStart, now, later);
    ReportCons(cfg, tr, Visited(ip, now), [Timed(later, Collect)] + [Visited(ip, later)], ip);
    ReportCollect(cfg, next, later, [Visited(ip, later)], ip);
    ReportOne(cfg, map[], Visited(ip, later), ip);
    VisitedAt(ip, now);
    VisitedAt(ip, later);
  }

  lemma VisitedAt(ip: Ip, now: nat)
    ensures Visited(ip, now).at == now
  {
  }

  /** The report at `now`, and the one behind the collection at `later`. */
  function Again(ip: Ip, now: nat, later: nat): seq<Timed> {
    [Visited(ip, now)] + ([Timed(later, Collect)] + [Visited(ip, later)])
  }

  lemma AgainInOrder(ip: Ip, now: nat, later: nat, before: nat)
    requires before <= now <= later
    ensures InOrder(Again(ip, now, later), before)
  {
    var a, gc, b := Visited(ip, now), Timed(later, Collect), Visited(ip, later);
    assert Again(ip, now, later)[1..] == [gc, b] && [gc, b][1..] == [b] && [b][1..] == [];
    assert InOrder([b], later) && InOrder([gc, b], now);
  }

  lemma VisitThen(cfg: Config, ip: Ip, tr: Tracker, now: nat, es: seq<Timed>, before: nat)
    requires before <= now && InOrder(es, now)
    ensures InOrder([Visited(ip, now)] + es, before)
    ensures ReportTimes(cfg, tr, [Visited(ip, now)] + es, ip)
         == (if Reports(cfg, tr, Visited(ip, now), ip) then [now] else [])
            + ReportTimes(cfg, Next(cfg, tr, Visited(ip, now)), es, ip)
  {
    hide Next, Reports;
    ReportCons(cfg, tr, Visited(ip, now), es, ip);
    assert ([Visited(ip, now)] + es)[1..] == es;
  }

  lemma EndsTooSoon(a: seq<nat>, at: nat, later: nat)
    requires later < at + DAY
    ensures !DayApart(a + [at, later])
  {
    var ts := a + [at, later];
    assert ts[|a|] == at && ts[|a| + 1] == later;
  }

  /** Records kept for less than a day: the address comes back as soon as it is forgotten. */
  lemma ForgottenInADay(cfg: Config, ip: Ip) returns (es: seq<Timed>)
    requires AlwaysTriggers(cfg) && Watched(cfg, ip) && cfg.reporting && !KeepsADay(cfg) && Cutoff(cfg) < 86400
    ensures InOrder(es, 0) && !DayApart(ReportTimes(cfg, map[], es, ip))
  {
    var later := CollectedFrom(cfg, 0, 0);
    CollectedSoon(cfg, 0);
    es := Again(ip, 0, later);
    hide AlwaysTriggers, ReportTimes, InOrder, Visited, Cutoff, CollectedFrom, KeepsADay;
    AgainInOrder(ip, 0, later, 0);
    ReportAgain(cfg, ip, map[], 0, later);
    NotADayApart(cfg, 0, later);
  }

  /** Windows of a day or more: the second report comes late in the window of the first. */
  lemma LateInTheWindow(cfg: Config, ip: Ip) returns (es: seq<Timed>)
    requires AlwaysTriggers(cfg) && Watched(cfg, ip) && cfg.reporting && !KeepsADay(cfg)
    requires cfg.block <= cfg.window && cfg.window >= 86400
    ensures InOrder(es, 0) && !DayApart(ReportTimes(cfg, map[], es, ip))
  {
    var w := cfg.window * SECOND;
    var later := CollectedFrom(cfg, 0, w);
    CollectedSoon(cfg, 0);
    var tr := Next(cfg, map[], Visited(ip, 0));
    es := [Visited(ip, 0)] + Again(ip, w, later);
    FirstReports(cfg, ip, 0);
    hide AlwaysTriggers, ReportTimes, InOrder, Visited, Next, Reports, Cutoff, CollectedFrom, KeepsADay;
    AgainInOrder(ip, w, later, 0);
    VisitThen(cfg, ip, map[], 0, Again(ip, w, later), 0);
    ReportAgain(cfg, ip, tr, w, later);
    EndsTooSoon([0], w, later);
  }

  /** Shorter windows that outlast the block: a visit just before the day is over opens the window in
      which the second report is made. */
  lemma LateInTheDay(cfg: Config, ip: Ip) returns (es: seq<Timed>)
    requires AlwaysTriggers(cfg) && Watched(cfg, ip) && cfg.reporting && !KeepsADay(cfg)
    requires cfg.block <= cfg.window < 86400 && cfg.window > 0
    ensures InOrder(es, 0) && !DayApart(ReportTimes(cfg, map[], es, ip))
  {
    es := LateReports(cfg, ip, DAY - 1, cfg.window * SECOND);
  }

  lemma LateReports(cfg: Config, ip: Ip, s: nat, w: nat) returns (es: seq<Timed>)
    requires AlwaysTriggers(cfg) && Watched(cfg, ip) && cfg.reporting && !KeepsADay(cfg)
    requires cfg.block <= cfg.window < 86400 && cfg.window > 0 && s == DAY - 1 && w == cfg.window * SECOND
    ensures InOrder(es, 0) && !DayApart(ReportTimes(cfg, map[], es, ip))
  {
    hide *;
    var later := CollectedFrom(cfg, s, s + w);
    CollectedSoon(cfg, s);
    var two := LateWindow(cfg, ip);
    ReportAgain(cfg, ip, two, s + w, later);
    var rest := Again(ip, s + w, later);
    AgainInOrder(ip, s + w, later, s);
    AgainIs(ip, s + w, later);
    es := [Visited(ip, 0)] + ([Visited(ip, s)] + rest);
    TwoVisitsThen(cfg, ip, s, rest, [s + w, later]);
    EndsTooSoon([0], s + w, later);
  }

  lemma TwoVisitsThen(cfg: Config, ip: Ip, s: nat, rest: seq<Timed>, times: seq<nat>)
    requires InOrder(rest, s) && Reports(cfg, map[], Visited(ip, 0), ip)
    requires var one := Next(cfg, map[], Visited(ip, 0));
      !Reports(cfg, one, Visited(ip, s), ip) && ReportTimes(cfg, Next(cfg, one, Visited(ip, s)), rest, ip) == times
    ensures var es := [Visited(ip, 0)] + ([Visited(ip, s)] + rest);
      InOrder(es, 0) && ReportTimes(cfg, map[], es, ip) == [0] + times
  {
    hide *;
    VisitThen(cfg, ip, Next(cfg, map[], Visited(ip, 0)), s, rest, 0);
    VisitThen(cfg, ip, map[], 0, [Visited(ip, s)] + rest, 0);
    assert [] + times == times;
  }

  lemma AgainIs(ip: Ip, now: nat, later: nat)
    ensures Again(ip, now, later) == [Visited(ip, now)] + ([Timed(later, Collect)] + [Visited(ip, later)])
  {
  }

  /** A second visit just before the day is over: it reports nothing, and its window is open to the end
      of the next report. */
  lemma LateWindow(cfg: Config, ip: Ip) returns (two: Tracker)
    requires AlwaysTriggers(cfg) && Watched(cfg, ip) && cfg.reporting
    requires cfg.block <= cfg.window < 86400 && cfg.window > 0
    ensures var one, s, w := Next(cfg, map[], Visited(ip, 0)), DAY - 1, cfg.window * SECOND;
      && Reports(cfg, map[], Visited(ip, 0), ip) && !Reports(cfg, one, Visited(ip, s), ip)
      && two == Next(cfg, one, Visited(ip, s)) && two.Keys <= {ip} && !Refusing(two, ip, s + w)
      && !ReportedLately(RecordOf(two, ip, s + w), s + w) && RecordOf(two, ip, s + w).windowStart == s
      && !WindowOver(cfg, RecordOf(two, ip, s + w), s + w)
  {
    var s := DAY - 1;
    var one := Next(cfg, map[], Visited(ip, 0));
    FirstReports(cfg, ip, 0);
    TriggeredNext(cfg, ip, one, s);
    two := Next(cfg, one, Visited(ip, s));
    hide AlwaysTriggers, Visited, Next, Reports;
  }

  // ---- One report a day: when it holds although records are not kept for long ----

  /** Every request is refused, blocks outlast windows, and records are kept for a day: each visit that
      counts opens a window of its own. */
  ghost predicate RenewsDaily(cfg: Config) { AlwaysTriggers(cfg) && cfg.block > cfg.window && Cutoff(cfg) >= 86400 }

  /** The block of a record runs from the start of its window. */
  predicate Steady(cfg: Config, tr: Tracker, ip: Ip) {
    ip in tr ==> tr[ip].blockedUntil == Some(tr[ip].windowStart + cfg.block * SECOND)
  }

  predicate Recalls(tr: Tracker, ip: Ip, now: nat, last: nat) {
    last + DAY <= now || (ip in tr && tr[ip].lastReported == Some(last) && last <= tr[ip].windowStart && last <= now)
  }

  lemma SteadyStep(cfg: Config, tr: Tracker, e: Timed, ip: Ip, before: nat, last: nat)
    requires RenewsDaily(cfg) && Steady(cfg, tr, ip) && before <= e.at
    ensures Steady(cfg, Next(cfg, tr, e), ip)
    ensures Recalls(tr, ip, before, last) ==>
      if Reports(cfg, tr, e, ip) then last + DAY <= e.at else Recalls(Next(cfg, tr, e), ip, e.at, last)
    ensures Reports(cfg, tr, e, ip) ==> Recalls(Next(cfg, tr, e), ip, e.at, e.at)
  {
    if e.event.Request? {
      var rec := RecordOf(tr, e.event.ip, e.at);
      if !ActiveBlock(rec, e.at) { TriggeredVisit(cfg, rec, e.at, e.event.path, e.event.status); }
      BlockedVisit(cfg, rec, e.at, e.event.path, e.event.status);
    }
    hide Visit, AlwaysTriggers;
  }

  lemma {:induction false} SteadyReports(cfg: Config, tr: Tracker, es: seq<Timed>, ip: Ip, now: nat, last: nat)
    requires RenewsDaily(cfg) && InOrder(es, now) && Steady(cfg, tr, ip) && Recalls(tr, ip, now, last)
    ensures DayApart([last] + ReportTimes(cfg, tr, es, ip))
    decreases |es|
  {
    hide Next, Reports, RenewsDaily, Steady, Recalls;
    if es != [] {
      var e := es[0];
      var next := Next(cfg, tr, e);
      SteadyStep(cfg, tr, e, ip, now, last);
      if Reports(cfg, tr, e, ip) {
        SteadyReports(cfg, next, es[1..], ip, e.at, e.at);
        DayApartCons(last, e.at, ReportTimes(cfg, next, es[1..], ip));
      } else {
        SteadyReports(cfg, next, es[1..], ip, e.at, last);
        assert [] + ReportTimes(cfg, next, es[1..], ip) == ReportTimes(cfg, next, es[1..], ip);
      }
    }
  }

  lemma {:induction false} SteadyReportsADayApart(cfg: Config, tr: Tracker, es: seq<Timed>, ip: Ip, now: nat)
    requires RenewsDaily(cfg) && InOrder(es, now) && Steady(cfg, tr, ip)
    ensures DayApart(ReportTimes(cfg, tr, es, ip))
    decreases |es|
  {
    hide Next, Reports, RenewsDaily, Steady, Recalls;
    if es != [] {
      var e := es[0];
      var next := Next(cfg, tr, e);
      SteadyStep(cfg, tr, e, ip, now, 0);
      if Reports(cfg, tr, e, ip) {
        SteadyReports(cfg, next, es[1..], ip, e.at, e.at);
      } else {
        SteadyReportsADayApart(cfg, next, es[1..], ip, e.at);
        assert [] + ReportTimes(cfg, next, es[1..], ip) == ReportTimes(cfg, next, es[1..], ip);
      }
    }
  }

  /** Settings under which a report is remembered for a day whatever is collected. */
  predicate RemembersReports(cfg: Config, threshold: nat, rate: real) {
    KeepsADay(cfg) || (RefusesAll(threshold, rate) && cfg.block > cfg.window && Cutoff(cfg) >= 86400)
  }

  lemma ReportLimitFails(cfg: Config, threshold: nat, rate: real, ip: Ip) returns (es: seq<Timed>)
    requires cfg.score == ScoreOf(threshold, rate) && Watched(cfg, ip) && cfg.reporting
    requires !RemembersReports(cfg, threshold, rate)
    ensures InOrder(es, 0) && !DayApart(ReportTimes(cfg, map[], es, ip))
  {
    hide ReportTimes, InOrder, DayApart, AlwaysTriggers;
    if !RefusesAll(threshold, rate) {
      es := ReportsTwice(cfg, threshold, rate, ip);
    } else {
      RefusesAllTriggers(cfg, threshold, rate);
      if Cutoff(cfg) < 86400 {
        es := ForgottenInADay(cfg, ip);
      } else if cfg.window >= 86400 {
        es := LateInTheWindow(cfg, ip);
      } else {
        es := LateInTheDay(cfg, ip);
      }
    }
  }

  /** The once-a-day limit on reports holds in every run exactly when collection keeps every record for a
      day beyond its window, or blocks last a day, or every request is refused, blocks outlast windows and
      records are kept for a day. */
  lemma ReportLimit(cfg: Config, threshold: nat, rate: real, ip: Ip)
    requires cfg.score == ScoreOf(threshold, rate) && Watched(cfg, ip) && cfg.reporting
    ensures ReportsDailyAtMost(cfg) <==> RemembersReports(cfg, threshold, rate)
  {
    if KeepsADay(cfg) {
      forall es, j | InOrder(es, 0) ensures DayApart(ReportTimes(cfg, map[], es, j)) {
        ReportsADayApart(cfg, map[], es, j, 0);
      }
    } else if RemembersReports(cfg, threshold, rate) {
      RefusesAllTriggers(cfg, threshold, rate);
      forall es, j | InOrder(es, 0) ensures DayApart(ReportTimes(cfg, map[], es, j)) {
        SteadyReportsADayApart(cfg, map[], es, j, 0);
      }
    } else {
      var es := ReportLimitFails(cfg, threshold, rate, ip);
    }
  }

  /** A file that leaves the detector's settings alone, but for the reports: collection never shows, and
      the limit on reports fails. */
  lemma DefaultSettings(c: ConfigTypes.Config, whitelist: set<Ip>, ip: Ip)
    requires c == ConfigTypes.DEFAULT_CONFIG.(abuseKey := c.abuseKey, abuseReport := true) && c.abuseKey.Some?
    requires ip !in whitelist
    ensures GcNeverShows(Detector(c, whitelist)) && !ReportsDailyAtMost(Detector(c, whitelist))
  {
    var d := Detector(c, whitelist);
    assert d.window == 60 && d.block == 3600 && d.reporting && Watched(d, ip) && d.score == ScoreOf(100, 0.6);
    hide Detector, ScoreOf, GcNeverShows, ReportsDailyAtMost;
    GcIsInvisible(d, 100, 0.6, ip);
    ReportLimit(d, 100, 0.6, ip);
  }
}

/** The scan detector: per-address windows, scores, blocks and garbage collection. Instants are
    nanoseconds; every call reads the clock once, and the caller passes the reading. */
module ScanDetector {
  import opened Common

  type Ip = string

  const SECOND: nat := 1_000_000_000
  const DAY: nat := 86400 * SECOND
  const SCORE_TRIGGER: nat := 60

  const PROBE_PATHS: set<string> := {
    "/.env", "/.git", "/.gitignore", "/.htaccess", "/.htpasswd",
    "/wp-login.php", "/wp-admin", "/xmlrpc.php", "/wp-config.php",
    "/admin", "/administrator", "/phpmyadmin", "/phpMyAdmin",
    "/setup.php", "/config.php", "/install.php", "/upgrade.php",
    "/cgi-bin/", "/shell.php", "/webshell.php", "/c99.php", "/r57.php",
    "/proc/self/environ", "/etc/passwd", "/etc/shadow",
    "/.DS_Store", "/thumbs.db",
    "/actuator", "/actuator/health", "/actuator/env",
    "/console", "/manager/html",
    "/.aws/credentials", "/.ssh/id_rsa",
    "/api/swagger", "/swagger-ui.html", "/openapi.json",
    "/vendor/phpunit", "/vendor/autoload.php",
    "/backup.sql", "/backup.zip", "/database.sql"}

  /** `window` and `block` in seconds; `reporting` when reports are on and a key is set; `score` maps
      requests, 4xx answers and distinct probe paths to a score. */
  datatype Config = Config(enabled: bool, window: nat, block: nat, whitelist: set<Ip>, reporting: bool,
                           score: (nat, nat, nat) -> nat)

  datatype IpRecord = IpRecord(windowStart: nat, reqs: nat, errors: nat, probes: set<string>,
                               blockedUntil: Option<nat>, lastReported: Option<nat>)

  type Tracker = map<Ip, IpRecord>

  function NewRecord(now: nat): IpRecord { IpRecord(now, 0, 0, {}, None, None) }

  /** `duration_since`, which saturates at zero. */
  function Since(now: nat, then_: nat): nat { if then_ <= now then now - then_ else 0 }

  predicate Contains(s: string, part: string) { exists i | 0 <= i <= |s| :: part <= s[i..] }

  function ProbesIn(path: string): set<string> {
    var lower := LowerText(path);
    set p | p in PROBE_PATHS && Contains(lower, p)
  }

  /** What one visit does to the record of an address: the new record, whether the visitor is refused,
      and whether a report goes out. */
  datatype Outcome = Outcome(rec: IpRecord, refused: bool, reported: bool)

  predicate ActiveBlock(rec: IpRecord, now: nat) { rec.blockedUntil.Some? && now < rec.blockedUntil.value }

  predicate WindowOver(cfg: Config, rec: IpRecord, now: nat) { Since(now, rec.windowStart) > cfg.window * SECOND }

  function Counted(cfg: Config, rec: IpRecord, now: nat, path: string, status: nat): IpRecord {
    var base := if WindowOver(cfg, rec, now) then NewRecord(now).(lastReported := rec.lastReported)
      else rec.(blockedUntil := None);
    base.(reqs := base.reqs + 1, errors := base.errors + (if 400 <= status < 500 then 1 else 0),
           probes := base.probes + ProbesIn(path))
  }

  predicate ReportedLately(rec: IpRecord, now: nat) {
    rec.lastReported.Some? && Since(now, rec.lastReported.value) < DAY
  }

  function Visit(cfg: Config, rec: IpRecord, now: nat, path: string, status: nat): Outcome {
    if ActiveBlock(rec, now) then Outcome(rec, true, false)
    else
      var seen := Counted(cfg, rec, now, path, status);
      if cfg.score(seen.reqs, seen.errors, |seen.probes|) < SCORE_TRIGGER then Outcome(seen, false, false)
      else
        var report := cfg.reporting && !ReportedLately(seen, now);
        Outcome(seen.(blockedUntil := if cfg.block > 0 then Some(now + cfg.block * SECOND) else None,
                      lastReported := if report then Some(now) else seen.lastReported), true, report)
  }

  predicate Watched(cfg: Config, ip: Ip) { cfg.enabled && ip !in cfg.whitelist }

  function RecordOf(tr: Tracker, ip: Ip, now: nat): IpRecord { if ip in tr then tr[ip] else NewRecord(now) }

  predicate Blocked(cfg: Config, tr: Tracker, ip: Ip, now: nat) { cfg.enabled && ip in tr && ActiveBlock(tr[ip], now) }

  /** `window_secs * 3` in 64 bits, in seconds. */
  function Cutoff(cfg: Config): nat { (cfg.window * 3) % U64 }

  predicate Kept(cfg: Config, rec: IpRecord, now: nat) {
    ActiveBlock(rec, now) || Since(now, rec.windowStart) < Cutoff(cfg) * SECOND
  }

  function Collected(cfg: Config, tr: Tracker, now: nat): Tracker {
    map ip | ip in tr && Kept(cfg, tr[ip], now) :: tr[ip]
  }

  // ---- The detector ----

  /** `record`, on the record of the address: the counting. */
  method Count(cfg: Config, before: IpRecord, now: nat, path: string, status: nat) returns (rec: IpRecord)
    ensures rec == Counted(cfg, before.(blockedUntil := None), now, path, status)
  {
    hide ProbesIn;
    rec := before.(blockedUntil := None);
    if Since(now, rec.windowStart) > cfg.window * SECOND {
      rec := rec.(windowStart := now, reqs := 0, errors := 0, probes := {});
    }
    rec := rec.(reqs := rec.reqs + 1);
    if 400 <= status && status < 500 { rec := rec.(errors := rec.errors + 1); }
    rec := rec.(probes := rec.probes + ProbesIn(path));
  }

  lemma CountForgetsBlock(cfg: Config, rec: IpRecord, now: nat, path: string, status: nat)
    ensures Counted(cfg, rec.(blockedUntil := None), now, path, status) == Counted(cfg, rec, now, path, status)
  {
    hide ProbesIn;
  }

  /** `record`, on the record of the address: the block check, the counting and the verdict. */
  method Update(cfg: Config, before: IpRecord, now: nat, path: string, status: nat)
    returns (rec: IpRecord, refused: bool, reported: bool)
    ensures Outcome(rec, refused, reported) == Visit(cfg, before, now, path, status)
  {
    CountForgetsBlock(cfg, before, now, path, status);
    hide Counted;
    rec, reported := before, false;
    if rec.blockedUntil.Some? && now < rec.blockedUntil.value { return rec, true, false; }
    rec := Count(cfg, rec, now, path, status);
    refused := cfg.score(rec.reqs, rec.errors, |rec.probes|) >= SCORE_TRIGGER;
    if refused {
      rec := rec.(blockedUntil := if cfg.block > 0 then Some(now + cfg.block * SECOND) else None);
      var already := rec.lastReported.Some? && Since(now, rec.lastReported.value) < DAY;
      if !already && cfg.reporting {
        reported := true;
        rec := rec.(lastReported := Some(now));
      }
    }
  }

  class ScanDetector {
    const config: Config
    var tracker: Tracker

    constructor (config: Config)
      ensures this.config == config && tracker == map[]
    {
      this.config := config;
      tracker := map[];
    }

    /** Called after each request; true when the visitor should get a 403. */
    method Record(ip: Ip, path: string, status: nat, now: nat) returns (refused: bool, reported: bool)
      modifies this
      ensures !Watched(config, ip) ==> !refused && !reported && tracker == old(tracker)
      ensures Watched(config, ip) ==>
        var o := Visit(config, RecordOf(old(tracker), ip, now), now, path, status);
        refused == o.refused && reported == o.reported && tracker == old(tracker)[ip := o.rec]
    {
      hide Visit;
      if !config.enabled { return false, false; }
      if ip in config.whitelist { return false, false; }
      if ip !in tracker { tracker := tracker[ip := NewRecord(now)]; }
      var rec;
      rec, refused, reported := Update(config, tracker[ip], now, path, status);
      tracker := tracker[ip := rec];
    }

    method IsBlocked(ip: Ip, now: nat) returns (r: bool)
      ensures r == Blocked(config, tracker, ip, now)
    {
      if !config.enabled { return false; }
      r := ip in tracker && tracker[ip].blockedUntil.Some? && now < tracker[ip].blockedUntil.value;
    }

    method Gc(now: nat)
      modifies this
      ensures tracker == Collected(config, old(tracker), now)
    {
      var cutoff := (config.window * 3) % U64 * SECOND;
      tracker := map ip | ip in tracker
        && ((tracker[ip].blockedUntil.Some? && now < tracker[ip].blockedUntil.value)
            || Since(now, tracker[ip].windowStart) < cutoff) :: tracker[ip];
    }
  }

  // ---- Runs ----

  datatype Event = Request(ip: Ip, path: string, status: nat) | Query(ip: Ip) | Collect

  datatype Timed = Timed(at: nat, event: Event)

  /** An answer of `record` or `is_blocked`. */
  datatype Answer = Answer(at: nat, ip: Ip, refused: bool)

  function Next(cfg: Config, tr: Tracker, e: Timed): Tracker {
    match e.event
    case Request(ip, path, status) =>
      if Watched(cfg, ip) then tr[ip := Visit(cfg, RecordOf(tr, ip, e.at), e.at, path, status).rec] else tr
    case Query(_) => tr
    case Collect => Collected(cfg, tr, e.at)
  }

  function AnswerOf(cfg: Config, tr: Tracker, e: Timed): seq<Answer> {
    match e.event
    case Request(ip, path, status) =>
      [Answer(e.at, ip, Watched(cfg, ip) && Visit(cfg, RecordOf(tr, ip, e.at), e.at, path, status).refused)]
    case Query(ip) => [Answer(e.at, ip, Blocked(cfg, tr, ip, e.at))]
    case Collect => []
  }

  function Answers(cfg: Config, tr: Tracker, es: seq<Timed>): seq<Answer>
    decreases |es|
  {
    if es == [] then [] else AnswerOf(cfg, tr, es[0]) + Answers(cfg, Next(cfg, tr, es[0]), es[1..])
  }

  function WithoutGc(es: seq<Timed>): seq<Timed> {
    if es == [] then []
    else (if es[0].event.Collect? then [] else [es[0]]) + WithoutGc(es[1..])
  }

  predicate InOrder(es: seq<Timed>, now: nat)
    decreases |es|
  {
    es == [] || (now <= es[0].at && InOrder(es[1..], es[0].at))
  }

  // ---- Garbage collection does not show ----

  predicate Alike(a: IpRecord, b: IpRecord) { a.(lastReported := None) == b.(lastReported := None) }

  /** A record whose next visit starts a new window, whenever it comes. */
  predicate Stale(cfg: Config, rec: IpRecord, now: nat) { !ActiveBlock(rec, now) && WindowOver(cfg, rec, now) }

  /** What is remembered without collection, and what is remembered with it. */
  predicate SameAt(cfg: Config, a: Tracker, b: Tracker, now: nat, ip: Ip) {
    if ip in b then ip in a && Alike(a[ip], b[ip]) else ip in a ==> Stale(cfg, a[ip], now)
  }

  ghost predicate Same(cfg: Config, a: Tracker, b: Tracker, now: nat) {
    forall ip :: SameAt(cfg, a, b, now, ip)
  }

  lemma SameLater(cfg: Config, a: Tracker, b: Tracker, now: nat, later: nat)
    requires Same(cfg, a, b, now) && now <= later
    ensures Same(cfg, a, b, later)
  {
    forall ip ensures SameAt(cfg, a, b, later, ip) { assert SameAt(cfg, a, b, now, ip); }
  }

  lemma VisitsAlike(cfg: Config, a: IpRecord, b: IpRecord, now: nat, path: string, status: nat)
    requires Alike(a, b) || (Stale(cfg, a, now) && b == NewRecord(now))
    ensures var x, y := Visit(cfg, a, now, path, status), Visit(cfg, b, now, path, status);
      x.refused == y.refused && Alike(x.rec, y.rec)
  {
    hide ProbesIn;
  }

  lemma StepsAlike(cfg: Config, a: Tracker, b: Tracker, e: Timed)
    requires Same(cfg, a, b, e.at) && !e.event.Collect?
    ensures AnswerOf(cfg, a, e) == AnswerOf(cfg, b, e) && Same(cfg, Next(cfg, a, e), Next(cfg, b, e), e.at)
  {
    hide Visit, Alike, ProbesIn;
    assert SameAt(cfg, a, b, e.at, e.event.ip);
    if e.event.Request? && Watched(cfg, e.event.ip) {
      AlikeItself(NewRecord(e.at));
      VisitsAlike(cfg, RecordOf(a, e.event.ip, e.at), RecordOf(b, e.event.ip, e.at), e.at, e.event.path,
        e.event.status);
      forall ip ensures SameAt(cfg, Next(cfg, a, e), Next(cfg, b, e), e.at, ip) { assert SameAt(cfg, a, b, e.at, ip); }
    }
    if e.event.Query? && e.event.ip in b { BlocksAlike(a[e.event.ip], b[e.event.ip], e.at); }
  }

  lemma AlikeItself(a: IpRecord)
    ensures Alike(a, a)
  {
  }

  lemma BlocksAlike(a: IpRecord, b: IpRecord, now: nat)
    requires Alike(a, b)
    ensures ActiveBlock(a, now) == ActiveBlock(b, now)
  {
  }

  /** With a cutoff longer than the window, a collected record is stale. */
  lemma CollectedIsSame(cfg: Config, a: Tracker, b: Tracker, now: nat)
    requires Same(cfg, a, b, now) && Cutoff(cfg) > cfg.window
    ensures Same(cfg, a, Collected(cfg, b, now), now)
  {
    forall ip ensures SameAt(cfg, a, Collected(cfg, b, now), now, ip) { assert SameAt(cfg, a, b, now, ip); }
  }

  lemma {:induction false} SameAnswers(cfg: Config, a: Tracker, b: Tracker, es: seq<Timed>, now: nat)
    requires Cutoff(cfg) > cfg.window && InOrder(es, now) && Same(cfg, a, b, now)
    ensures Answers(cfg, a, WithoutGc(es)) == Answers(cfg, b, es)
    decreases |es|
  {
    hide Next, AnswerOf, Same;
    if es != [] {
      var e := es[0];
      SameLater(cfg, a, b, now, e.at);
      if e.event.Collect? {
        CollectedIsSame(cfg, a, b, e.at);
        NextCollects(cfg, b, e);
        SameAnswers(cfg, a, Next(cfg, b, e), es[1..], e.at);
        assert [] + WithoutGc(es[1..]) == WithoutGc(es[1..]);
        assert [] + Answers(cfg, Next(cfg, b, e), es[1..]) == Answers(cfg, Next(cfg, b, e), es[1..]);
      } else {
        StepsAlike(cfg, a, b, e);
        SameAnswers(cfg, Next(cfg, a, e), Next(cfg, b, e), es[1..], e.at);
        assert ([e] + WithoutGc(es[1..]))[1..] == WithoutGc(es[1..]);
      }
    }
  }

  lemma NextCollects(cfg: Config, tr: Tracker, e: Timed)
    requires e.event.Collect?
    ensures Next(cfg, tr, e) == Collected(cfg, tr, e.at) && AnswerOf(cfg, tr, e) == []
  {
  }

  /** Whatever the score, a window whose tripled length fits 64 bits and is not zero hides collection. */
  lemma OrdinaryWindowsHideGc(cfg: Config, es: seq<Timed>)
    requires 1 <= cfg.window && cfg.window * 3 < U64 && InOrder(es, 0)
    ensures Answers(cfg, map[], WithoutGc(es)) == Answers(cfg, map[], es)
  {
    SameAnswers(cfg, map[], map[], es, 0);
  }

  // ---- Blocks hold ----

  lemma {:induction false} AnswersAreLater(cfg: Config, tr: Tracker, es: seq<Timed>, now: nat)
    requires InOrder(es, now)
    ensures forall a | a in Answers(cfg, tr, es) :: now <= a.at
    decreases |es|
  {
    hide Next, Visit;
    if es != [] { AnswersAreLater(cfg, Next(cfg, tr, es[0]), es[1..], es[0].at); }
  }

  lemma BlockKept(cfg: Config, tr: Tracker, e: Timed, ip: Ip, until: nat)
    requires Watched(cfg, ip) && ip in tr && tr[ip].blockedUntil == Some(until) && e.at < until
    ensures ip in Next(cfg, tr, e) && Next(cfg, tr, e)[ip].blockedUntil == Some(until)
    ensures forall a | a in AnswerOf(cfg, tr, e) && a.ip == ip :: a.refused
  {
    hide Counted, ProbesIn;
  }

  /** A block that is set answers "refused" to everything before it expires, whatever happens between. */
  lemma {:induction false} BlockHolds(cfg: Config, tr: Tracker, es: seq<Timed>, now: nat, ip: Ip, until: nat)
    requires Watched(cfg, ip) && ip in tr && tr[ip].blockedUntil == Some(until) && InOrder(es, now)
    ensures forall a | a in Answers(cfg, tr, es) && a.ip == ip && a.at < until :: a.refused
    decreases |es|
  {
    hide Next, AnswerOf;
    if es != [] {
      if es[0].at < until {
        BlockKept(cfg, tr, es[0], ip, until);
        BlockHolds(cfg, Next(cfg, tr, es[0]), es[1..], es[0].at, ip, until);
      } else {
        assert InOrder(es, es[0].at);
        AnswersAreLater(cfg, tr, es, es[0].at);
      }
    }
  }

  /** A refusal of an address that was not blocked lasts for the whole block time; without a block time
      the next query already says "not blocked". */
  lemma RefusalLasts(cfg: Config, tr: Tracker, e: Timed, es: seq<Timed>)
    requires e.event.Request? && InOrder(es, e.at) && AnswerOf(cfg, tr, e)[0].refused
    requires !Blocked(cfg, tr, e.event.ip, e.at)
    ensures cfg.block > 0 ==> forall a | a in Answers(cfg, Next(cfg, tr, e), es) && a.ip == e.event.ip
      && a.at < e.at + cfg.block * SECOND :: a.refused
    ensures cfg.block == 0 ==> !Blocked(cfg, Next(cfg, tr, e), e.event.ip, e.at)
  {
    var ip := e.event.ip;
    hide Counted;
    assert ip in Next(cfg, tr, e);
    if cfg.block > 0 {
      assert Next(cfg, tr, e)[ip].blockedUntil == Some(e.at + cfg.block * SECOND);
      BlockHolds(cfg, Next(cfg, tr, e), es, e.at, ip, e.at + cfg.block * SECOND);
    }
  }

  // ---- One report a day ----

  predicate Reports(cfg: Config, tr: Tracker, e: Timed, ip: Ip) {
    e.event.Request? && e.event.ip == ip && Watched(cfg, ip)
    && Visit(cfg, RecordOf(tr, ip, e.at), e.at, e.event.path, e.event.status).reported
  }

  function ReportTimes(cfg: Config, tr: Tracker, es: seq<Timed>, ip: Ip): seq<nat>
    decreases |es|
  {
    if es == [] then []
    else (if Reports(cfg, tr, es[0], ip) then [es[0].at] else []) + ReportTimes(cfg, Next(cfg, tr, es[0]), es[1..], ip)
  }

  predicate DayApart(ts: seq<nat>) { forall i | 0 < i < |ts| :: ts[i - 1] + DAY <= ts[i] }

  /** A report is remembered until it is a day old: either that day is over, or the record still holds
      it, and then neither its window nor its block began much before it. */
  predicate Remembers(cfg: Config, tr: Tracker, ip: Ip, now: nat, last: nat) {
    || last + DAY <= now
    || (&& ip in tr && last <= now && tr[ip].lastReported == Some(last)
        && last <= tr[ip].windowStart + cfg.window * SECOND
        && (last + cfg.block * SECOND <= now
            || (tr[ip].blockedUntil.Some? && last + cfg.block * SECOND <= tr[ip].blockedUntil.value)))
  }

  /** Collection keeps a record for a day after its report: the time it keeps records beyond their
      window, or the block, is that long. */
  predicate KeepsADay(cfg: Config) { Cutoff(cfg) >= cfg.window + 86400 || cfg.block >= 86400 }

  lemma CollectionRemembers(cfg: Config, tr: Tracker, ip: Ip, before: nat, now: nat, last: nat)
    requires Remembers(cfg, tr, ip, before, last) && before <= now && KeepsADay(cfg)
    ensures Remembers(cfg, Collected(cfg, tr, now), ip, now, last)
  {
  }

  lemma VisitRemembers(cfg: Config, tr: Tracker, ip: Ip, before: nat, e: Timed, last: nat)
    requires Remembers(cfg, tr, ip, before, last) && before <= e.at && !e.event.Collect?
    ensures Reports(cfg, tr, e, ip) ==> last + DAY <= e.at
    ensures !Reports(cfg, tr, e, ip) ==> Remembers(cfg, Next(cfg, tr, e), ip, e.at, last)
  {
    hide ProbesIn;
  }

  lemma ReportIsRemembered(cfg: Config, tr: Tracker, ip: Ip, e: Timed)
    requires Reports(cfg, tr, e, ip)
    ensures Remembers(cfg, Next(cfg, tr, e), ip, e.at, e.at)
  {
    hide ProbesIn;
  }

  predicate NoGc(es: seq<Timed>) { forall e | e in es :: !e.event.Collect? }

  lemma {:induction false} ReportsFollow(cfg: Config, tr: Tracker, es: seq<Timed>, ip: Ip, now: nat, last: nat)
    requires InOrder(es, now) && Remembers(cfg, tr, ip, now, last) && (KeepsADay(cfg) || NoGc(es))
    ensures DayApart([last] + ReportTimes(cfg, tr, es, ip))
    decreases |es|
  {
    hide Remembers, Next, Reports, KeepsADay;
    if es != [] {
      var e := es[0];
      var next, tail := Next(cfg, tr, e), ReportTimes(cfg, Next(cfg, tr, e), es[1..], ip);
      if e.event.Collect? {
        NextCollects(cfg, tr, e);
        CollectionRemembers(cfg, tr, ip, now, e.at, last);
        CollectReportsNothing(cfg, tr, e, ip);
      } else {
        VisitRemembers(cfg, tr, ip, now, e, last);
      }
      if Reports(cfg, tr, e, ip) {
        ReportIsRemembered(cfg, tr, ip, e);
        ReportsFollow(cfg, next, es[1..], ip, e.at, e.at);
        DayApartCons(last, e.at, tail);
      } else {
        ReportsFollow(cfg, next, es[1..], ip, e.at, last);
        assert [] + tail == tail;
      }
    }
  }

  lemma DayApartCons(last: nat, at: nat, tail: seq<nat>)
    requires last + DAY <= at && DayApart([at] + tail)
    ensures DayApart([last] + ([at] + tail))
  {
    var ts := [last] + ([at] + tail);
    forall i | 0 < i < |ts| ensures ts[i - 1] + DAY <= ts[i] {
      if i > 1 { assert ts[i - 1] == ([at] + tail)[i - 2] && ts[i] == ([at] + tail)[i - 1]; }
    }
  }

  lemma CollectReportsNothing(cfg: Config, tr: Tracker, e: Timed, ip: Ip)
    requires e.event.Collect?
    ensures !Reports(cfg, tr, e, ip)
  {
  }

  lemma {:induction false} ReportsADayApart(cfg: Config, tr: Tracker, es: seq<Timed>, ip: Ip, now: nat)
    requires InOrder(es, now) && (KeepsADay(cfg) || NoGc(es))
    ensures DayApart(ReportTimes(cfg, tr, es, ip))
    decreases |es|
  {
    hide Remembers, Next, Reports, KeepsADay;
    if es != [] {
      var e := es[0];
      var next, tail := Next(cfg, tr, e), ReportTimes(cfg, Next(cfg, tr, e), es[1..], ip);
      if Reports(cfg, tr, e, ip) {
        ReportIsRemembered(cfg, tr, ip, e);
        ReportsFollow(cfg, next, es[1..], ip, e.at, e.at);
      } else {
        ReportsADayApart(cfg, next, es[1..], ip, e.at);
        assert [] + tail == tail;
      }
    }
  }

  // ---- Scores ----

  /** `score`, over the reals. A threshold of zero divides to infinity, which the caps bring down. */
  function Score(threshold: nat, rate: real, reqs: nat, errors: nat, probes: nat): nat {
    if reqs == 0 then 0 else VolumeScore(threshold, reqs) + ErrorScore(rate, reqs, errors) + Min(probes * 10, 30)
  }

  function VolumeScore(threshold: nat, reqs: nat): (r: nat)
    ensures r <= 30
  {
    if threshold == 0 || reqs >= threshold then 30
    else
      Fraction(reqs, threshold);
      (reqs as real / threshold as real * 30.0).Floor
  }

  lemma Fraction(a: nat, b: nat)
    requires 0 < b
    ensures 0.0 <= a as real / b as real
    ensures a < b <==> a as real / b as real < 1.0
  {
    Quotient(a as real, b as real);
  }

  /** A quotient against zero and one, as its dividend against zero and the divisor. */
  lemma Quotient(r: real, d: real)
    requires d > 0.0
    ensures r / d * d == r
    ensures 0.0 <= r <==> 0.0 <= r / d
    ensures r < d <==> r / d < 1.0
  {
    Compare(r, d, r / d);
  }

  lemma Compare(r: real, d: real, q: real)
    requires d > 0.0 && q * d == r
    ensures 0.0 <= r <==> 0.0 <= q
    ensures r < d <==> q < 1.0
  {
    if q < 0.0 { Times(q, 0.0, d); } else if q > 0.0 { Times(0.0, q, d); }
    if q < 1.0 { Times(q, 1.0, d); } else if q > 1.0 { Times(1.0, q, d); }
  }

  lemma Times(a: real, b: real, d: real)
    requires a < b && d > 0.0
    ensures a * d < b * d
  {
  }

  function ErrorScore(rate: real, reqs: nat, errors: nat): (r: nat)
    requires reqs > 0
    ensures r <= 40
  {
    var seen := errors as real / reqs as real;
    if seen < rate || rate < 0.0 then 0
    else if rate == 0.0 || seen / rate * 30.0 >= 40.0 then 40
    else
      Fraction(errors, reqs);
      Quotient(seen, rate);
      (seen / rate * 30.0).Floor
  }

  /** No score passes 100; and below the error rate only full volume together with three probed paths
      reaches the trigger. */
  lemma WhatTriggers(threshold: nat, rate: real, reqs: nat, errors: nat, probes: nat)
    requires reqs > 0
    ensures Score(threshold, rate, reqs, errors, probes) <= 100
    ensures errors as real / reqs as real < rate ==>
      (Score(threshold, rate, reqs, errors, probes) >= SCORE_TRIGGER <==> reqs >= threshold && probes >= 3)
  {
    if reqs < threshold {
      Fraction(reqs, threshold);
      assert reqs as real / threshold as real * 30.0 < 30.0;
    }
  }

  /** Paths are lowered before they are searched: a text that is found in one is lower-case itself. */
  lemma FoundIsLower(path: string, part: string)
    requires Contains(LowerText(path), part)
    ensures LowerText(part) == part
  {
    var lower := LowerText(path);
    var i :| 0 <= i <= |lower| && part <= lower[i..];
    forall k | 0 <= k < |part| ensures LowerChar(part[k]) == part[k] {
      assert lower[i..][k] == lower[i + k];
    }
  }

  /** A listed probe is found in some path exactly when it is written in lower case. */
  lemma ProbesThatMatch(probe: string)
    requires probe in PROBE_PATHS
    ensures (exists path :: probe in ProbesIn(path)) <==> LowerText(probe) == probe
  {
    if LowerText(probe) == probe {
      assert probe <= probe[0..];
      assert Contains(LowerText(probe), probe);
      assert probe in ProbesIn(probe);
    }
    forall path | probe in ProbesIn(path) ensures LowerText(probe) == probe { FoundIsLower(path, probe); }
  }

  /** Two of the listed probes contain capitals. */
  lemma ProbesInLowerCase(probe: string)
    requires probe in PROBE_PATHS
    ensures LowerText(probe) == probe <==> probe !in {"/phpMyAdmin", "/.DS_Store"}
  {
    if probe == "/phpMyAdmin" {
      assert LowerText(probe)[4] == 'm';
    } else if probe == "/.DS_Store" {
      assert LowerText(probe)[2] == 'd';
    } else {
      if |probe| <= 10 {
        ShortProbesAreLower(probe);
      } else if |probe| <= 12 {
        MiddleProbesAreLower(probe);
      } else if |probe| <= 14 {
        LongProbesAreLower(probe);
      } else {
        LongestProbesAreLower(probe);
      }
    }
  }

  lemma ShortProbesAreLower(probe: string)
    requires probe in PROBE_PATHS && |probe| <= 10 && probe != "/.DS_Store"
    ensures LowerText(probe) == probe
  {
    forall i | 0 <= i < |probe| ensures LowerChar(probe[i]) == probe[i] {}
  }

  lemma MiddleProbesAreLower(probe: string)
    requires probe in PROBE_PATHS && 10 < |probe| <= 12 && probe != "/phpMyAdmin"
    ensures LowerText(probe) == probe
  {
    forall i | 0 <= i < |probe| ensures LowerChar(probe[i]) == probe[i] {}
  }

  lemma LongProbesAreLower(probe: string)
    requires probe in PROBE_PATHS && 12 < |probe| <= 14
    ensures LowerText(probe) == probe
  {
    forall i | 0 <= i < |probe| ensures LowerChar(probe[i]) == probe[i] {}
  }

  lemma LongestProbesAreLower(probe: string)
    requires probe in PROBE_PATHS && |probe| > 14
    ensures LowerText(probe) == probe
  {
    forall i | 0 <= i < |probe| ensures LowerChar(probe[i]) == probe[i] {}
  }

  lemma LacksPart(s: string, part: string, k: nat)
    requires k < |part| && forall j | 0 <= j < |s| :: s[j] != part[k]
    ensures !Contains(s, part)
  {
    forall i | 0 <= i <= |s| ensures !(part <= s[i..]) {
      if i + k < |s| { assert s[i..][k] == s[i + k]; }
    }
  }
}

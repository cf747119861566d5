/** When the scan detector refuses, told without its divisions and roundings, and whom it can refuse. */
module ScanVerdicts {
  import opened Common
  import opened ScanDetector
  import opened ScanLimits
  import opened ScanCounts

  // ---- Points ----

  /** Points that a window earns: v for its volume, thirty at the threshold; e for its client errors, thirty
      at the error rate and none below it; p for its probes, ten for each. */
  predicate Earns(threshold: nat, rate: real, reqs: nat, errors: nat, probes: nat, v: nat, e: nat, p: nat) {
    && v <= 30 && e <= 40 && p <= 30
    && v * threshold <= 30 * reqs
    && (e == 0 || EarnsErrors(rate, reqs, errors, e))
    && p <= 10 * probes
  }

  predicate EarnsErrors(rate: real, reqs: nat, errors: nat, e: nat) {
    && 0.0 <= rate && rate * reqs as real <= errors as real
    && e as real * (rate * reqs as real) <= 30.0 * errors as real
  }

  ghost predicate CanEarn(threshold: nat, rate: real, reqs: nat, errors: nat, probes: nat, n: nat) {
    exists v: nat, e: nat, p: nat :: Earns(threshold, rate, reqs, errors, probes, v, e, p) && n <= v + e + p
  }

  lemma VolumeAtLeast(threshold: nat, reqs: nat, v: nat)
    requires v <= 30
    ensures v <= VolumeScore(threshold, reqs) <==> v * threshold <= 30 * reqs
  {
    if threshold == 0 {
    } else if reqs >= threshold {
      assert v * threshold <= 30 * threshold;
    } else {
      var q := reqs as real / threshold as real;
      Quotient(reqs as real, threshold as real);
      assert q * threshold as real == reqs as real;
      FloorAtLeast(q * 30.0, v);
      Scaled(q, threshold as real, reqs as real, v as real);
    }
  }

  lemma FloorAtLeast(x: real, n: nat)
    ensures n <= x.Floor <==> n as real <= x
  {
  }

  /** A quotient times thirty against a number, without the division. */
  lemma Scaled(q: real, d: real, r: real, n: real)
    requires q * d == r && d > 0.0
    ensures n <= q * 30.0 <==> n * d <= 30.0 * r
  {
    assert q * 30.0 * d == 30.0 * r;
    if n < q * 30.0 { Times(n, q * 30.0, d); } else if n > q * 30.0 { Times(q * 30.0, n, d); }
  }

  lemma ErrorsAtLeast(rate: real, reqs: nat, errors: nat, e: nat)
    requires reqs > 0 && 0 < e <= 40
    ensures e <= ErrorScore(rate, reqs, errors) <==> EarnsErrors(rate, reqs, errors, e)
  {
    var seen := errors as real / reqs as real;
    Quotient(errors as real, reqs as real);
    assert seen * reqs as real == errors as real;
    if rate < 0.0 {
    } else if seen < rate {
      Times(seen, rate, reqs as real);
    } else {
      if rate < seen { Times(rate, seen, reqs as real); }
      if rate > 0.0 {
        Quotient(seen, rate);
        ErrorShare(seen, rate, seen / rate, reqs as real, errors as real, e);
      }
    }
  }

  lemma ErrorShare(seen: real, rate: real, share: real, reqs: real, errors: real, e: nat)
    requires seen * reqs == errors && share * rate == seen && rate > 0.0 && reqs > 0.0 && e <= 40
    ensures e as real * (rate * reqs) <= 30.0 * errors <==> e as real <= share * 30.0
  {
    var d := rate * reqs;
    assert d > 0.0 by { Times(0.0, rate, reqs); }
    assert share * d == errors by { assert share * (rate * reqs) == share * rate * reqs; }
    Scaled(share, d, errors, e as real);
  }

  /** The score is the most that the points add up to. */
  lemma ScoreIsMost(threshold: nat, rate: real, reqs: nat, errors: nat, probes: nat, n: nat)
    requires reqs > 0
    ensures n <= Score(threshold, rate, reqs, errors, probes) <==> CanEarn(threshold, rate, reqs, errors, probes, n)
  {
    var volume, faults := VolumeScore(threshold, reqs), ErrorScore(rate, reqs, errors);
    var found := Min(probes * 10, 30);
    VolumeAtLeast(threshold, reqs, volume);
    if faults > 0 { ErrorsAtLeast(rate, reqs, errors, faults); }
    hide VolumeScore, ErrorScore, EarnsErrors;
    assert Earns(threshold, rate, reqs, errors, probes, volume, faults, found);
    forall v: nat, e: nat, p: nat | Earns(threshold, rate, reqs, errors, probes, v, e, p)
      ensures v + e + p <= volume + faults + found
    {
      VolumeAtLeast(threshold, reqs, v);
      if e > 0 { ErrorsAtLeast(rate, reqs, errors, e); }
    }
  }

  /** In every run, a request that is noticed is refused exactly when its window earns sixty points with
      it. */
  lemma RefusedAtSixty(cfg: Config, threshold: nat, rate: real, es: seq<Timed>, e: Timed, ip: Ip) returns (w: nat)
    requires cfg.score == ScoreOf(threshold, rate) && Notices(cfg, After(cfg, map[], es), e, ip)
    ensures var hs := Noticed(cfg, es + [e], ip);
      && w < |hs| && (NoGc(es) ==> w == WindowFrom(cfg.window, hs))
      && (AnswerOf(cfg, After(cfg, map[], es), e)[0].refused <==>
          CanEarn(threshold, rate, |hs| - w, ClientErrors(hs[w..]), |ProbesMade(hs[w..])|, 60))
  {
    hide After, AnswerOf, Noticed, Notices, Score, CanEarn, ProbesMade, ClientErrors, NoGc;
    w := VerdictOnCounts(cfg, es, e, ip);
    var hs := Noticed(cfg, es + [e], ip);
    ScoreIsMost(threshold, rate, |hs| - w, ClientErrors(hs[w..]), |ProbesMade(hs[w..])|, 60);
  }

  // ---- Whom it can refuse ----

  ghost predicate Refuses(cfg: Config, es: seq<Timed>, ip: Ip) {
    exists a :: a in Answers(cfg, map[], es) && a.ip == ip && a.refused
  }

  lemma {:induction false} UnwatchedAreServed(cfg: Config, tr: Tracker, es: seq<Timed>, ip: Ip)
    requires !Watched(cfg, ip) && (cfg.enabled ==> ip !in tr)
    ensures forall a | a in Answers(cfg, tr, es) && a.ip == ip :: !a.refused
    decreases |es|
  {
    hide Visit;
    if es != [] {
      UnwatchedAreServed(cfg, Next(cfg, tr, es[0]), es[1..], ip);
    }
  }

  function Copies(e: Timed, n: nat): (es: seq<Timed>)
    ensures |es| == n && forall x | x in es :: x == e
  {
    seq(n, _ => e)
  }

  lemma {:induction false} CopiesAreHeard(e: Timed, n: nat, ip: Ip)
    requires e.event.Request? && e.event.ip == ip
    ensures |RequestsOf(Copies(e, n), ip)| == n && forall h | h in RequestsOf(Copies(e, n), ip) :: h == HeardOf(e)
    decreases n
  {
    if n > 0 {
      assert Copies(e, n)[..n - 1] == Copies(e, n - 1) && Copies(e, n)[n - 1] == e;
      CopiesAreHeard(e, n - 1, ip);
    }
  }

  lemma {:induction false} OneWindow(window: nat, hs: seq<Heard>, at: nat)
    requires hs != [] && forall h | h in hs :: h.at == at
    ensures WindowFrom(window, hs) == 0
    decreases |hs|
  {
    var n := |hs| - 1;
    if n > 0 {
      assert hs[n] in hs && hs[0] in hs && forall h | h in hs[..n] :: h in hs;
      OneWindow(window, hs[..n], at);
    }
  }

  const PROBING: string := "/.env/.git/admin"

  lemma ThreeProbes()
    ensures {"/.env", "/.git", "/admin"} <= ProbesIn(PROBING)
  {
    var s := LowerText(PROBING);
    assert s == PROBING;
    assert "/.env" <= s[0..] && "/.git" <= s[5..] && "/admin" <= s[10..];
  }

  lemma AtLeastThree(found: set<string>)
    requires {"/.env", "/.git", "/admin"} <= found
    ensures |found| >= 3
  {
    var three := {"/.env", "/.git", "/admin"};
    assert "/.env"[2] == 'e' && "/.git"[2] == 'g' && "/admin"[1] == 'a';
    assert |three| == 3;
    assert found == three + (found - three);
  }

  lemma ProbingIsLoud(threshold: nat, rate: real, n: nat, errors: nat, hs: seq<Heard>)
    requires n >= threshold && n > 0 && hs != [] && hs[0].path == PROBING
    ensures ScoreOf(threshold, rate)(n, errors, |ProbesMade(hs)|) >= SCORE_TRIGGER
  {
    ThreeProbes();
    forall p | p in ProbesIn(PROBING) ensures p in ProbesMade(hs) { assert Contains(LowerText(hs[0].path), p); }
    hide ProbesMade, ProbesIn;
    AtLeastThree(ProbesMade(hs));
  }

  lemma UnblockedIsNoticed(cfg: Config, tr: Tracker, e: Timed, ip: Ip)
    requires e.event.Request? && e.event.ip == ip && Watched(cfg, ip) && (ip in tr ==> tr[ip].blockedUntil.None?)
    ensures Notices(cfg, tr, e, ip)
  {
  }

  /** While none of them is refused, all of them are noticed, and in one window. */
  lemma CopiesCount(cfg: Config, n: nat, e: Timed, ip: Ip)
    requires Watched(cfg, ip) && e.event.Request? && e.event.ip == ip && e.at == 0
    requires forall a | a in Answers(cfg, map[], Copies(e, n)) && a.ip == ip :: !a.refused
    ensures Notices(cfg, After(cfg, map[], Copies(e, n)), e, ip)
    ensures var hs := Noticed(cfg, Copies(e, n) + [e], ip);
      |hs| == n + 1 && hs[0].path == e.event.path && WindowFrom(cfg.window, hs) == 0
  {
    hide *;
    var es := Copies(e, n);
    AllAreHeard(cfg, es, ip);
    NeverBlocked(cfg, map[], es, ip);
    CopiesAreHeard(e, n, ip);
    UnblockedIsNoticed(cfg, After(cfg, map[], es), e, ip);
    OneMoreNoticed(cfg, es, e, ip);
    var hs := Noticed(cfg, es + [e], ip);
    AllHeardTogether(hs, RequestsOf(es, ip), e);
    OneWindow(cfg.window, hs, 0);
  }

  lemma NextIsRefused(cfg: Config, threshold: nat, rate: real, e: Timed, ip: Ip)
    requires cfg.score == ScoreOf(threshold, rate) && Watched(cfg, ip) && e == Timed(0, Request(ip, PROBING, 200))
    requires forall a | a in Answers(cfg, map[], Copies(e, threshold)) && a.ip == ip :: !a.refused
    ensures AnswerOf(cfg, After(cfg, map[], Copies(e, threshold)), e)[0].refused
  {
    hide *;
    CopiesCount(cfg, threshold, e, ip);
    CopiesInOrder(e, threshold);
    var w := VerdictOnCounts(cfg, Copies(e, threshold), e, ip);
    var hs := Noticed(cfg, Copies(e, threshold) + [e], ip);
    assert hs[0..] == hs;
    ProbingIsLoud(threshold, rate, threshold + 1, ClientErrors(hs), hs);
  }

  lemma AllHeardTogether(hs: seq<Heard>, before: seq<Heard>, e: Timed)
    requires e.event.Request? && hs == before + [HeardOf(e)] && forall h | h in before :: h == HeardOf(e)
    ensures (forall h | h in hs :: h.at == e.at) && hs[0].path == e.event.path
  {
    assert hs[0] in hs;
  }

  /** A watched address that sends enough probing requests is refused. */
  lemma ProbersAreRefused(cfg: Config, threshold: nat, rate: real, ip: Ip) returns (es: seq<Timed>)
    requires cfg.score == ScoreOf(threshold, rate) && Watched(cfg, ip)
    ensures InOrder(es, 0) && Refuses(cfg, es, ip)
  {
    var e := Timed(0, Request(ip, PROBING, 200));
    es := Copies(e, threshold);
    hide After, Answers, AnswerOf, InOrder, Copies, ScoreOf, NoGc;
    CopiesInOrder(e, threshold);
    if !Refuses(cfg, es, ip) {
      NextIsRefused(cfg, threshold, rate, e, ip);
      RunsJoin(cfg, map[], es, [e], ip);
      OneAnswer(cfg, After(cfg, map[], es), e);
      assert AnswerOf(cfg, After(cfg, map[], es), e)[0] in Answers(cfg, map[], es + [e]);
      CopiesInOrder(e, threshold + 1);
      es := es + [e];
    }
  }

  lemma {:induction false} CopiesInOrder(e: Timed, n: nat)
    requires e.at == 0
    ensures InOrder(Copies(e, n), 0) && (!e.event.Collect? ==> NoGc(Copies(e, n)))
    ensures Copies(e, n + 1) == Copies(e, n) + [e]
    decreases n
  {
    if n > 0 {
      assert Copies(e, n)[1..] == Copies(e, n - 1) && Copies(e, n)[0] == e;
      assert e in Copies(e, n);
      CopiesInOrder(e, n - 1);
    }
  }

  lemma OneMoreNoticed(cfg: Config, es: seq<Timed>, e: Timed, ip: Ip)
    requires Notices(cfg, After(cfg, map[], es), e, ip)
    ensures Noticed(cfg, es + [e], ip) == Noticed(cfg, es, ip) + [HeardOf(e)]
  {
    assert (es + [e])[..|es|] == es;
    NoticedSnoc(cfg, es + [e], ip);
    hide Noticed, After, Notices;
  }

  lemma OneAnswer(cfg: Config, tr: Tracker, e: Timed)
    requires e.event.Request?
    ensures Answers(cfg, tr, [e]) == AnswerOf(cfg, tr, e) && |AnswerOf(cfg, tr, e)| == 1
    ensures AnswerOf(cfg, tr, e)[0].ip == e.event.ip
  {
    assert [e][1..] == [];
    hide Visit, Next;
    assert AnswerOf(cfg, tr, e) + [] == AnswerOf(cfg, tr, e);
  }

  /** An address can be refused, in some run of a new detector, exactly when detection is on and the address
      is not on the white list, whatever the thresholds. */
  lemma WhoCanBeRefused(cfg: Config, threshold: nat, rate: real, ip: Ip)
    requires cfg.score == ScoreOf(threshold, rate)
    ensures (exists es :: InOrder(es, 0) && Refuses(cfg, es, ip)) <==> cfg.enabled && ip !in cfg.whitelist
  {
    hide InOrder, Answers;
    if Watched(cfg, ip) {
      var es := ProbersAreRefused(cfg, threshold, rate, ip);
    } else {
      forall es ensures !Refuses(cfg, es, ip) { UnwatchedAreServed(cfg, map[], es, ip); }
    }
  }
}

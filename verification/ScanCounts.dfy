/** What a record of the scan detector counts, told from the requests of a run: how many there were
    since the window began, how many were answered with a client error, and which probes they made. */
module ScanCounts {
  import opened Common
  import opened ScanDetector
  import opened ScanLimits

  /** A request that the detector took note of. */
  datatype Heard = Heard(at: nat, path: string, status: nat)

  /** A watched request of the address that finds no running block. */
  predicate Notices(cfg: Config, tr: Tracker, e: Timed, ip: Ip) {
    e.event.Request? && e.event.ip == ip && Watched(cfg, ip) && !Blocked(cfg, tr, ip, e.at)
  }

  function HeardOf(e: Timed): Heard
    requires e.event.Request?
  {
    Heard(e.at, e.event.path, e.event.status)
  }

  /** The requests of an address that a run of a new detector takes note of. */
  function Noticed(cfg: Config, es: seq<Timed>, ip: Ip): (hs: seq<Heard>)
    ensures |hs| <= |es|
  {
    if es == [] then []
    else
      var n := |es| - 1;
      Noticed(cfg, es[..n], ip) + (if Notices(cfg, After(cfg, map[], es[..n]), es[n], ip) then [HeardOf(es[n])] else [])
  }

  // ---- What there is to count ----

  /** Requests that were answered with a status of the form 4xx. */
  function ClientErrors(hs: seq<Heard>): (n: nat)
    ensures n <= |hs|
  {
    if hs == [] then 0
    else ClientErrors(hs[..|hs| - 1]) + (if hs[|hs| - 1].status / 100 == 4 then 1 else 0)
  }

  /** The listed texts that occur in one of the paths, read in lower case. */
  function ProbesMade(hs: seq<Heard>): set<string> {
    set p | p in PROBE_PATHS && exists i :: 0 <= i < |hs| && Contains(LowerText(hs[i].path), p)
  }

  /** Where the last window of a sequence of requests begins: a request more than a window after the
      first one of its window begins the next. */
  function WindowFrom(window: nat, hs: seq<Heard>): (w: nat)
    requires hs != []
    ensures w < |hs|
  {
    var n := |hs| - 1;
    if n == 0 then 0
    else
      var w := WindowFrom(window, hs[..n]);
      if Since(hs[n].at, hs[w].at) > window * SECOND then n else w
  }

  /** The record counts the requests from the w-th on, which all came within a window of the w-th. */
  ghost predicate Counts(cfg: Config, rec: IpRecord, hs: seq<Heard>, w: nat) {
    && w < |hs| && rec.windowStart == hs[w].at
    && rec.reqs == |hs| - w && rec.errors == ClientErrors(hs[w..]) && rec.probes == ProbesMade(hs[w..])
    && forall j | w <= j < |hs| :: Since(hs[j].at, hs[w].at) <= cfg.window * SECOND
  }

  // ---- Every run counts right ----

  lemma AfterSnoc(cfg: Config, es: seq<Timed>)
    requires es != []
    ensures After(cfg, map[], es) == Next(cfg, After(cfg, map[], es[..|es| - 1]), es[|es| - 1])
  {
    var n := |es| - 1;
    assert es == es[..n] + [es[n]];
    RunsJoin(cfg, map[], es[..n], [es[n]], "");
    hide Next;
    AfterOne(cfg, After(cfg, map[], es[..n]), es[n]);
  }

  lemma AfterOne(cfg: Config, tr: Tracker, e: Timed)
    ensures After(cfg, tr, [e]) == Next(cfg, tr, e)
  {
    assert [e][1..] == [];
    hide Next;
  }

  lemma CountsOneMore(hs: seq<Heard>, h: Heard)
    ensures ClientErrors(hs + [h]) == ClientErrors(hs) + (if 400 <= h.status < 500 then 1 else 0)
    ensures ProbesMade(hs + [h]) == ProbesMade(hs) + ProbesIn(h.path)
  {
    var more := hs + [h];
    assert more[..|hs|] == hs;
    assert h.status / 100 == 4 <==> 400 <= h.status < 500;
    forall p | p in ProbesMade(more) ensures p in ProbesMade(hs) + ProbesIn(h.path) {
      var i :| 0 <= i < |more| && Contains(LowerText(more[i].path), p);
      if i < |hs| { assert hs[i] == more[i]; }
    }
    forall p | p in ProbesMade(hs) + ProbesIn(h.path) ensures p in ProbesMade(more) {
      if p in ProbesMade(hs) {
        var i :| 0 <= i < |hs| && Contains(LowerText(hs[i].path), p);
        assert more[i] == hs[i];
      } else {
        assert more[|hs|] == h;
      }
    }
  }

  lemma NoneMade()
    ensures ProbesMade([]) == {} && ClientErrors([]) == 0
  {
  }

  /** A request that begins a window. */
  lemma FirstOfWindow(cfg: Config, rec: IpRecord, hs: seq<Heard>, h: Heard)
    requires rec.windowStart == h.at && rec.reqs == 1 && rec.probes == ProbesIn(h.path)
    requires rec.errors == if 400 <= h.status < 500 then 1 else 0
    ensures Counts(cfg, rec, hs + [h], |hs|)
  {
    assert (hs + [h])[|hs|..] == [] + [h];
    hide ProbesIn;
    CountsOneMore([], h);
    NoneMade();
    assert {} + ProbesIn(h.path) == ProbesIn(h.path);
  }

  /** A request within a window. */
  lemma AnotherOfWindow(cfg: Config, old_: IpRecord, rec: IpRecord, hs: seq<Heard>, h: Heard, w: nat)
    requires Counts(cfg, old_, hs, w) && Since(h.at, old_.windowStart) <= cfg.window * SECOND
    requires rec.windowStart == old_.windowStart && rec.reqs == old_.reqs + 1
    requires rec.errors == old_.errors + (if 400 <= h.status < 500 then 1 else 0)
    requires rec.probes == old_.probes + ProbesIn(h.path)
    ensures Counts(cfg, rec, hs + [h], w)
  {
    hide ProbesIn, ProbesMade, ClientErrors;
    assert (hs + [h])[w..] == hs[w..] + [h];
    CountsOneMore(hs[w..], h);
  }

  lemma NoticeCounts(cfg: Config, tr: Tracker, e: Timed, ip: Ip, hs: seq<Heard>, w: nat) returns (v: nat)
    requires Notices(cfg, tr, e, ip) && (ip in tr ==> Counts(cfg, tr[ip], hs, w))
    ensures ip in Next(cfg, tr, e) && Counts(cfg, Next(cfg, tr, e)[ip], hs + [HeardOf(e)], v)
    ensures v == if ip in tr && Since(e.at, hs[w].at) <= cfg.window * SECOND then w else |hs|
  {
    hide ProbesIn, ProbesMade, ClientErrors;
    var h := HeardOf(e);
    if ip in tr && !WindowOver(cfg, tr[ip], e.at) {
      v := w;
      AnotherOfWindow(cfg, tr[ip], Next(cfg, tr, e)[ip], hs, h, w);
    } else {
      v := |hs|;
      assert {} + ProbesIn(h.path) == ProbesIn(h.path);
      FirstOfWindow(cfg, Next(cfg, tr, e)[ip], hs, h);
    }
  }

  /** Events that are not noticed leave the counts alone, if they leave the record. */
  lemma OthersKeep(cfg: Config, tr: Tracker, e: Timed, ip: Ip)
    requires !Notices(cfg, tr, e, ip) && ip in Next(cfg, tr, e)
    ensures ip in tr && Next(cfg, tr, e)[ip] == tr[ip]
  {
    hide Counted;
  }

  lemma OthersAddNone(cfg: Config, tr: Tracker, e: Timed, ip: Ip)
    requires !e.event.Collect? && ip !in Next(cfg, tr, e)
    ensures ip !in tr && !Notices(cfg, tr, e, ip)
  {
    hide Visit;
  }

  lemma {:induction false} UnknownUnheard(cfg: Config, es: seq<Timed>, ip: Ip)
    requires NoGc(es) && ip !in After(cfg, map[], es)
    ensures Noticed(cfg, es, ip) == []
    decreases |es|
  {
    if es != [] {
      var n := |es| - 1;
      AfterSnoc(cfg, es);
      hide After, Next, Notices;
      assert forall e | e in es[..n] :: e in es;
      assert es[n] in es;
      OthersAddNone(cfg, After(cfg, map[], es[..n]), es[n], ip);
      UnknownUnheard(cfg, es[..n], ip);
    }
  }

  /** In every run of a new detector, the record of an address counts its requests since its window
      began, save those that a running block answered: how many they are, how many of them were
      answered with 4xx, and which listed texts their lowered paths contain. Without collections the
      window is the last one of the requests. */
  lemma {:induction false} RecordCounts(cfg: Config, es: seq<Timed>, ip: Ip) returns (w: nat)
    requires ip in After(cfg, map[], es)
    ensures Counts(cfg, After(cfg, map[], es)[ip], Noticed(cfg, es, ip), w)
    ensures NoGc(es) ==> w == WindowFrom(cfg.window, Noticed(cfg, es, ip))
    decreases |es|
  {
    assert es != [];
    var n := |es| - 1;
    var es0, e := es[..n], es[n];
    AfterSnoc(cfg, es);
    NoticedSnoc(cfg, es, ip);
    hide After, Next, Notices, Counts, Noticed;
    var tr, hs := After(cfg, map[], es0), Noticed(cfg, es0, ip);
    assert forall x | x in es0 :: x in es;
    if Notices(cfg, tr, e, ip) {
      var w0 := 0;
      if ip in tr { w0 := RecordCounts(cfg, es0, ip); }
      w := NoticeCounts(cfg, tr, e, ip, hs, w0);
      if NoGc(es) {
        if ip in tr {
          WindowSnoc(cfg.window, hs, HeardOf(e), w0);
        } else {
          UnknownUnheard(cfg, es0, ip);
        }
      }
    } else {
      OthersKeep(cfg, tr, e, ip);
      w := RecordCounts(cfg, es0, ip);
      assert hs + [] == hs;
    }
  }

  lemma WindowSnoc(window: nat, hs: seq<Heard>, h: Heard, w: nat)
    requires hs != [] && w == WindowFrom(window, hs)
    ensures WindowFrom(window, hs + [h]) == if Since(h.at, hs[w].at) <= window * SECOND then w else |hs|
  {
    assert (hs + [h])[..|hs|] == hs;
  }

  // ---- Who is heard, from the events alone ----

  /** All requests of an address. */
  function RequestsOf(es: seq<Timed>, ip: Ip): seq<Heard> {
    if es == [] then []
    else
      var n := |es| - 1;
      RequestsOf(es[..n], ip)
      + (if es[n].event.Request? && es[n].event.ip == ip then [HeardOf(es[n])] else [])
  }

  lemma {:induction false} NeverBlocked(cfg: Config, tr: Tracker, es: seq<Timed>, ip: Ip)
    requires (ip in tr ==> tr[ip].blockedUntil.None?)
    requires cfg.block == 0 || forall a | a in Answers(cfg, tr, es) && a.ip == ip :: !a.refused
    ensures ip in After(cfg, tr, es) ==> After(cfg, tr, es)[ip].blockedUntil.None?
    decreases |es|
  {
    hide Next, AnswerOf, Visit;
    if es != [] {
      UnblockedStep(cfg, tr, es[0], ip);
      assert forall a | a in Answers(cfg, Next(cfg, tr, es[0]), es[1..]) :: a in Answers(cfg, tr, es);
      NeverBlocked(cfg, Next(cfg, tr, es[0]), es[1..], ip);
    }
  }

  lemma UnblockedStep(cfg: Config, tr: Tracker, e: Timed, ip: Ip)
    requires ip in tr ==> tr[ip].blockedUntil.None?
    ensures ip in Next(cfg, tr, e) && Next(cfg, tr, e)[ip].blockedUntil.Some? ==>
      cfg.block > 0 && exists a :: a in AnswerOf(cfg, tr, e) && a.ip == ip && a.refused
  {
    hide ProbesIn;
    if e.event.Request? && e.event.ip == ip && Watched(cfg, ip) {
      var o := Visit(cfg, RecordOf(tr, ip, e.at), e.at, e.event.path, e.event.status);
      assert Answer(e.at, ip, o.refused) in AnswerOf(cfg, tr, e);
    }
  }

  /** While nothing about an address was refused, or without a block time, all its requests count. */
  lemma {:induction false} AllAreHeard(cfg: Config, es: seq<Timed>, ip: Ip)
    requires Watched(cfg, ip)
    requires cfg.block == 0 || forall a | a in Answers(cfg, map[], es) && a.ip == ip :: !a.refused
    ensures Noticed(cfg, es, ip) == RequestsOf(es, ip)
    decreases |es|
  {
    if es != [] {
      var n := |es| - 1;
      assert es == es[..n] + [es[n]];
      RunsJoin(cfg, map[], es[..n], [es[n]], ip);
      hide After, Answers, Noticed, RequestsOf;
      AllAreHeard(cfg, es[..n], ip);
      NeverBlocked(cfg, map[], es[..n], ip);
      NoticedSnoc(cfg, es, ip);
    }
  }

  lemma NoticedSnoc(cfg: Config, es: seq<Timed>, ip: Ip)
    requires es != []
    ensures var n := |es| - 1;
      && Noticed(cfg, es, ip) == Noticed(cfg, es[..n], ip)
           + (if Notices(cfg, After(cfg, map[], es[..n]), es[n], ip) then [HeardOf(es[n])] else [])
      && RequestsOf(es, ip) == RequestsOf(es[..n], ip)
           + (if es[n].event.Request? && es[n].event.ip == ip then [HeardOf(es[n])] else [])
  {
    hide After, Notices;
  }

  // ---- The verdict ----

  /** A noticed request is refused exactly when what the window holds with it reaches the trigger. */
  lemma VerdictOnCounts(cfg: Config, es: seq<Timed>, e: Timed, ip: Ip) returns (w: nat)
    requires Notices(cfg, After(cfg, map[], es), e, ip)
    ensures var hs := Noticed(cfg, es + [e], ip);
      && w < |hs| && hs[|hs| - 1] == HeardOf(e)
      && (NoGc(es) ==> w == WindowFrom(cfg.window, hs))
      && (forall j | w <= j < |hs| :: Since(hs[j].at, hs[w].at) <= cfg.window * SECOND)
      && (AnswerOf(cfg, After(cfg, map[], es), e)[0].refused
          <==> cfg.score(|hs| - w, ClientErrors(hs[w..]), |ProbesMade(hs[w..])|) >= SCORE_TRIGGER)
  {
    var more, tr := es + [e], After(cfg, map[], es);
    assert more[..|es|] == es && more[|es|] == e;
    AfterSnoc(cfg, more);
    NoticedSnoc(cfg, more, ip);
    VerdictIs(cfg, tr, e, ip);
    hide After, Next, Notices, Noticed, AnswerOf, ProbesMade, ClientErrors, NoGc;
    NoGcSnoc(es, e);
    w := RecordCounts(cfg, more, ip);
  }

  lemma NoGcSnoc(es: seq<Timed>, e: Timed)
    requires e.event.Request?
    ensures NoGc(es) ==> NoGc(es + [e])
  {
  }

  lemma VerdictIs(cfg: Config, tr: Tracker, e: Timed, ip: Ip)
    requires Notices(cfg, tr, e, ip)
    ensures ip in Next(cfg, tr, e)
    ensures var rec := Next(cfg, tr, e)[ip];
      AnswerOf(cfg, tr, e)[0].refused <==> cfg.score(rec.reqs, rec.errors, |rec.probes|) >= SCORE_TRIGGER
  {
    hide Counted;
  }

  lemma {:induction false} AllAreErrors(hs: seq<Heard>)
    requires forall h | h in hs :: 400 <= h.status < 500
    ensures ClientErrors(hs) == |hs|
    decreases |hs|
  {
    if hs != [] {
      assert hs[|hs| - 1] in hs;
      assert forall h | h in hs[..|hs| - 1] :: h in hs;
      AllAreErrors(hs[..|hs| - 1]);
    }
  }

  lemma OnlyErrorsScore(threshold: nat, rate: real, reqs: nat, probes: nat)
    requires reqs > 0 && 0.0 < rate <= 0.75 && VolumeScore(threshold, reqs) >= 20
    ensures Score(threshold, rate, reqs, reqs, probes) >= SCORE_TRIGGER
  {
    Quotient(reqs as real, reqs as real);
    assert reqs as real / reqs as real == 1.0;
    assert 1.0 / rate * rate == 1.0;
    InverseIsLarge(rate, 1.0 / rate);
  }

  lemma InverseIsLarge(rate: real, inverse: real)
    requires 0.0 < rate <= 0.75 && inverse * rate == 1.0
    ensures inverse * 30.0 >= 40.0
  {
    if inverse * 3.0 < 4.0 { Times(inverse * 3.0, 4.0, rate); }
  }

  /** An address that is answered with nothing but 4xx is refused, if it is not refused already, as soon
      as the requests of its window have a volume score of 20, whatever their paths, for every error rate
      above zero and up to three quarters. */
  lemma OnlyErrorsAreRefused(cfg: Config, threshold: nat, rate: real, es: seq<Timed>, e: Timed, ip: Ip)
      returns (w: nat)
    requires cfg.score == ScoreOf(threshold, rate) && 0.0 < rate <= 0.75
    requires e.event.Request? && e.event.ip == ip && Watched(cfg, ip)
    requires forall x | x in es + [e] && x.event.Request? && x.event.ip == ip :: 400 <= x.event.status < 500
    ensures Notices(cfg, After(cfg, map[], es), e, ip) ==>
      w < |Noticed(cfg, es + [e], ip)|
      && (NoGc(es) ==> w == WindowFrom(cfg.window, Noticed(cfg, es + [e], ip)))
    ensures !AnswerOf(cfg, After(cfg, map[], es), e)[0].refused ==>
      Notices(cfg, After(cfg, map[], es), e, ip) && VolumeScore(threshold, |Noticed(cfg, es + [e], ip)| - w) < 20
  {
    w := 0;
    var tr := After(cfg, map[], es);
    hide After, AnswerOf, Noticed, VolumeScore;
    if Notices(cfg, tr, e, ip) {
      w := VerdictOnCounts(cfg, es, e, ip);
      var hs := Noticed(cfg, es + [e], ip);
      HeardAreRequests(cfg, es + [e], ip);
      assert forall h | h in hs[w..] :: h in hs;
      AllAreErrors(hs[w..]);
      if VolumeScore(threshold, |hs| - w) >= 20 {
        OnlyErrorsScore(threshold, rate, |hs| - w, |ProbesMade(hs[w..])|);
        hide Score, ProbesMade, ClientErrors;
      }
    } else {
      BlockedIsRefused(cfg, tr, e, ip);
    }
  }

  lemma BlockedIsRefused(cfg: Config, tr: Tracker, e: Timed, ip: Ip)
    requires e.event.Request? && e.event.ip == ip && Watched(cfg, ip) && !Notices(cfg, tr, e, ip)
    ensures AnswerOf(cfg, tr, e)[0].refused
  {
  }

  lemma {:induction false} HeardAreRequests(cfg: Config, es: seq<Timed>, ip: Ip)
    ensures forall h | h in Noticed(cfg, es, ip) ::
      exists x :: x in es && x.event.Request? && x.event.ip == ip && HeardOf(x) == h
    decreases |es|
  {
    if es != [] {
      var n := |es| - 1;
      HeardAreRequests(cfg, es[..n], ip);
      NoticedSnoc(cfg, es, ip);
      hide Noticed, After;
      assert es[n] in es && forall x | x in es[..n] :: x in es;
    }
  }
}

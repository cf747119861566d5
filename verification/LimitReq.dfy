/** `limit_req` zones: one token bucket per address, over real numbers and instants in seconds. */
module LimitReq {
  import opened Common

  type Ip = string

  datatype Bucket = Bucket(tokens: real, lastCheck: real)

  type Buckets = map<Ip, Bucket>

  function MinReal(a: real, b: real): real { if a <= b then a else b }

  /** `duration_since`, which saturates at zero. */
  function Elapsed(now: real, since: real): real { if since <= now then now - since else 0.0 }

  /** The tokens of an address when it calls: those left, refilled at the rate, capped by the burst; a
      full bucket for an address that is not remembered. */
  function Refilled(rate: real, burst: nat, b: Option<Bucket>, now: real): real {
    match b
    case None => burst as real
    case Some(k) => MinReal(k.tokens + Elapsed(now, k.lastCheck) * rate, burst as real)
  }

  function Called(rate: real, burst: nat, b: Option<Bucket>, now: real): (Bucket, bool) {
    var t := Refilled(rate, burst, b, now);
    if t >= 1.0 then (Bucket(t - 1.0, now), true) else (Bucket(t, now), false)
  }

  /** Remembered addresses are dropped when they have at least 99 percent of the burst. */
  predicate Idle(burst: nat, b: Bucket) { b.tokens >= burst as real * 0.99 }

  function Of(bs: Buckets, ip: Ip): Option<Bucket> { if ip in bs then Some(bs[ip]) else None }

  function Evicted(bs: Buckets, burst: nat): Buckets { map ip | ip in bs && !Idle(burst, bs[ip]) :: bs[ip] }

  lemma NoTime(rate: real)
    ensures 0.0 * rate == 0.0
  {
  }

  /** A bucket of this moment is not refilled beyond the burst it starts with. */
  lemma StartsFull(rate: real, burst: nat, now: real)
    ensures Refilled(rate, burst, None, now) == Refilled(rate, burst, Some(Bucket(burst as real, now)), now)
  {
    NoTime(rate);
    assert Elapsed(now, now) * rate == 0.0;
  }

  class LimitReqZone {
    const rate: real
    var buckets: Buckets

    constructor (rate: real)
      ensures this.rate == rate && buckets == map[]
    {
      this.rate := rate;
      buckets := map[];
    }

    /** Tries to take one token. */
    method Allow(ip: Ip, burst: nat, now: real) returns (ok: bool)
      modifies this
      ensures ok == Called(rate, burst, Of(old(buckets), ip), now).1
      ensures buckets == old(buckets)[ip := Called(rate, burst, Of(old(buckets), ip), now).0]
    {
      ghost var was := buckets;
      StartsFull(rate, burst, now);
      if ip !in buckets { buckets := buckets[ip := Bucket(burst as real, now)]; }
      var b := buckets[ip];
      var elapsed := Elapsed(now, b.lastCheck);
      var tokens := MinReal(b.tokens + elapsed * rate, burst as real);
      assert tokens == Refilled(rate, burst, Of(was, ip), now) by { hide MinReal, Elapsed; }
      hide Refilled, MinReal, Elapsed;
      b := Bucket(tokens, now);
      ok := b.tokens >= 1.0;
      if ok { b := b.(tokens := b.tokens - 1.0); }
      assert (b, ok) == Called(rate, burst, Of(was, ip), now);
      buckets := buckets[ip := b];
    }

    method EvictIdle(burst: nat)
      modifies this
      ensures buckets == Evicted(old(buckets), burst)
    {
      buckets := map ip | ip in buckets && buckets[ip].tokens < burst as real * 0.99 :: buckets[ip];
    }
  }

  // ---- Runs ----

  datatype Event = Call(ip: Ip) | Evict

  datatype Timed = Timed(at: real, event: Event)

  function Next(rate: real, burst: nat, bs: Buckets, e: Timed): Buckets {
    match e.event
    case Call(ip) => bs[ip := Called(rate, burst, Of(bs, ip), e.at).0]
    case Evict => Evicted(bs, burst)
  }

  predicate Admits(rate: real, burst: nat, bs: Buckets, e: Timed, ip: Ip) {
    e.event == Call(ip) && Called(rate, burst, Of(bs, ip), e.at).1
  }

  /** The requests of an address that a run lets through. */
  function Admitted(rate: real, burst: nat, bs: Buckets, es: seq<Timed>, ip: Ip): nat
    decreases |es|
  {
    if es == [] then 0
    else
      (if Admits(rate, burst, bs, es[0], ip) then 1 else 0)
      + Admitted(rate, burst, Next(rate, burst, bs, es[0]), es[1..], ip)
  }

  predicate Forgets(burst: nat, bs: Buckets, e: Timed, ip: Ip) { e.event.Evict? && ip in bs && Idle(burst, bs[ip]) }

  /** How often a run forgets an address. */
  function Evictions(rate: real, burst: nat, bs: Buckets, es: seq<Timed>, ip: Ip): nat
    decreases |es|
  {
    if es == [] then 0
    else
      (if Forgets(burst, bs, es[0], ip) then 1 else 0)
      + Evictions(rate, burst, Next(rate, burst, bs, es[0]), es[1..], ip)
  }

  function After(rate: real, burst: nat, bs: Buckets, es: seq<Timed>): Buckets
    decreases |es|
  {
    if es == [] then bs else After(rate, burst, Next(rate, burst, bs, es[0]), es[1..])
  }

  predicate InOrder(es: seq<Timed>, from: real, to: real)
    decreases |es|
  {
    if es == [] then from <= to else from <= es[0].at && InOrder(es[1..], es[0].at, to)
  }

  /** What runs keep: tokens between zero and the burst, and no check in the future. */
  predicate Sound(burst: nat, bs: Buckets, now: real) {
    forall ip | ip in bs :: 0.0 <= bs[ip].tokens <= burst as real && bs[ip].lastCheck <= now
  }

  lemma Product(rate: real, d: real)
    requires rate >= 0.0 && d >= 0.0
    ensures d * rate >= 0.0
  {
  }

  lemma RefillSound(rate: real, burst: nat, b: Option<Bucket>, now: real)
    requires rate >= 0.0 && (b.Some? ==> 0.0 <= b.value.tokens)
    ensures 0.0 <= Refilled(rate, burst, b, now) <= burst as real
  {
    if b.Some? { Product(rate, Elapsed(now, b.value.lastCheck)); }
  }

  lemma SoundStep(rate: real, burst: nat, bs: Buckets, e: Timed, now: real)
    requires rate >= 0.0 && Sound(burst, bs, now) && now <= e.at
    ensures Sound(burst, Next(rate, burst, bs, e), e.at)
  {
    if e.event.Call? { RefillSound(rate, burst, Of(bs, e.event.ip), e.at); }
    hide Refilled;
  }

  lemma {:induction false} SoundRun(rate: real, burst: nat, bs: Buckets, es: seq<Timed>, from: real, to: real)
    requires rate >= 0.0 && Sound(burst, bs, from) && InOrder(es, from, to)
    ensures Sound(burst, After(rate, burst, bs, es), to)
    decreases |es|
  {
    hide Next;
    if es != [] {
      SoundStep(rate, burst, bs, es[0], from);
      SoundRun(rate, burst, Next(rate, burst, bs, es[0]), es[1..], es[0].at, to);
    }
  }

  // ---- The bound ----

  /** The tokens that a time brings, and those that being forgotten n times brings at most. */
  function Granted(rate: real, d: real): real { rate * d }

  function Regained(n: nat, burst: nat): real { n as real * (burst as real / 100.0) }

  lemma Grants(rate: real, d: real, e: real)
    ensures rate >= 0.0 && d >= 0.0 ==> Granted(rate, d) >= 0.0
    ensures Granted(rate, d + e) == Granted(rate, d) + Granted(rate, e)
  {
    if rate >= 0.0 && d >= 0.0 { Product(rate, d); }
  }

  lemma Regains(n: nat, burst: nat)
    ensures Regained(0, burst) == 0.0 && Regained(n + 1, burst) == Regained(n, burst) + burst as real / 100.0
  {
    var share := burst as real / 100.0;
    assert (n as real + 1.0) * share == n as real * share + share;
  }

  lemma RefillGrows(rate: real, burst: nat, b: Option<Bucket>, now: real, later: real)
    requires rate >= 0.0 && now <= later && (b.Some? ==> b.value.lastCheck <= now)
    ensures Refilled(rate, burst, b, later) <= Refilled(rate, burst, b, now) + Granted(rate, later - now)
  {
    Grants(rate, later - now, 0.0);
    if b.Some? {
      Grants(rate, now - b.value.lastCheck, later - now);
      assert (later - b.value.lastCheck) * rate == Granted(rate, later - b.value.lastCheck);
      assert (now - b.value.lastCheck) * rate == Granted(rate, now - b.value.lastCheck);
      hide Granted;
    }
  }

  /** One step spends at most a token of the address, and forgetting it gives at most a hundredth of
      the burst. */
  lemma StepSpends(rate: real, burst: nat, bs: Buckets, e: Timed, ip: Ip, now: real)
    requires rate >= 0.0 && Sound(burst, bs, now) && now <= e.at
    ensures (if Admits(rate, burst, bs, e, ip) then 1.0 else 0.0)
      + Refilled(rate, burst, Of(Next(rate, burst, bs, e), ip), e.at)
         <= Refilled(rate, burst, Of(bs, ip), e.at) + (if Forgets(burst, bs, e, ip) then burst as real / 100.0 else 0.0)
  {
    if ip in bs { Product(rate, e.at - bs[ip].lastCheck); }
    RefillSound(rate, burst, Of(bs, ip), e.at);
    match e.event {
      case Call(caller) => if caller == ip { CallSpends(rate, burst, Of(bs, ip), e.at); }
      case Evict =>
    }
    hide Called;
  }

  lemma CallSpends(rate: real, burst: nat, b: Option<Bucket>, now: real)
    requires Refilled(rate, burst, b, now) <= burst as real
    ensures var (after, ok) := Called(rate, burst, b, now);
      (if ok then 1.0 else 0.0) + Refilled(rate, burst, Some(after), now) <= Refilled(rate, burst, b, now)
  {
    NoTime(rate);
    assert Elapsed(now, now) * rate == 0.0;
  }

  lemma {:induction false} RunSpends(rate: real, burst: nat, bs: Buckets, es: seq<Timed>, ip: Ip, from: real, to: real)
    requires rate >= 0.0 && Sound(burst, bs, from) && InOrder(es, from, to)
    ensures Admitted(rate, burst, bs, es, ip) as real
         <= Refilled(rate, burst, Of(bs, ip), from) + Granted(rate, to - from)
            + Regained(Evictions(rate, burst, bs, es, ip), burst)
    decreases |es|
  {
    hide Granted, Regained, Refilled, Next, Admits, Forgets;
    Regains(0, burst);
    if es == [] {
      Grants(rate, to - from, 0.0);
      RefillSound(rate, burst, Of(bs, ip), from);
    } else {
      var e := es[0];
      var next := Next(rate, burst, bs, e);
      SoundStep(rate, burst, bs, e, from);
      RunSpends(rate, burst, next, es[1..], ip, e.at, to);
      StepSpends(rate, burst, bs, e, ip, from);
      RefillGrows(rate, burst, Of(bs, ip), from, e.at);
      Grants(rate, e.at - from, to - e.at);
      Regains(Evictions(rate, burst, next, es[1..], ip), burst);
      hide Sound, InOrder;
      assert to - from == (e.at - from) + (to - e.at);
    }
  }

  /** In any stretch of any run, from a call of the address to a time T later, at most
      burst * (1 + E/100) + rate * T of its requests are let through, where E counts how often the
      address is forgotten in the stretch. */
  lemma WindowBound(rate: real, burst: nat, before: seq<Timed>, es: seq<Timed>, ip: Ip, start: real, from: real,
                    to: real)
    requires rate >= 0.0 && InOrder(before, start, from) && InOrder(es, from, to)
    ensures var bs := After(rate, burst, map[], before);
      Admitted(rate, burst, bs, es, ip) as real <= Bound(rate, burst, Evictions(rate, burst, bs, es, ip), to - from)
  {
    SoundRun(rate, burst, map[], before, start, from);
    var bs := After(rate, burst, map[], before);
    hide After, InOrder, Refilled, Admitted, Evictions, Granted, Regained, Bound;
    RunSpends(rate, burst, bs, es, ip, from, to);
    RefillSound(rate, burst, Of(bs, ip), from);
    BoundIs(rate, burst, Evictions(rate, burst, bs, es, ip), to - from);
  }

  function Bound(rate: real, burst: nat, evictions: nat, time: real): real {
    burst as real * (1.0 + evictions as real / 100.0) + rate * time
  }

  lemma BoundIs(rate: real, burst: nat, evictions: nat, time: real)
    ensures Bound(rate, burst, evictions, time) == burst as real + Granted(rate, time) + Regained(evictions, burst)
  {
    Share(burst as real, evictions as real);
  }

  lemma Share(b: real, e: real)
    ensures b * (1.0 + e / 100.0) == b + e * (b / 100.0)
  {
  }

  // ---- Who waits is admitted ----

  /** The time of the address's latest call in a run. */
  function LastCall(es: seq<Timed>, ip: Ip): Option<real> {
    if es == [] then None
    else if es[|es| - 1].event == Call(ip) then Some(es[|es| - 1].at)
    else LastCall(es[..|es| - 1], ip)
  }

  lemma {:induction false} AfterSnoc(rate: real, burst: nat, bs: Buckets, es: seq<Timed>, e: Timed)
    ensures After(rate, burst, bs, es + [e]) == Next(rate, burst, After(rate, burst, bs, es), e)
    decreases |es|
  {
    hide Next;
    if es == [] {
      assert es + [e] == [e] && [e][1..] == [];
    } else {
      AfterSnoc(rate, burst, Next(rate, burst, bs, es[0]), es[1..], e);
      assert (es + [e])[1..] == es[1..] + [e];
    }
  }

  /** A remembered address was last checked at its latest call. */
  lemma {:induction false} CheckedAtLastCall(rate: real, burst: nat, es: seq<Timed>, ip: Ip)
    ensures var bs := After(rate, burst, map[], es); ip in bs ==> LastCall(es, ip) == Some(bs[ip].lastCheck)
    decreases |es|
  {
    if es != [] {
      var n := |es| - 1;
      CheckedAtLastCall(rate, burst, es[..n], ip);
      AfterSnoc(rate, burst, map[], es[..n], es[n]);
      assert es[..n] + [es[n]] == es;
    }
  }

  lemma EnoughTokens(rate: real, tokens: real, wait: real)
    requires rate > 0.0 && tokens >= 0.0 && wait >= 1.0 / rate
    ensures tokens + wait * rate >= 1.0
  {
    assert (1.0 / rate) * rate == 1.0;
    assert (wait - 1.0 / rate) * rate >= 0.0;
    assert wait * rate == (wait - 1.0 / rate) * rate + (1.0 / rate) * rate;
  }

  /** With a burst of at least one, an address that waits 1/rate after its latest call is let through,
      after any run. */
  lemma PatientCallersAreAdmitted(rate: real, burst: nat, es: seq<Timed>, ip: Ip, start: real, now: real)
    requires rate > 0.0 && burst >= 1 && InOrder(es, start, now)
    requires LastCall(es, ip).Some? ==> now - LastCall(es, ip).value >= 1.0 / rate
    ensures Admits(rate, burst, After(rate, burst, map[], es), Timed(now, Call(ip)), ip)
  {
    var bs := After(rate, burst, map[], es);
    SoundRun(rate, burst, map[], es, start, now);
    CheckedAtLastCall(rate, burst, es, ip);
    hide After, LastCall, Sound;
    if ip in bs { WaitedEnough(rate, burst, bs, ip, now); }
  }

  lemma WaitedEnough(rate: real, burst: nat, bs: Buckets, ip: Ip, now: real)
    requires rate > 0.0 && burst >= 1 && Sound(burst, bs, now) && ip in bs && now - bs[ip].lastCheck >= 1.0 / rate
    ensures Admits(rate, burst, bs, Timed(now, Call(ip)), ip)
  {
    var wait := now - bs[ip].lastCheck;
    EnoughTokens(rate, bs[ip].tokens, wait);
    assert Elapsed(now, bs[ip].lastCheck) == wait;
    hide Sound;
    assert Refilled(rate, burst, Some(bs[ip]), now) >= 1.0;
  }

  // ---- What a bucket holds, exactly ----

  lemma {:induction false} InOrderSplits(es: seq<Timed>, e: Timed, from: real, to: real)
    requires InOrder(es + [e], from, to)
    ensures InOrder(es, from, e.at) && e.at <= to
    decreases |es|
  {
    if es == [] {
      assert es + [e] == [e] && [e][1..] == [];
    } else {
      assert (es + [e])[1..] == es[1..] + [e];
      InOrderSplits(es[1..], e, es[0].at, to);
    }
  }

  lemma {:induction false} AdmittedSnoc(rate: real, burst: nat, bs: Buckets, es: seq<Timed>, e: Timed, ip: Ip)
    ensures Admitted(rate, burst, bs, es + [e], ip)
      == Admitted(rate, burst, bs, es, ip) + (if Admits(rate, burst, After(rate, burst, bs, es), e, ip) then 1 else 0)
    decreases |es|
  {
    hide Next, Admits;
    if es == [] {
      assert es + [e] == [e] && [e][1..] == [];
    } else {
      AdmittedSnoc(rate, burst, Next(rate, burst, bs, es[0]), es[1..], e, ip);
      assert (es + [e])[1..] == es[1..] + [e];
    }
  }

  /** Event k is a call of the address that finds its bucket full. */
  predicate FullAt(rate: real, burst: nat, es: seq<Timed>, ip: Ip, k: nat) {
    && k < |es| && es[k].event == Call(ip)
    && Refilled(rate, burst, Of(After(rate, burst, map[], es[..k]), ip), es[k].at) == burst as real
  }

  /** The latest call of the address so far that found its bucket full. */
  predicate LatestFull(rate: real, burst: nat, es: seq<Timed>, ip: Ip, k: nat) {
    FullAt(rate, burst, es, ip, k) && forall j | k < j < |es| :: !FullAt(rate, burst, es, ip, j)
  }

  /** The requests of the address that are let through from event k on. */
  function AdmittedSince(rate: real, burst: nat, es: seq<Timed>, ip: Ip, k: nat): nat
    requires k <= |es|
  {
    Admitted(rate, burst, After(rate, burst, map[], es[..k]), es[k..], ip)
  }

  /** The tokens left of a full bucket, some time and some admitted requests later. */
  function Left(rate: real, burst: nat, time: real, admitted: nat): real {
    burst as real + Granted(rate, time) - admitted as real
  }

  lemma SinceSnoc(rate: real, burst: nat, es: seq<Timed>, e: Timed, ip: Ip, k: nat)
    requires k <= |es|
    ensures FullAt(rate, burst, es + [e], ip, k) <==> if k == |es| then
        e.event == Call(ip) && Refilled(rate, burst, Of(After(rate, burst, map[], es), ip), e.at) == burst as real
      else FullAt(rate, burst, es, ip, k)
    ensures AdmittedSince(rate, burst, es + [e], ip, k) == AdmittedSince(rate, burst, es, ip, k)
      + (if Admits(rate, burst, After(rate, burst, map[], es), e, ip) then 1 else 0)
  {
    assert (es + [e])[..k] == es[..k] && (es + [e])[k..] == es[k..] + [e];
    assert k == |es| ==> es[..k] == es;
    hide Refilled, Admits, After, Admitted;
    AdmittedSnoc(rate, burst, After(rate, burst, map[], es[..k]), es[k..], e, ip);
    AfterParts(rate, burst, map[], es, k);
  }

  lemma {:induction false} AfterParts(rate: real, burst: nat, bs: Buckets, es: seq<Timed>, k: nat)
    requires k <= |es|
    ensures After(rate, burst, After(rate, burst, bs, es[..k]), es[k..]) == After(rate, burst, bs, es)
    decreases k
  {
    hide Next;
    if k == 0 {
      assert es[..0] == [] && es[0..] == es;
    } else {
      assert es[..k][1..] == es[1..][..k - 1] && es[1..][k - 1..] == es[k..];
      AfterParts(rate, burst, Next(rate, burst, bs, es[0]), es[1..], k - 1);
    }
  }

  /** A call that does not find the bucket full. */
  lemma CallContinues(rate: real, burst: nat, b: Bucket, now: real, from: real, admitted: nat)
    requires Refilled(rate, burst, Some(b), now) != burst as real && b.lastCheck <= now
    requires b.tokens == Left(rate, burst, b.lastCheck - from, admitted)
    ensures var (after, ok) := Called(rate, burst, Some(b), now);
      after.tokens == Left(rate, burst, now - from, admitted + (if ok then 1 else 0)) && after.lastCheck == now
  {
    Grants(rate, b.lastCheck - from, now - b.lastCheck);
    assert (b.lastCheck - from) + (now - b.lastCheck) == now - from;
    assert (now - b.lastCheck) * rate == Granted(rate, now - b.lastCheck);
    hide Granted;
  }

  lemma CallStarts(rate: real, burst: nat, b: Option<Bucket>, now: real)
    requires Refilled(rate, burst, b, now) == burst as real
    ensures var (after, ok) := Called(rate, burst, b, now);
      after.tokens == Left(rate, burst, now - now, if ok then 1 else 0) && after.lastCheck == now
  {
    hide Refilled;
    Grants(rate, 0.0, 0.0);
    assert now - now == 0.0;
    hide Granted;
  }

  /** In every run, a remembered bucket holds exactly what was in it at the latest call that found it
      full, what the time since then brought, and one token less for every request let through since. */
  lemma {:induction false} TokensAreExact(rate: real, burst: nat, es: seq<Timed>, ip: Ip, start: real, now: real)
      returns (k: nat)
    requires rate >= 0.0 && InOrder(es, start, now) && ip in After(rate, burst, map[], es)
    ensures LatestFull(rate, burst, es, ip, k)
    ensures var b := After(rate, burst, map[], es)[ip];
      b.lastCheck <= now
      && b.tokens == Left(rate, burst, b.lastCheck - es[k].at, AdmittedSince(rate, burst, es, ip, k))
    decreases |es|
  {
    SoundRun(rate, burst, map[], es, start, now);
    assert es != [];
    var n := |es| - 1;
    var es0, e := es[..n], es[n];
    assert es == es0 + [e];
    InOrderSplits(es0, e, start, now);
    AfterSnoc(rate, burst, map[], es0, e);
    hide After, InOrder, Left, Refilled, Called, Idle, FullAt, AdmittedSince;
    var bs := After(rate, burst, map[], es0);
    if e.event == Call(ip) && Refilled(rate, burst, Of(bs, ip), e.at) == burst as real {
      k := n;
      SinceSnoc(rate, burst, es0, e, ip, k);
      NoneSince(rate, burst, es0, ip);
      CallStarts(rate, burst, Of(bs, ip), e.at);
    } else {
      if e.event == Call(ip) { NewIsFull(rate, burst, e.at); }
      k := TokensAreExact(rate, burst, es0, ip, start, e.at);
      FullIsCall(rate, burst, es0, ip, k);
      SinceSnoc(rate, burst, es0, e, ip, k);
      forall j | k < j < |es| ensures !FullAt(rate, burst, es, ip, j) { SinceSnoc(rate, burst, es0, e, ip, j); }
      if e.event == Call(ip) {
        CallContinues(rate, burst, bs[ip], e.at, es[k].at, AdmittedSince(rate, burst, es0, ip, k));
      }
    }
  }

  lemma NewIsFull(rate: real, burst: nat, now: real)
    ensures Refilled(rate, burst, None, now) == burst as real
  {
  }

  lemma FullIsCall(rate: real, burst: nat, es: seq<Timed>, ip: Ip, k: nat)
    requires FullAt(rate, burst, es, ip, k)
    ensures k < |es| && es[k].event == Call(ip)
  {
  }

  lemma NoneSince(rate: real, burst: nat, es: seq<Timed>, ip: Ip)
    ensures AdmittedSince(rate, burst, es, ip, |es|) == 0
  {
    assert es[|es|..] == [];
  }

  /** The requests since a full bucket do not allow another one: together with it they would be more
      than the burst and what the time since then brought. */
  predicate UsedUp(rate: real, burst: nat, es: seq<Timed>, ip: Ip, k: nat, now: real)
    requires k < |es|
  {
    AdmittedSince(rate, burst, es, ip, k) as real > burst as real + rate * (now - es[k].at) - 1.0
  }

  /** Nobody is refused without a reason: with a burst of at least one, a call is refused, after any
      run, exactly when its address is remembered and more than burst + rate * T - 1 of its requests
      were let through since the latest call, a time T earlier, that found its bucket full. */
  lemma RefusedWhenUsedUp(rate: real, burst: nat, es: seq<Timed>, ip: Ip, start: real, now: real)
    requires rate >= 0.0 && burst >= 1 && InOrder(es, start, now)
    ensures !Admits(rate, burst, After(rate, burst, map[], es), Timed(now, Call(ip)), ip)
       <==> ip in After(rate, burst, map[], es)
            && exists k :: LatestFull(rate, burst, es, ip, k) && UsedUp(rate, burst, es, ip, k, now)
  {
    hide After, InOrder, UsedUp;
    if ip !in After(rate, burst, map[], es) {
      NewIsFull(rate, burst, now);
    } else {
      var k := TokensAreExact(rate, burst, es, ip, start, now);
      UsedUpOrNot(rate, burst, After(rate, burst, map[], es)[ip], es, ip, k, now);
      forall j | LatestFull(rate, burst, es, ip, j) ensures j == k { OneLatest(rate, burst, es, ip, j, k); }
    }
  }

  lemma OneLatest(rate: real, burst: nat, es: seq<Timed>, ip: Ip, j: nat, k: nat)
    requires LatestFull(rate, burst, es, ip, j) && LatestFull(rate, burst, es, ip, k)
    ensures j == k
  {
    FullIsCall(rate, burst, es, ip, j);
    FullIsCall(rate, burst, es, ip, k);
    hide FullAt;
  }

  /** What is left in a bucket, at a later moment. */
  lemma LeftLater(rate: real, burst: nat, tokens: real, since: real, now: real, from: real, admitted: nat)
    requires tokens == Left(rate, burst, since - from, admitted)
    ensures tokens + (now - since) * rate == Left(rate, burst, now - from, admitted)
  {
    Grants(rate, since - from, now - since);
    assert (since - from) + (now - since) == now - from;
    assert (now - since) * rate == Granted(rate, now - since);
    hide Granted;
  }

  lemma UsedUpOrNot(rate: real, burst: nat, b: Bucket, es: seq<Timed>, ip: Ip, k: nat, now: real)
    requires burst >= 1 && k < |es| && b.lastCheck <= now
    requires b.tokens == Left(rate, burst, b.lastCheck - es[k].at, AdmittedSince(rate, burst, es, ip, k))
    ensures Called(rate, burst, Some(b), now).1 <==> !UsedUp(rate, burst, es, ip, k, now)
  {
    hide AdmittedSince;
    var admitted := AdmittedSince(rate, burst, es, ip, k);
    LeftLater(rate, burst, b.tokens, b.lastCheck, now, es[k].at, admitted);
    assert Left(rate, burst, now - es[k].at, admitted)
        == burst as real + rate * (now - es[k].at) - admitted as real;
    hide Left;
  }

  function Calls(es: seq<Timed>, ip: Ip): nat {
    if es == [] then 0 else (if es[0].event == Call(ip) then 1 else 0) + Calls(es[1..], ip)
  }

  /** The bucket of an address never shrinks but by its own admitted calls. */
  lemma StepKeeps(rate: real, burst: nat, bs: Buckets, e: Timed, ip: Ip, now: real, n: nat)
    requires rate >= 0.0 && Sound(burst, bs, now) && now <= e.at
    requires Refilled(rate, burst, Of(bs, ip), now) >= n as real && (e.event == Call(ip) ==> n > 0)
    ensures e.event == Call(ip) ==> Admits(rate, burst, bs, e, ip)
    ensures Refilled(rate, burst, Of(Next(rate, burst, bs, e), ip), e.at)
         >= (if e.event == Call(ip) then n as real - 1.0 else n as real)
  {
    RefillKeeps(rate, burst, Of(bs, ip), now, e.at);
    RefillSound(rate, burst, Of(bs, ip), e.at);
    match e.event {
      case Call(caller) =>
        if caller == ip {
          var t := Refilled(rate, burst, Of(bs, ip), e.at);
          NoTime(rate);
          assert Elapsed(e.at, e.at) * rate == 0.0;
          assert Refilled(rate, burst, Some(Bucket(t - 1.0, e.at)), e.at) == t - 1.0;
        }
      case Evict =>
    }
  }

  lemma RefillKeeps(rate: real, burst: nat, b: Option<Bucket>, now: real, later: real)
    requires rate >= 0.0 && now <= later && (b.Some? ==> b.value.lastCheck <= now)
    ensures Refilled(rate, burst, b, later) >= Refilled(rate, burst, b, now)
  {
    if b.Some? {
      Product(rate, later - now);
      assert (later - b.value.lastCheck) * rate == (now - b.value.lastCheck) * rate + (later - now) * rate;
    }
  }

  /** Whoever has n tokens has n calls let through, however close together they come. */
  lemma {:induction false} TokensAreSpendable(rate: real, burst: nat, bs: Buckets, es: seq<Timed>, ip: Ip, n: nat,
                                             from: real, to: real)
    requires rate >= 0.0 && Sound(burst, bs, from) && InOrder(es, from, to)
    requires Refilled(rate, burst, Of(bs, ip), from) >= n as real && Calls(es, ip) <= n
    ensures Admitted(rate, burst, bs, es, ip) == Calls(es, ip)
    decreases |es|
  {
    hide Refilled, Next, Sound;
    if es != [] {
      SoundStep(rate, burst, bs, es[0], from);
      StepKeeps(rate, burst, bs, es[0], ip, from, n);
      TokensAreSpendable(rate, burst, Next(rate, burst, bs, es[0]), es[1..], ip,
        if es[0].event == Call(ip) then n - 1 else n, es[0].at, to);
    }
  }

  lemma SilenceFills(rate: real, burst: nat, b: Bucket, now: real)
    requires rate > 0.0 && b.tokens >= 0.0 && now - b.lastCheck >= burst as real / rate
    ensures Refilled(rate, burst, Some(b), now) == burst as real
  {
    var wait := now - b.lastCheck;
    assert (burst as real / rate) * rate == burst as real;
    Product(rate, wait - burst as real / rate);
    assert wait * rate == (wait - burst as real / rate) * rate + (burst as real / rate) * rate;
    assert Elapsed(now, b.lastCheck) == wait;
  }

  /** A new address, and one that was silent for burst/rate, has its next `burst` calls let through,
      however close together they come and whoever else calls. */
  lemma BurstIsGranted(rate: real, burst: nat, before: seq<Timed>, es: seq<Timed>, ip: Ip, start: real, from: real,
                       to: real)
    requires rate >= 0.0 && InOrder(before, start, from) && InOrder(es, from, to) && Calls(es, ip) <= burst
    requires var last := LastCall(before, ip);
      last.None? || (rate > 0.0 && from - last.value >= burst as real / rate)
    ensures Admitted(rate, burst, After(rate, burst, map[], before), es, ip) == Calls(es, ip)
  {
    var bs := After(rate, burst, map[], before);
    SoundRun(rate, burst, map[], before, start, from);
    CheckedAtLastCall(rate, burst, before, ip);
    hide After, LastCall, InOrder, Admitted, Calls;
    if ip in bs { SilenceFills(rate, burst, bs[ip], from); } else { NewIsFull(rate, burst, from); }
    hide Refilled, Sound;
    TokensAreSpendable(rate, burst, bs, es, ip, burst, from, to);
  }

  /** A zone used with a burst of zero lets nothing through, however long callers wait; with any larger
      burst the first call of a new zone is let through. */
  lemma {:induction false} ZeroBurstAdmitsNothing(rate: real, burst: nat, bs: Buckets, es: seq<Timed>, ip: Ip)
    ensures burst == 0 ==> Admitted(rate, burst, bs, es, ip) == 0
    ensures burst > 0 ==> forall now :: Admits(rate, burst, map[], Timed(now, Call(ip)), ip)
    decreases |es|
  {
    if es != [] { ZeroBurstAdmitsNothing(rate, burst, Next(rate, burst, bs, es[0]), es[1..], ip); }
  }

  // ---- Addresses do not share ----

  function OnlyOf(es: seq<Timed>, ip: Ip): seq<Timed> {
    if es == [] then []
    else (if es[0].event == Call(ip) || es[0].event.Evict? then [es[0]] else []) + OnlyOf(es[1..], ip)
  }

  /** What an address is granted does not depend on the calls of any other. */
  lemma {:induction false} AddressesAreIndependent(rate: real, burst: nat, bs: Buckets, alone: Buckets,
                                                   es: seq<Timed>, ip: Ip)
    requires Of(bs, ip) == Of(alone, ip)
    ensures Admitted(rate, burst, bs, es, ip) == Admitted(rate, burst, alone, OnlyOf(es, ip), ip)
    decreases |es|
  {
    hide Called;
    if es != [] {
      var e, rest := es[0], OnlyOf(es[1..], ip);
      if e.event == Call(ip) || e.event.Evict? {
        AddressesAreIndependent(rate, burst, Next(rate, burst, bs, e), Next(rate, burst, alone, e), es[1..], ip);
        assert ([e] + rest)[1..] == rest;
      } else {
        AddressesAreIndependent(rate, burst, Next(rate, burst, bs, e), alone, es[1..], ip);
        assert [] + rest == rest;
      }
    }
  }

  // ---- What evictions forget ----

  /** The bucket of a call is never idle, or always empty. */
  predicate NotIdle(rate: real, burst: nat, b: Bucket) { if burst == 1 then b.tokens == 0.0 else !Idle(burst, b) }

  predicate Evictable(rate: real, burst: nat) { burst == 0 || burst >= 100 || (burst == 1 && rate > 0.0) }

  lemma CallIsNotIdle(rate: real, burst: nat, b: Option<Bucket>, now: real)
    requires rate >= 0.0 && !Evictable(rate, burst) && (b.Some? ==> NotIdle(rate, burst, b.value))
    ensures NotIdle(rate, burst, Called(rate, burst, b, now).0)
  {
    if burst == 1 && b.Some? { NoRate(Elapsed(now, b.value.lastCheck), rate); }
  }

  lemma NoRate(time: real, rate: real)
    requires rate == 0.0
    ensures time * rate == 0.0
  {
  }

  ghost predicate NoneIdle(rate: real, burst: nat, bs: Buckets) { forall ip | ip in bs :: NotIdle(rate, burst, bs[ip]) }

  lemma {:induction false} NeverIdle(rate: real, burst: nat, bs: Buckets, es: seq<Timed>)
    requires rate >= 0.0 && !Evictable(rate, burst) && NoneIdle(rate, burst, bs)
    ensures NoneIdle(rate, burst, After(rate, burst, bs, es))
    decreases |es|
  {
    hide Called, NotIdle, Evictable, Idle;
    if es != [] {
      match es[0].event {
        case Call(ip) => CallIsNotIdle(rate, burst, Of(bs, ip), es[0].at);
        case Evict =>
      }
      NeverIdle(rate, burst, Next(rate, burst, bs, es[0]), es[1..]);
    }
  }

  /** Some run of a new zone ends in an eviction that forgets the address. */
  ghost predicate CanForget(rate: real, burst: nat, ip: Ip) {
    exists es: seq<Timed>, now: real ::
      InOrder(es, 0.0, now) && Forgets(burst, After(rate, burst, map[], es), Timed(now, Evict), ip)
  }

  lemma OneCall(rate: real, burst: nat, ip: Ip)
    ensures InOrder([Timed(0.0, Call(ip))], 0.0, 0.0)
    ensures After(rate, burst, map[], [Timed(0.0, Call(ip))]) == map[ip := Called(rate, burst, None, 0.0).0]
  {
    var es := [Timed(0.0, Call(ip))];
    assert es[1..] == [];
  }

  lemma TwoCalls(rate: real, burst: nat, ip: Ip, later: real)
    requires later >= 0.0
    ensures var es := [Timed(0.0, Call(ip)), Timed(later, Call(ip))];
      && InOrder(es, 0.0, later)
      && After(rate, burst, map[], es)
         == map[ip := Called(rate, burst, Some(Called(rate, burst, None, 0.0).0), later).0]
  {
    var es := [Timed(0.0, Call(ip)), Timed(later, Call(ip))];
    assert es[1..] == [Timed(later, Call(ip))] && es[1..][1..] == [];
    assert InOrder(es[1..][1..], later, later);
    hide Called;
    var b := Called(rate, burst, None, 0.0).0;
    var c := Called(rate, burst, Some(b), later).0;
    assert Next(rate, burst, map[], es[0]) == map[ip := b] && Of(map[ip := b], ip) == Some(b);
    assert Next(rate, burst, map[ip := b], es[1]) == map[ip := c];
    assert After(rate, burst, map[ip := b], es[1..]) == After(rate, burst, map[ip := c], es[1..][1..]);
  }

  /** Evictions look at the tokens as they were at the last call: an address can be forgotten at all, in
      some run, exactly with a burst of zero, with one of at least a hundred, or with a burst of one that
      refills. With any other the buckets stay for good. */
  lemma WhatEvictionsForget(rate: real, burst: nat, ip: Ip)
    requires rate >= 0.0
    ensures CanForget(rate, burst, ip) <==> Evictable(rate, burst)
  {
    if !Evictable(rate, burst) {
      forall es: seq<Timed>, now: real
        ensures !Forgets(burst, After(rate, burst, map[], es), Timed(now, Evict), ip)
      {
        NeverIdle(rate, burst, map[], es);
      }
    } else if burst == 1 {
      var later := 0.995 / rate;
      assert later * rate == 0.995;
      LaterIsAfter(later, rate);
      TwoCalls(rate, burst, ip, later);
      hide InOrder, After;
      assert Forgets(burst, After(rate, burst, map[], [Timed(0.0, Call(ip)), Timed(later, Call(ip))]),
                     Timed(later, Evict), ip);
    } else {
      OneCall(rate, burst, ip);
      hide InOrder, After;
      assert Forgets(burst, After(rate, burst, map[], [Timed(0.0, Call(ip))]), Timed(0.0, Evict), ip);
    }
  }

  lemma LaterIsAfter(later: real, rate: real)
    requires rate > 0.0 && later * rate > 0.0
    ensures later >= 0.0
  {
    if later < 0.0 { Negative(later, rate); }
  }

  lemma Negative(a: real, b: real)
    requires a < 0.0 && b > 0.0
    ensures a * b < 0.0
  {
  }
}

/** Request statistics: the log2 latency histogram and the percentiles read from it. */
module Latency {
  import opened Common

  const BUCKETS: nat := 32

  function Pow2(k: nat): (r: nat)
    ensures r > 0
  {
    if k == 0 then 1 else 2 * Pow2(k - 1)
  }

  /** The position of the highest set bit, 63 less the leading zeros. */
  function HighBit(us: nat): (k: nat)
    requires us > 0
    ensures Pow2(k) <= us < 2 * Pow2(k)
  {
    if us == 1 then 0 else 1 + HighBit(us / 2)
  }

  /** Bucket 0 holds 0 and 1, bucket i from 2^i up to its double, and the last one everything above. */
  function Bucket(us: nat): (i: nat)
    ensures i < BUCKETS
  {
    if us == 0 then 0 else Min(HighBit(us), 31)
  }

  lemma {:induction false} Pow2Grows(a: nat, b: nat)
    requires a <= b
    ensures Pow2(a) <= Pow2(b)
    decreases b
  {
    if a < b { Pow2Grows(a, b - 1); }
  }

  lemma BucketGrows(x: nat, y: nat)
    requires x <= y
    ensures Bucket(x) <= Bucket(y)
  {
    if x > 0 && HighBit(x) > HighBit(y) { Pow2Grows(HighBit(y) + 1, HighBit(x)); }
  }

  // ---- Counting ----

  function Count(xs: seq<nat>, p: nat -> bool): (n: nat)
    ensures n <= |xs|
  {
    if xs == [] then 0 else Count(xs[..|xs| - 1], p) + (if p(xs[|xs| - 1]) then 1 else 0)
  }

  lemma CountSnoc(xs: seq<nat>, x: nat, p: nat -> bool)
    ensures Count(xs + [x], p) == Count(xs, p) + (if p(x) then 1 else 0)
  {
    assert (xs + [x])[..|xs|] == xs;
  }

  lemma {:induction false} CountGrows(xs: seq<nat>, p: nat -> bool, q: nat -> bool)
    requires forall x | x in xs && p(x) :: q(x)
    ensures Count(xs, p) <= Count(xs, q)
  {
    if xs != [] {
      assert forall x | x in xs[..|xs| - 1] :: x in xs;
      CountGrows(xs[..|xs| - 1], p, q);
    }
  }

  lemma {:induction false} CountAll(xs: seq<nat>, p: nat -> bool)
    requires forall x | x in xs :: p(x)
    ensures Count(xs, p) == |xs|
  {
    if xs != [] {
      assert forall x | x in xs[..|xs| - 1] :: x in xs;
      CountAll(xs[..|xs| - 1], p);
    }
  }

  lemma {:induction false} CountNone(xs: seq<nat>, p: nat -> bool)
    requires forall x | x in xs :: !p(x)
    ensures Count(xs, p) == 0
  {
    if xs != [] {
      assert forall x | x in xs[..|xs| - 1] :: x in xs;
      CountNone(xs[..|xs| - 1], p);
    }
  }

  function In(i: nat): nat -> bool { (x: nat) => Bucket(x) == i }

  function UpTo(i: nat): nat -> bool { (x: nat) => Bucket(x) < i }

  lemma {:induction false} CountSplits(xs: seq<nat>, i: nat)
    ensures Count(xs, UpTo(i + 1)) == Count(xs, UpTo(i)) + Count(xs, In(i))
  {
    if xs != [] { CountSplits(xs[..|xs| - 1], i); }
  }

  lemma CountAfter(xs: seq<nat>, us: nat, i: nat)
    ensures Count(xs + [us], In(i)) % U64
         == if i == Bucket(us) then (Count(xs, In(i)) % U64 + 1) % U64 else Count(xs, In(i)) % U64
  {
    CountSnoc(xs, us, In(i));
    assert In(i)(us) == (Bucket(us) == i);
    hide Count, In, Bucket;
  }

  // ---- The histogram ----

  function Bumped(n: nat, counts: bool): nat { if counts then (n + 1) % U64 else n }

  class Stats {
    var requestsTotal: nat
    var bytesSent: nat
    var bytesReceived: nat
    var status2xx: nat
    var status3xx: nat
    var status4xx: nat
    var status5xx: nat
    const latencyBuckets: array<nat>
    /** The latencies recorded so far, in microseconds. */
    ghost var seen: seq<nat>

    ghost predicate Valid()
      reads this, latencyBuckets
    {
      && latencyBuckets.Length == BUCKETS && requestsTotal == |seen| % U64
      && forall i | 0 <= i < BUCKETS :: latencyBuckets[i] == Count(seen, In(i)) % U64
    }

    constructor ()
      ensures Valid() && fresh(latencyBuckets) && seen == []
    {
      requestsTotal, bytesSent, bytesReceived, status2xx, status3xx, status4xx, status5xx := 0, 0, 0, 0, 0, 0, 0;
      latencyBuckets := new nat[BUCKETS](_ => 0);
      seen := [];
    }

    method RecordRequest(status: nat, bytesOut: nat, bytesIn: nat, micros: nat)
      requires Valid()
      modifies this, latencyBuckets
      ensures Valid() && seen == old(seen) + [micros % U64]
      ensures bytesSent == (old(bytesSent) + bytesOut) % U64 && bytesReceived == (old(bytesReceived) + bytesIn) % U64
      ensures status2xx == Bumped(old(status2xx), status / 100 == 2)
      ensures status3xx == Bumped(old(status3xx), status / 100 == 3)
      ensures status4xx == Bumped(old(status4xx), status / 100 == 4)
      ensures status5xx == Bumped(old(status5xx), status / 100 == 5)
    {
      hide Bucket, Count, In;
      requestsTotal := (requestsTotal + 1) % U64;
      bytesSent := (bytesSent + bytesOut) % U64;
      bytesReceived := (bytesReceived + bytesIn) % U64;
      match status / 100 {
        case 2 => status2xx := (status2xx + 1) % U64;
        case 3 => status3xx := (status3xx + 1) % U64;
        case 4 => status4xx := (status4xx + 1) % U64;
        case 5 => status5xx := (status5xx + 1) % U64;
        case _ =>
      }
      Fill(Bucket(micros % U64), micros % U64);
    }

    method Fill(bucket: nat, us: nat)
      requires latencyBuckets.Length == BUCKETS && bucket == Bucket(us)
      requires forall i | 0 <= i < BUCKETS :: latencyBuckets[i] == Count(seen, In(i)) % U64
      modifies this`seen, latencyBuckets
      ensures forall i | 0 <= i < BUCKETS :: latencyBuckets[i] == Count(seen, In(i)) % U64
      ensures seen == old(seen) + [us]
    {
      hide Count, In;
      forall i: nat | i < BUCKETS
        ensures Count(seen + [us], In(i)) % U64
             == if i == bucket then (Count(seen, In(i)) % U64 + 1) % U64 else Count(seen, In(i)) % U64
      {
        CountAfter(seen, us, i);
      }
      latencyBuckets[bucket] := (latencyBuckets[bucket] + 1) % U64;
      seen := seen + [us];
    }

    /** p50, p90, p99 and p999 as the statistics page shows them. */
    method LatencyPercentiles() returns (p50: nat, p90: nat, p99: nat, p999: nat)
      requires Valid()
      ensures requestsTotal == 0 ==> p50 == p90 == p99 == p999 == 0
      ensures requestsTotal > 0 ==>
        && p50 == Percentile(latencyBuckets[..], requestsTotal, 50)
        && p90 == Percentile(latencyBuckets[..], requestsTotal, 90)
        && p99 == Percentile(latencyBuckets[..], requestsTotal, 99)
        && p999 == Percentile(latencyBuckets[..], requestsTotal, 999)
    {
      if requestsTotal == 0 { return 0, 0, 0, 0; }
      p50 := PercentileUs(latencyBuckets[..], requestsTotal, 50);
      p90 := PercentileUs(latencyBuckets[..], requestsTotal, 90);
      p99 := PercentileUs(latencyBuckets[..], requestsTotal, 99);
      p999 := PercentileUs(latencyBuckets[..], requestsTotal, 999);
    }
  }

  // ---- Percentiles ----

  function Total(bs: seq<nat>): nat { if bs == [] then 0 else Total(bs[..|bs| - 1]) + bs[|bs| - 1] }

  function Target(total: nat, q: nat): nat { total * q % U64 / 1000 }

  /** The first bucket at which the running sum reaches the target, from bucket i with `cumulative`
      counted before it; the number of buckets when none does. Sums wrap at 64 bits. */
  function Reaches(bs: seq<nat>, target: nat, i: nat, cumulative: nat): (r: nat)
    requires i <= |bs|
    ensures i <= r <= |bs|
    decreases |bs| - i
  {
    if i == |bs| then i
    else
      var next := (cumulative + bs[i]) % U64;
      if next >= target then i else Reaches(bs, target, i + 1, next)
  }

  function Midpoint(i: nat): nat { if i == 0 then 0 else Pow2(i - 1) }

  function Percentile(bs: seq<nat>, total: nat, q: nat): nat {
    var i := Reaches(bs, Target(total, q), 0, 0);
    if i < |bs| then Midpoint(i) else Pow2(31)
  }

  method PercentileUs(bs: seq<nat>, total: nat, q: nat) returns (v: nat)
    ensures v == Percentile(bs, total, q)
  {
    hide Pow2;
    var target := (total * q) % U64 / 1000;
    var cumulative: nat := 0;
    for i := 0 to |bs|
      invariant Reaches(bs, target, 0, 0) == Reaches(bs, target, i, cumulative)
    {
      cumulative := (cumulative + bs[i]) % U64;
      if cumulative >= target { return if i == 0 then 0 else Pow2(i - 1); }
    }
    v := Pow2(31);
  }

  /** The counts of a histogram of these latencies, before any counter has wrapped. */
  ghost predicate Histogram(bs: seq<nat>, seen: seq<nat>) {
    |bs| == BUCKETS && |seen| < U64 && forall i | 0 <= i < BUCKETS :: bs[i] == Count(seen, In(i))
  }

  lemma {:induction false} PrefixCounts(bs: seq<nat>, seen: seq<nat>, i: nat)
    requires Histogram(bs, seen) && i <= BUCKETS
    ensures Total(bs[..i]) == Count(seen, UpTo(i))
    decreases i
  {
    if i == 0 {
      CountNone(seen, UpTo(0));
    } else {
      PrefixCounts(bs, seen, i - 1);
      CountSplits(seen, i - 1);
      assert bs[..i][..i - 1] == bs[..i - 1];
    }
  }

  /** The buckets add up to the number of requests. */
  lemma BucketsSumToTotal(bs: seq<nat>, seen: seq<nat>)
    requires Histogram(bs, seen)
    ensures Total(bs) == |seen|
  {
    PrefixCounts(bs, seen, BUCKETS);
    CountAll(seen, UpTo(BUCKETS));
    assert bs[..BUCKETS] == bs;
  }

  lemma ReachesStep(bs: seq<nat>, target: nat, i: nat, cumulative: nat)
    requires i < |bs| && cumulative + bs[i] < U64
    ensures Reaches(bs, target, i, cumulative)
         == if cumulative + bs[i] >= target then i else Reaches(bs, target, i + 1, cumulative + bs[i])
  {
    assert (cumulative + bs[i]) % U64 == cumulative + bs[i];
  }

  /** The loop stops at the first bucket up to which the target is reached. */
  lemma {:induction false} ReachesFirst(bs: seq<nat>, seen: seq<nat>, target: nat, i: nat, found: nat)
    requires Histogram(bs, seen) && i <= found < BUCKETS
    requires Count(seen, UpTo(found)) < target <= Count(seen, UpTo(found + 1)) || (found == 0 && target == 0)
    ensures Reaches(bs, target, i, Count(seen, UpTo(i))) == found
    decreases found - i
  {
    CountSplits(seen, i);
    if found == 0 && target == 0 { CountNone(seen, UpTo(0)); }
    hide Count, In, UpTo;
    assert Count(seen, UpTo(i)) + bs[i] == Count(seen, UpTo(i + 1)) <= |seen| < U64;
    ReachesStep(bs, target, i, Count(seen, UpTo(i)));
    hide Reaches, Histogram;
    if i < found {
      CountGrows(seen, UpTo(i + 1), UpTo(found));
      ReachesFirst(bs, seen, target, i + 1, found);
    }
  }

  /** s is the k-th smallest: fewer than k values lie below it, and at least k up to it. */
  ghost predicate IsKth(seen: seq<nat>, k: nat, s: nat) {
    s in seen && Count(seen, x => x < s) < k <= Count(seen, x => x <= s)
  }

  lemma KthIsReached(bs: seq<nat>, seen: seq<nat>, k: nat, s: nat)
    requires Histogram(bs, seen) && IsKth(seen, k, s)
    ensures Reaches(bs, k, 0, 0) == Bucket(s)
  {
    var b := Bucket(s);
    forall x: nat | x <= s ensures Bucket(x) <= b { BucketGrows(x, s); }
    forall x: nat | s <= x ensures b <= Bucket(x) { BucketGrows(s, x); }
    CountGrows(seen, UpTo(b), x => x < s);
    CountGrows(seen, x => x <= s, UpTo(b + 1));
    CountNone(seen, UpTo(0));
    ReachesFirst(bs, seen, k, 0, b);
  }

  /** What a percentile value says about a latency: it is between half and a quarter of it, except at
      the two ends. */
  predicate Brackets(v: nat, s: nat) {
    if s <= 1 then v == 0 else if s < 0x8000_0000 then 2 * v <= s < 4 * v else v == 0x4000_0000
  }

  lemma Powers()
    ensures Pow2(16) == 0x1_0000 && Pow2(30) == 0x4000_0000 && Pow2(31) == 0x8000_0000
  {
    assert Pow2(8) == 256;
    assert Pow2(16) == 256 * Pow2(8);
    assert Pow2(24) == 256 * Pow2(16);
    assert Pow2(30) == 64 * Pow2(24);
  }

  lemma MidpointBrackets(s: nat)
    ensures Brackets(Midpoint(Bucket(s)), s)
  {
    Powers();
    if s >= 2 {
      var k := HighBit(s);
      if k >= 32 { Pow2Grows(32, k); assert Pow2(32) == 2 * Pow2(31); }
      if k < 31 { Pow2Grows(k + 1, 31); } else { Pow2Grows(31, k); }
    }
  }

  lemma {:induction false} MidpointGrows(i: nat, j: nat)
    requires i < j
    ensures Midpoint(i) < Midpoint(j)
    decreases j
  {
    if i + 1 < j { MidpointGrows(i, j - 1); }
  }

  /** Of the values the histogram can give, one brackets a latency: the midpoint of its bucket. */
  lemma OnlyItsBucketBrackets(i: nat, s: nat)
    requires i < BUCKETS && Brackets(Midpoint(i), s)
    ensures i == Bucket(s)
  {
    MidpointBrackets(s);
    var b := Bucket(s);
    if i != b {
      MidpointGrows(Min(i, b), if i < b then b else i);
      if s >= 2 && s < 0x8000_0000 {
        if i < b { DoublesAtLeast(i, b); } else { DoublesAtLeast(b, i); }
      }
    }
  }

  lemma DoublesAtLeast(i: nat, j: nat)
    requires i < j
    ensures 2 * Midpoint(i) <= Midpoint(j)
  {
    if i > 0 { Pow2Grows(i, j - 1); }
  }

  /** For every per-mille value q whose rank k is at least 1, the percentile brackets the exact k-th
      smallest latency. */
  lemma PercentileBracketsKth(bs: seq<nat>, seen: seq<nat>, q: nat, k: nat, s: nat)
    requires Histogram(bs, seen) && q <= 1000 && |seen| * 1000 < U64
    requires k == |seen| * q / 1000 && k >= 1 && IsKth(seen, k, s)
    ensures Brackets(Percentile(bs, |seen|, q), s)
  {
    NoWrap(|seen|, q);
    KthIsReached(bs, seen, k, s);
    MidpointBrackets(s);
  }

  lemma NoWrap(total: nat, q: nat)
    requires q <= 1000 && total * 1000 < U64
    ensures Target(total, q) == total * q / 1000 <= total
  {
    assert total * q <= total * 1000;
    NoWrapOf(total * q, total);
  }

  lemma NoWrapOf(product: nat, total: nat)
    requires product <= total * 1000 < U64
    ensures product % U64 == product && product / 1000 <= total
  {
  }

  /** There is a k-th smallest for every rank. */
  lemma {:induction false} KthExists(seen: seq<nat>, k: nat, bound: nat) returns (s: nat)
    requires 1 <= k <= Count(seen, x => x < bound)
    ensures IsKth(seen, k, s) && s < bound
    decreases bound
  {
    if bound == 0 {
      CountNone(seen, x => x < 0);
      assert false;
    } else if k <= Count(seen, x => x < bound - 1) {
      s := KthExists(seen, k, bound - 1);
    } else {
      s := bound - 1;
      CountGrows(seen, x => x < bound, x => x <= s);
      if s !in seen { CountGrows(seen, x => x <= s, x => x < s); }
    }
  }

  function Largest(seen: seq<nat>): (m: nat)
    ensures forall x | x in seen :: x <= m
  {
    if seen == [] then 0
    else
      var m := Largest(seen[..|seen| - 1]);
      assert forall x | x in seen :: x in seen[..|seen| - 1] || x == seen[|seen| - 1];
      if m < seen[|seen| - 1] then seen[|seen| - 1] else m
  }

  /** The value returned after the loop is never used: the loop always finds a bucket. */
  lemma LoopAlwaysReturns(bs: seq<nat>, seen: seq<nat>, q: nat)
    requires Histogram(bs, seen) && q <= 1000 && |seen| * 1000 < U64
    ensures Reaches(bs, Target(|seen|, q), 0, 0) < BUCKETS
  {
    NoWrap(|seen|, q);
    var k := |seen| * q / 1000;
    if k >= 1 {
      CountAll(seen, x => x < Largest(seen) + 1);
      var s := KthExists(seen, k, Largest(seen) + 1);
      KthIsReached(bs, seen, k, s);
    }
  }

  lemma {:induction false} ReachesLater(bs: seq<nat>, a: nat, b: nat, i: nat, cumulative: nat)
    requires a <= b && i <= |bs|
    ensures Reaches(bs, a, i, cumulative) <= Reaches(bs, b, i, cumulative)
    decreases |bs| - i
  {
    if i < |bs| { ReachesLater(bs, a, b, i + 1, (cumulative + bs[i]) % U64); }
  }

  /** Higher percentiles are never lower. */
  lemma PercentilesGrow(bs: seq<nat>, seen: seq<nat>, p: nat, q: nat)
    requires Histogram(bs, seen) && p <= q <= 1000 && |seen| * 1000 < U64
    ensures Percentile(bs, |seen|, p) <= Percentile(bs, |seen|, q)
  {
    NoWrap(|seen|, p);
    NoWrap(|seen|, q);
    Monotone(|seen|, p, q);
    LoopAlwaysReturns(bs, seen, q);
    LoopAlwaysReturns(bs, seen, p);
    ReachesLater(bs, Target(|seen|, p), Target(|seen|, q), 0, 0);
    var i, j := Reaches(bs, Target(|seen|, p), 0, 0), Reaches(bs, Target(|seen|, q), 0, 0);
    if i < j { MidpointGrows(i, j); }
  }

  lemma Monotone(total: nat, p: nat, q: nat)
    requires p <= q
    ensures total * p / 1000 <= total * q / 1000
  {
    assert total * p <= total * q;
  }

  /** With a rank of zero the percentile is zero, whatever the latencies. */
  lemma RankZero(bs: seq<nat>, seen: seq<nat>, q: nat)
    requires Histogram(bs, seen) && q <= 1000 && |seen| * 1000 < U64 && |seen| * q < 1000
    ensures Percentile(bs, |seen|, q) == 0
  {
    NoWrap(|seen|, q);
  }

  /** Exactly which latencies a percentile value brackets: those in the bucket of the one it stands for, or
      in the first bucket when its rank is zero. */
  lemma BracketsExactly(bs: seq<nat>, seen: seq<nat>, q: nat, low: nat, s: nat)
    requires Histogram(bs, seen) && q <= 1000 && |seen| * 1000 < U64
    requires |seen| * q >= 1000 ==> IsKth(seen, |seen| * q / 1000, low)
    ensures Brackets(Percentile(bs, |seen|, q), s) <==> Bucket(s) == if |seen| * q < 1000 then 0 else Bucket(low)
  {
    var shown := if |seen| * q < 1000 then 0 else Bucket(low);
    NoWrap(|seen|, q);
    if |seen| * q < 1000 {
      RankZero(bs, seen, q);
    } else {
      KthIsReached(bs, seen, |seen| * q / 1000, low);
    }
    assert Percentile(bs, |seen|, q) == Midpoint(shown);
    if Bucket(s) == shown {
      MidpointBrackets(s);
    } else if Brackets(Midpoint(shown), s) {
      OnlyItsBucketBrackets(shown, s);
    }
  }

  /** The values shown as p50, p90 and p99 are asked for with 50, 90 and 99 per mille. Such a value brackets
      the percentile it is named after, by nearest rank, exactly when that lies in the bucket of the tenth
      of its rank; below 1000 / percent requests, when that is the first bucket. */
  lemma ShownPercentile(bs: seq<nat>, seen: seq<nat>, percent: nat, low: nat, wanted: nat)
    requires Histogram(bs, seen) && |seen| * 1000 < U64 && seen != [] && 1 <= percent <= 100
    requires |seen| * percent >= 1000 ==> IsKth(seen, |seen| * percent / 1000, low)
    requires IsKth(seen, (|seen| * percent + 99) / 100, wanted)
    ensures Brackets(Percentile(bs, |seen|, percent), wanted)
       <==> Bucket(wanted) == if |seen| * percent < 1000 then 0 else Bucket(low)
  {
    BracketsExactly(bs, seen, percent, low, wanted);
  }
}

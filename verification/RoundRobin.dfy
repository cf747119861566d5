/** Weighted round-robin by repeated peer slots, over the list of available peers. */
module RoundRobin {
  import opened Common

  function Sum(ws: seq<nat>): nat { if ws == [] then 0 else Sum(ws[..|ws| - 1]) + ws[|ws| - 1] }

  /** The slots of peer i are those from `First(ws, i)` on, as many as its weight. */
  function First(ws: seq<nat>, i: nat): nat
    requires i <= |ws|
  {
    Sum(ws[..i])
  }

  predicate OwnsSlot(ws: seq<nat>, i: nat, slot: nat)
    requires i < |ws|
  {
    First(ws, i) <= slot < First(ws, i) + ws[i]
  }

  /** The slot of a counter value: 32 bits of the counter, modulo the total weight (at least 1). */
  function SlotOf(total: nat, counter: nat): (slot: nat)
    ensures total > 0 ==> slot < total
    ensures total == 0 ==> slot == 0
  {
    counter % U32 % (if total == 0 then 1 else total)
  }

  lemma FirstNext(ws: seq<nat>, i: nat)
    requires i < |ws|
    ensures First(ws, i + 1) == First(ws, i) + ws[i]
  {
    assert ws[..i + 1][..i] == ws[..i];
  }

  lemma {:induction false} FirstGrows(ws: seq<nat>, i: nat, j: nat)
    requires i <= j <= |ws|
    ensures First(ws, i) <= First(ws, j)
    decreases j
  {
    if i < j {
      FirstGrows(ws, i, j - 1);
      FirstNext(ws, j - 1);
    }
  }

  /** A slot has one owner. */
  lemma OneOwner(ws: seq<nat>, slot: nat, i: nat, j: nat)
    requires i < |ws| && j < |ws| && OwnsSlot(ws, i, slot) && OwnsSlot(ws, j, slot)
    ensures i == j
  {
    FirstNext(ws, i);
    FirstNext(ws, j);
    if i < j { FirstGrows(ws, i + 1, j); }
    if j < i { FirstGrows(ws, j + 1, i); }
  }

  lemma FirstEnds(ws: seq<nat>)
    ensures First(ws, 0) == 0 && First(ws, |ws|) == Sum(ws)
  {
    assert ws[..|ws|] == ws;
  }

  lemma AddMod(a: nat, b: nat)
    ensures (a % U32 + b) % U32 == (a + b) % U32
  {
  }

  method TotalWeight(ws: seq<nat>) returns (total: nat)
    ensures total == Sum(ws) % U32
  {
    hide First;
    FirstEnds(ws);
    total := 0;
    for k := 0 to |ws|
      invariant total == First(ws, k) % U32
    {
      FirstNext(ws, k);
      AddMod(First(ws, k), ws[k]);
      total := (total + ws[k]) % U32;
    }
  }

  /** The walk from peer k on: the first peer at which the running sum, in 32 bits, passes the slot, and
      the first peer of all when none does. */
  function WalkFrom(ws: seq<nat>, slot: nat, k: nat): (i: nat)
    requires ws != [] && k <= |ws|
    ensures i < |ws|
    decreases |ws| - k
  {
    if k == |ws| then 0
    else if slot < First(ws, k + 1) % U32 then k
    else WalkFrom(ws, slot, k + 1)
  }

  /** The peer of a counter value, for any weights: the total wraps at 32 bits as well. */
  function Walk(ws: seq<nat>, counter: nat): (i: nat)
    requires ws != []
    ensures i < |ws|
  {
    WalkFrom(ws, SlotOf(Sum(ws) % U32, counter), 0)
  }

  method Pick(ws: seq<nat>, counter: nat) returns (i: nat)
    requires ws != []
    ensures i == Walk(ws, counter)
  {
    hide SlotOf, First;
    FirstEnds(ws);
    var total := TotalWeight(ws);
    var slot := SlotOf(total, counter);
    var cum: nat := 0;
    i := 0;
    for k := 0 to |ws|
      invariant cum == First(ws, k) % U32
      invariant WalkFrom(ws, slot, 0) == WalkFrom(ws, slot, k)
    {
      FirstNext(ws, k);
      AddMod(First(ws, k), ws[k]);
      cum := (cum + ws[k]) % U32;
      if slot < cum { return k; }
    }
  }

  lemma Bounded(ws: seq<nat>, k: nat)
    requires k < |ws| && Sum(ws) < U32
    ensures First(ws, k + 1) % U32 == First(ws, k) + ws[k] <= Sum(ws)
  {
    FirstNext(ws, k);
    FirstGrows(ws, k + 1, |ws|);
    FirstEnds(ws);
    hide First, Sum;
    Small(First(ws, k + 1), U32);
  }

  lemma {:induction false} WalkFromFindsOwner(ws: seq<nat>, slot: nat, k: nat)
    requires ws != [] && k <= |ws| && Sum(ws) < U32 && First(ws, k) <= slot < Sum(ws)
    ensures OwnsSlot(ws, WalkFrom(ws, slot, k), slot)
    decreases |ws| - k
  {
    FirstEnds(ws);
    hide First, Sum;
    if k < |ws| {
      Bounded(ws, k);
      FirstNext(ws, k);
      if slot >= First(ws, k + 1) { WalkFromFindsOwner(ws, slot, k + 1); }
    }
  }

  lemma {:induction false} WalkFromZero(ws: seq<nat>, slot: nat, k: nat)
    requires ws != [] && k <= |ws| && Sum(ws) == 0
    ensures WalkFrom(ws, slot, k) == 0
    decreases |ws| - k
  {
    if k < |ws| {
      Bounded(ws, k);
      WalkFromZero(ws, slot, k + 1);
    }
  }

  /** While the weights add up to less than 2^32, the walk finds the owner of the counter's slot, and the
      first peer when all weights are zero. */
  lemma WalkFindsOwner(ws: seq<nat>, counter: nat)
    requires ws != [] && Sum(ws) < U32
    ensures 0 < Sum(ws) ==> OwnsSlot(ws, Walk(ws, counter), SlotOf(Sum(ws), counter))
    ensures Sum(ws) == 0 ==> Walk(ws, counter) == 0
  {
    FirstEnds(ws);
    Small(Sum(ws), U32);
    hide First, Sum, OwnsSlot, SlotOf;
    if Sum(ws) == 0 {
      WalkFromZero(ws, SlotOf(0, counter), 0);
    } else {
      WalkFromFindsOwner(ws, SlotOf(Sum(ws), counter), 0);
    }
  }

  // ---- Division ----

  lemma MulGap(d: nat, p: nat, q: nat)
    requires p < q
    ensures d * p + d <= d * q
  {
    assert d * (p + 1) <= d * q;
  }

  /** Quotient and remainder are the only ones. */
  lemma DivUnique(x: nat, d: nat, q: nat, r: nat)
    requires d > 0 && x == d * q + r && r < d
    ensures x / d == q && x % d == r
  {
    var p, s := x / d, x % d;
    assert x == d * p + s && s < d;
    if p < q { MulGap(d, p, q); } else if q < p { MulGap(d, q, p); }
  }

  lemma Small(x: nat, d: nat)
    requires x < d
    ensures x / d == 0 && x % d == x
  {
    DivUnique(x, d, 0, x);
  }

  lemma OneMoreRound(x: nat, total: nat)
    requires total > 0
    ensures (x + total) / total == x / total + 1 && (x + total) % total == x % total
  {
    var q, r := x / total, x % total;
    assert x == total * q + r;
    assert total * (q + 1) == total * q + total;
    DivUnique(x + total, total, q + 1, r);
  }

  // ---- Fairness ----

  /** How many of n counter values from `start` on fall to the slots lo to hi of a total. */
  function Hits(total: nat, lo: nat, hi: nat, start: nat, n: nat): nat
    requires total > 0
  {
    if n == 0 then 0
    else Hits(total, lo, hi, start, n - 1) + (if lo <= (start + n - 1) % total < hi then 1 else 0)
  }

  lemma {:induction false} HitsFromZero(total: nat, lo: nat, hi: nat, n: nat)
    requires total > 0 && lo <= hi && n <= total
    ensures Hits(total, lo, hi, 0, n) == Min(n, hi) - Min(n, lo)
  {
    if n > 0 {
      HitsFromZero(total, lo, hi, n - 1);
      Small(n - 1, total);
    }
  }

  lemma {:induction false} HitsSplit(total: nat, lo: nat, hi: nat, start: nat, a: nat, b: nat)
    requires total > 0
    ensures Hits(total, lo, hi, start, a + b) == Hits(total, lo, hi, start, a) + Hits(total, lo, hi, start + a, b)
    decreases b
  {
    if b > 0 { HitsSplit(total, lo, hi, start, a, b - 1); }
  }

  /** A full round hits each slot once, wherever it starts. */
  lemma {:induction false} FullRound(total: nat, lo: nat, hi: nat, start: nat)
    requires total > 0 && lo <= hi <= total
    ensures Hits(total, lo, hi, start, total) == hi - lo
  {
    if start == 0 {
      HitsFromZero(total, lo, hi, total);
    } else {
      FullRound(total, lo, hi, start - 1);
      HitsSplit(total, lo, hi, start - 1, 1, total);
      HitsSplit(total, lo, hi, start - 1, total, 1);
      OneMoreRound(start - 1, total);
      assert Hits(total, lo, hi, start - 1, 1) == Hits(total, lo, hi, start - 1 + total, 1) by {
        assert Hits(total, lo, hi, start - 1, 0) == 0 == Hits(total, lo, hi, start - 1 + total, 0);
      }
    }
  }

  /** n values hit a range at least once a full round and at most once a started round. */
  lemma {:induction false} HitsBounds(total: nat, lo: nat, hi: nat, start: nat, n: nat)
    requires total > 0 && lo <= hi <= total
    ensures (hi - lo) * (n / total) <= Hits(total, lo, hi, start, n) <= (hi - lo) * ((n + total - 1) / total)
    decreases n
  {
    if n >= total {
      HitsSplit(total, lo, hi, start, total, n - total);
      FullRound(total, lo, hi, start);
      HitsBounds(total, lo, hi, start + total, n - total);
      OneMore(hi - lo, n, total);
    } else {
      HitsSplit(total, lo, hi, start, n, total - n);
      FullRound(total, lo, hi, start);
      Small(n, total);
      StartedRounds(n, total);
    }
  }

  lemma StartedRounds(n: nat, total: nat)
    requires n < total
    ensures (n + total - 1) / total == if n == 0 then 0 else 1
  {
    if n == 0 { Small(total - 1, total); } else { DivUnique(n + total - 1, total, 1, n - 1); }
  }

  lemma OneMore(w: nat, n: nat, total: nat)
    requires 0 < total <= n
    ensures w * (n / total) == w + w * ((n - total) / total)
    ensures w * ((n + total - 1) / total) == w + w * ((n - total + total - 1) / total)
  {
    OneMoreRound(n - total, total);
    OneMoreRound(n - 1, total);
    Distribute(w, (n - total) / total);
    Distribute(w, (n - 1) / total);
  }

  lemma Distribute(w: nat, q: nat)
    ensures w * (q + 1) == w + w * q
  {
  }

  /** How often peer i owns the slot of n counter values from `start` on. */
  function Owned(ws: seq<nat>, i: nat, start: nat, n: nat): nat
    requires i < |ws|
  {
    if n == 0 then 0
    else Owned(ws, i, start, n - 1) + (if OwnsSlot(ws, i, SlotOf(Sum(ws), start + n - 1)) then 1 else 0)
  }

  lemma SlotInEpoch(total: nat, start: nat, k: nat)
    requires total > 0 && start % U32 + k < U32
    ensures SlotOf(total, start + k) == (start % U32 + k) % total
  {
    assert (start + k) % U32 == start % U32 + k;
  }

  lemma {:induction false} OwnedAreHits(ws: seq<nat>, i: nat, start: nat, n: nat)
    requires i < |ws| && Sum(ws) > 0 && start % U32 + n <= U32
    ensures Owned(ws, i, start, n) == Hits(Sum(ws), First(ws, i), First(ws, i) + ws[i], start % U32, n)
    decreases n
  {
    hide SlotOf, First;
    if n > 0 {
      OwnedAreHits(ws, i, start, n - 1);
      SlotInEpoch(Sum(ws), start, n - 1);
    }
  }

  /** How often peer i is picked for n counter values from `start` on. */
  function Picks(ws: seq<nat>, i: nat, start: nat, n: nat): nat
    requires i < |ws|
  {
    if n == 0 then 0 else Picks(ws, i, start, n - 1) + (if Walk(ws, start + n - 1) == i then 1 else 0)
  }

  lemma PickIsOwner(ws: seq<nat>, i: nat, counter: nat)
    requires i < |ws| && 0 < Sum(ws) < U32
    ensures Walk(ws, counter) == i <==> OwnsSlot(ws, i, SlotOf(Sum(ws), counter))
  {
    WalkFindsOwner(ws, counter);
    hide Walk, SlotOf, OwnsSlot, Sum;
    if OwnsSlot(ws, i, SlotOf(Sum(ws), counter)) { OneOwner(ws, SlotOf(Sum(ws), counter), i, Walk(ws, counter)); }
  }

  /** While the weights add up to less than 2^32, a peer is picked for the slots it owns. */
  lemma {:induction false} PicksAreOwned(ws: seq<nat>, i: nat, start: nat, n: nat)
    requires i < |ws| && 0 < Sum(ws) < U32
    ensures Picks(ws, i, start, n) == Owned(ws, i, start, n)
    decreases n
  {
    hide Walk, SlotOf, OwnsSlot, Sum;
    if n > 0 {
      PicksAreOwned(ws, i, start, n - 1);
      PickIsOwner(ws, i, start + n - 1);
    }
  }

  /** While the weights add up to less than 2^32 and the counter does not cross a multiple of it: over a
      full round every peer is picked exactly as often as its weight says, and over n picks at least that
      often a full round and at most that often a started round. A peer of weight zero is never picked. */
  lemma FairWithinEpoch(ws: seq<nat>, i: nat, start: nat, n: nat)
    requires i < |ws| && 0 < Sum(ws) < U32 && start % U32 + n <= U32
    ensures ws[i] * (n / Sum(ws)) <= Picks(ws, i, start, n) <= ws[i] * ((n + Sum(ws) - 1) / Sum(ws))
    ensures n == Sum(ws) ==> Picks(ws, i, start, n) == ws[i]
    ensures ws[i] == 0 ==> Picks(ws, i, start, n) == 0
  {
    FirstNext(ws, i);
    FirstGrows(ws, i + 1, |ws|);
    assert ws[..|ws|] == ws;
    PicksAreOwned(ws, i, start, n);
    OwnedAreHits(ws, i, start, n);
    HitsBounds(Sum(ws), First(ws, i), First(ws, i) + ws[i], start % U32, n);
    if n == Sum(ws) { FullRound(Sum(ws), First(ws, i), First(ws, i) + ws[i], start % U32); }
  }

  /** Every round is fair, wherever it starts. */
  ghost predicate AlwaysFair(ws: seq<nat>) {
    forall start: nat, i: nat | i < |ws| :: Picks(ws, i, start, Sum(ws)) == ws[i]
  }

  lemma {:induction false} DividingOwnedAreHits(ws: seq<nat>, i: nat, start: nat, n: nat)
    requires i < |ws| && Sum(ws) > 0 && U32 % Sum(ws) == 0
    ensures Owned(ws, i, start, n) == Hits(Sum(ws), First(ws, i), First(ws, i) + ws[i], start, n)
    decreases n
  {
    hide SlotOf, First;
    if n > 0 {
      DividingOwnedAreHits(ws, i, start, n - 1);
      DividingSlot(Sum(ws), start + n - 1);
    }
  }

  lemma DividingSlot(total: nat, counter: nat)
    requires total > 0 && U32 % total == 0
    ensures SlotOf(total, counter) == counter % total
  {
    var q := U32 / total;
    assert U32 == total * q;
    ModOfMultiple(counter, total, q, U32);
  }

  lemma MulAssoc(a: nat, b: nat, c: nat)
    ensures a * b * c == a * (b * c)
  {
  }

  lemma ModOfMultiple(x: nat, w: nat, q: nat, m: nat)
    requires w > 0 && m == w * q && m > 0
    ensures x % m % w == x % w
  {
    var a, r := x / m, x % m;
    assert x == m * a + r;
    MulAssoc(w, q, a);
    Cycles(w, q * a, r);
  }

  lemma {:induction false} Cycles(w: nat, k: nat, r: nat)
    requires w > 0
    ensures (w * k + r) % w == r % w
    decreases k
  {
    if k > 0 {
      Cycles(w, k - 1, r);
      OneMoreRound(w * (k - 1) + r, w);
      assert w * k + r == w * (k - 1) + r + w;
    }
  }

  /** Weights whose total divides 2^32 are fair across the wrap as well. */
  lemma FairAcrossTheWrap(ws: seq<nat>)
    requires 0 < Sum(ws) < U32 && U32 % Sum(ws) == 0
    ensures AlwaysFair(ws)
  {
    forall start: nat, i: nat | i < |ws| ensures Picks(ws, i, start, Sum(ws)) == ws[i] {
      PicksAreOwned(ws, i, start, Sum(ws));
      DividingOwnedAreHits(ws, i, start, Sum(ws));
      FirstNext(ws, i);
      FirstGrows(ws, i + 1, |ws|);
      assert ws[..|ws|] == ws;
      FullRound(Sum(ws), First(ws, i), First(ws, i) + ws[i], start);
    }
  }

  lemma {:induction false} OwnedSplit(ws: seq<nat>, i: nat, start: nat, a: nat, b: nat)
    requires i < |ws|
    ensures Owned(ws, i, start, a + b) == Owned(ws, i, start, a) + Owned(ws, i, start + a, b)
    decreases b
  {
    hide SlotOf, OwnsSlot;
    if b > 0 { OwnedSplit(ws, i, start, a, b - 1); }
  }

  lemma Interval(ws: seq<nat>, i: nat)
    requires i < |ws|
    ensures First(ws, i) + ws[i] <= Sum(ws)
  {
    FirstNext(ws, i);
    FirstGrows(ws, i + 1, |ws|);
    FirstEnds(ws);
  }

  /** A round that begins `before` steps ahead of the wrap, as hits of the slots on both sides of it. */
  lemma WrappedRound(ws: seq<nat>, i: nat, before: nat)
    requires i < |ws| && before <= Sum(ws) <= U32 && 0 < before
    ensures Owned(ws, i, U32 - before, Sum(ws))
         == Hits(Sum(ws), First(ws, i), First(ws, i) + ws[i], U32 - before, before)
            + Hits(Sum(ws), First(ws, i), First(ws, i) + ws[i], 0, Sum(ws) - before)
  {
    OwnedSplit(ws, i, U32 - before, before, Sum(ws) - before);
    Small(U32 - before, U32);
    hide First, Sum;
    OwnedAreHits(ws, i, U32 - before, before);
    OwnedAreHits(ws, i, U32, Sum(ws) - before);
  }

  function Within(lo: nat, hi: nat, slot: nat): nat { if lo <= slot < hi then 1 else 0 }

  /** The round that begins one step ahead of the wrap serves the slot before r instead of the last. */
  lemma OneStepAhead(total: nat, lo: nat, hi: nat, r: nat)
    requires 0 < r < total <= U32 && lo <= hi <= total && U32 % total == r
    ensures Hits(total, lo, hi, U32 - 1, 1) + Hits(total, lo, hi, 0, total - 1)
         == hi - lo + Within(lo, hi, r - 1) - Within(lo, hi, total - 1)
  {
    assert Hits(total, lo, hi, U32 - 1, 0) == 0;
    SlotBefore(total, r);
    HitsFromZero(total, lo, hi, total - 1);
  }

  lemma SlotBefore(total: nat, r: nat)
    requires 0 < r < total <= U32 && U32 % total == r
    ensures (U32 - 1) % total == r - 1
  {
    DivUnique(U32 - 1, total, U32 / total, r - 1);
  }

  /** The round that begins a full round less one step ahead of the wrap serves slot 0 instead of slot r. */
  lemma AlmostARoundAhead(total: nat, lo: nat, hi: nat, r: nat)
    requires 0 < r < total <= U32 && lo <= hi <= total && U32 % total == r
    ensures Hits(total, lo, hi, U32 - (total - 1), total - 1) + Hits(total, lo, hi, 0, 1)
         == hi - lo + Within(lo, hi, 0) - Within(lo, hi, r)
  {
    FullRound(total, lo, hi, U32 - (total - 1));
    assert Hits(total, lo, hi, 0, 0) == 0;
    Small(0, total);
    assert U32 - (total - 1) + total - 1 == U32;
  }

  lemma {:induction false} OwnerExists(ws: seq<nat>, slot: nat, n: nat) returns (i: nat)
    requires n <= |ws| && slot < First(ws, n)
    ensures i < n && OwnsSlot(ws, i, slot)
    decreases n
  {
    if n > 0 { FirstNext(ws, n - 1); }
    if First(ws, n - 1) <= slot { i := n - 1; } else { i := OwnerExists(ws, slot, n - 1); }
  }

  /** One peer holds the whole weight. */
  ghost predicate OnePeerOnly(ws: seq<nat>) { exists i :: 0 <= i < |ws| && ws[i] == Sum(ws) }

  lemma {:induction false} OwnerOwnsAll(ws: seq<nat>, i: nat, start: nat, n: nat)
    requires i < |ws| && Sum(ws) > 0 && First(ws, i) == 0 && ws[i] == Sum(ws)
    ensures Owned(ws, i, start, n) == n
    decreases n
  {
    if n > 0 { OwnerOwnsAll(ws, i, start, n - 1); }
  }

  lemma {:induction false} WeightlessOwnsNothing(ws: seq<nat>, i: nat, start: nat, n: nat)
    requires i < |ws| && ws[i] == 0
    ensures Owned(ws, i, start, n) == 0
    decreases n
  {
    hide SlotOf, First;
    if n > 0 { WeightlessOwnsNothing(ws, i, start, n - 1); }
  }

  lemma OnePeerIsFair(ws: seq<nat>)
    requires 0 < Sum(ws) < U32 && OnePeerOnly(ws)
    ensures AlwaysFair(ws)
  {
    var p: nat :| p < |ws| && ws[p] == Sum(ws);
    Interval(ws, p);
    forall start: nat, i: nat | i < |ws| ensures Picks(ws, i, start, Sum(ws)) == ws[i] {
      PicksAreOwned(ws, i, start, Sum(ws));
      if i == p {
        OwnerOwnsAll(ws, p, start, Sum(ws));
      } else {
        OthersWeighNothing(ws, p, i);
        WeightlessOwnsNothing(ws, i, start, Sum(ws));
      }
    }
  }

  lemma OthersWeighNothing(ws: seq<nat>, p: nat, i: nat)
    requires p < |ws| && i < |ws| && i != p && ws[p] == Sum(ws)
    ensures ws[i] == 0
  {
    Interval(ws, p);
    Interval(ws, i);
    FirstNext(ws, i);
    FirstNext(ws, p);
    if i < p { FirstGrows(ws, i + 1, p); } else { FirstGrows(ws, p + 1, i); }
  }

  lemma FairAt(ws: seq<nat>, i: nat, start: nat)
    requires AlwaysFair(ws) && i < |ws|
    ensures Picks(ws, i, start, Sum(ws)) == ws[i]
  {
    hide Picks, Sum;
  }

  lemma FairMeansOnePeer(ws: seq<nat>)
    requires 0 < Sum(ws) < U32 && U32 % Sum(ws) != 0 && AlwaysFair(ws)
    ensures OnePeerOnly(ws)
  {
    hide AlwaysFair, Picks, Owned, Sum, First, Hits;
    var total := Sum(ws);
    FirstEnds(ws);
    var p := OwnerExists(ws, total - 1, |ws|);
    Interval(ws, p);
    RoundsAtTheWrap(ws, p);
    FairRoundsFill(total, First(ws, p), ws[p]);
  }

  lemma RoundsAtTheWrap(ws: seq<nat>, p: nat)
    requires 0 < Sum(ws) < U32 && U32 % Sum(ws) != 0 && AlwaysFair(ws) && p < |ws|
    ensures Sum(ws) > 1
    ensures var total, lo, hi := Sum(ws), First(ws, p), First(ws, p) + ws[p];
      && Hits(total, lo, hi, U32 - 1, 1) + Hits(total, lo, hi, 0, total - 1) == ws[p]
      && Hits(total, lo, hi, U32 - (total - 1), total - 1) + Hits(total, lo, hi, 0, 1) == ws[p]
  {
    var total := Sum(ws);
    assert U32 % 1 == 0;
    hide AlwaysFair, Picks, Owned, Sum, First, Hits;
    FairAt(ws, p, U32 - 1);
    FairAt(ws, p, U32 - (total - 1));
    PicksAreOwned(ws, p, U32 - 1, total);
    PicksAreOwned(ws, p, U32 - (total - 1), total);
    WrappedRound(ws, p, 1);
    WrappedRound(ws, p, total - 1);
  }

  /** An owner of the last slot, served its weight in both rounds that touch the wrap, owns all slots. */
  lemma FairRoundsFill(total: nat, lo: nat, w: nat)
    requires 1 < total < U32 && U32 % total != 0 && lo <= total - 1 < lo + w <= total
    requires Hits(total, lo, lo + w, U32 - 1, 1) + Hits(total, lo, lo + w, 0, total - 1) == w
    requires Hits(total, lo, lo + w, U32 - (total - 1), total - 1) + Hits(total, lo, lo + w, 0, 1) == w
    ensures w == total
  {
    hide Hits;
    var r := U32 % total;
    OneStepAhead(total, lo, lo + w, r);
    AlmostARoundAhead(total, lo, lo + w, r);
  }

  // ---- Weights that do not fit 32 bits ----

  lemma {:induction false} PassesAt(ws: seq<nat>, n: nat) returns (k: nat)
    requires n <= |ws| && First(ws, n) >= U32
    ensures k < n && First(ws, k) < U32 <= First(ws, k + 1)
    decreases n
  {
    FirstEnds(ws);
    if First(ws, n - 1) < U32 { k := n - 1; } else { k := PassesAt(ws, n - 1); }
  }

  lemma {:induction false} StopsBefore(ws: seq<nat>, slot: nat, j: nat, k: nat)
    requires j < k <= |ws| && slot < First(ws, k) < U32
    ensures WalkFrom(ws, slot, j) < k
    decreases k - j
  {
    hide First;
    if j + 1 < k { StopsBefore(ws, slot, j + 1, k); } else { Small(First(ws, k), U32); }
  }

  lemma {:induction false} StepsOver(ws: seq<nat>, slot: nat, j: nat, k: nat)
    requires j <= |ws| && 0 < k < |ws| && First(ws, k + 1) % U32 <= slot
    ensures WalkFrom(ws, slot, j) != k
    decreases |ws| - j
  {
    hide First;
    if j < |ws| { StepsOver(ws, slot, j + 1, k); }
  }

  /** When the weights add up to 2^32 or more, the peer at which the running sum wraps is never picked. */
  lemma SomeoneStarves(ws: seq<nat>) returns (k: nat)
    requires Sum(ws) >= U32 && forall i | 0 <= i < |ws| :: ws[i] < U32
    ensures k < |ws| && ws[k] > 0 && forall counter: nat :: Walk(ws, counter) != k
  {
    FirstEnds(ws);
    k := PassesAt(ws, |ws|);
    FirstNext(ws, k);
    hide First, Sum;
    var low, high := First(ws, k), First(ws, k + 1);
    assert k > 0 by { FirstEnds(ws); }
    DivUnique(high, U32, 1, high - U32);
    forall counter: nat ensures Walk(ws, counter) != k {
      var slot := SlotOf(Sum(ws) % U32, counter);
      if slot < low { StopsBefore(ws, slot, 0, k); } else { StepsOver(ws, slot, 0, k); }
    }
  }

  lemma {:induction false} NeverPicked(ws: seq<nat>, k: nat, start: nat, n: nat)
    requires k < |ws| && forall counter: nat :: Walk(ws, counter) != k
    ensures Picks(ws, k, start, n) == 0
    decreases n
  {
    hide Walk;
    if n > 0 { NeverPicked(ws, k, start, n - 1); }
  }

  lemma HeavyIsUnfair(ws: seq<nat>)
    requires Sum(ws) >= U32 && forall i | 0 <= i < |ws| :: ws[i] < U32
    ensures !AlwaysFair(ws)
  {
    var k := SomeoneStarves(ws);
    NeverPicked(ws, k, 0, Sum(ws));
    hide Picks, Sum, Walk;
    assert Picks(ws, k, 0, Sum(ws)) != ws[k];
  }

  /** Every round is fair, the ones that cross the wrap included, exactly when the total weight is below
      2^32 and divides it, or is held by one peer. */
  lemma FairExactly(ws: seq<nat>)
    requires Sum(ws) > 0 && forall i | 0 <= i < |ws| :: ws[i] < U32
    ensures AlwaysFair(ws) <==> Sum(ws) < U32 && (U32 % Sum(ws) == 0 || OnePeerOnly(ws))
  {
    hide AlwaysFair, OnePeerOnly;
    if Sum(ws) >= U32 {
      HeavyIsUnfair(ws);
    } else if U32 % Sum(ws) == 0 {
      FairAcrossTheWrap(ws);
    } else if OnePeerOnly(ws) {
      OnePeerIsFair(ws);
    } else if AlwaysFair(ws) {
      FairMeansOnePeer(ws);
    }
  }
}

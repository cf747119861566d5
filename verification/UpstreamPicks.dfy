/** Where the hash and the random policy lead: every available peer gets its equal share of the hashes,
    and no two clients or clock readings are thrown together before the division. */
module UpstreamPicks {
  import opened Common
  import opened Upstream
  import RR = RoundRobin

  function Up(g: Group, now: nat): seq<nat> { Available(g.peers, now, |g.peers|) }

  /** Number x leads to the peer at place x modulo n of the n available ones. */
  ghost predicate LeadsTo(up: seq<nat>, x: nat, i: nat) { up != [] && up[x % |up|] == i }

  lemma HashPicks(g: Group, now: nat, hash: nat, i: nat)
    requires g.policy.IpHash?
    ensures IsPick(g, now, hash, i) <==> LeadsTo(Up(g, now), hash, i)
  {
    var up := Up(g, now);
    if up != [] && up[hash % |up|] == i { assert Chosen(g, now, hash, up, hash % |up|, i); }
  }

  lemma RandomPicks(g: Group, now: nat, hash: nat, i: nat)
    requires g.policy.RandomPeer?
    ensures IsPick(g, now, hash, i) <==> LeadsTo(Up(g, now), Spread(now), i)
  {
    hide Spread;
    var up := Up(g, now);
    if up != [] && up[Spread(now) % |up|] == i { assert Chosen(g, now, hash, up, Spread(now) % |up|, i); }
  }

  // ---- One of n consecutive numbers ----

  lemma ModOf(q: nat, n: nat, a: nat)
    requires a < n
    ensures (n * q + a) % n == a
  {
    RR.DivUnique(n * q + a, n, q, a);
  }

  /** One of n consecutive numbers has a given remainder. */
  lemma OneHas(n: nat, start: nat, a: nat) returns (x: nat)
    requires a < n
    ensures start <= x < start + n && x % n == a
  {
    var q, r := start / n, start % n;
    assert start == n * q + r;
    if a >= r {
      x := n * q + a;
      ModOf(q, n, a);
    } else {
      x := n * (q + 1) + a;
      ModOf(q + 1, n, a);
      assert n * (q + 1) == n * q + n;
    }
  }

  lemma OnlyOneHas(n: nat, start: nat, x: nat, y: nat)
    requires n > 0 && start <= x < start + n && start <= y < start + n && x % n == y % n
    ensures x == y
  {
    var p, q := x / n, y / n;
    assert x == n * p + x % n && y == n * q + y % n;
    if p < q { RR.MulGap(n, p, q); }
    if q < p { RR.MulGap(n, q, p); }
  }

  lemma AvailableOnce(peers: seq<Peer>, now: nat, i: nat) returns (a: nat)
    requires i < |peers| && peers[i].downUntil <= now
    ensures var up := Available(peers, now, |peers|);
      a < |up| && up[a] == i && forall b | 0 <= b < |up| && up[b] == i :: b == a
  {
    var up := Available(peers, now, |peers|);
    assert i in up;
    a :| 0 <= a < |up| && up[a] == i;
  }

  /** One of n consecutive numbers leads to a given available peer. */
  lemma OneLeads(g: Group, now: nat, start: nat, i: nat) returns (x: nat)
    requires i < |g.peers| && g.peers[i].downUntil <= now
    ensures var n := |Up(g, now)|;
      start <= x < start + n && LeadsTo(Up(g, now), x, i)
      && forall y | start <= y < start + n && LeadsTo(Up(g, now), y, i) :: y == x
  {
    var up := Up(g, now);
    var a := AvailableOnce(g.peers, now, i);
    hide Available;
    x := OneHas(|up|, start, a);
    forall y | start <= y < start + |up| && LeadsTo(up, y, i) ensures y == x {
      assert y % |up| == a;
      OnlyOneHas(|up|, start, x, y);
    }
  }

  // ---- The hash policy ----

  /** The smallest hashes lead to the available peers in their order; a client without an address has
      the hash 0. */
  lemma SmallHashes(g: Group, now: nat, hash: nat)
    requires g.policy.IpHash? && hash < |Up(g, now)|
    ensures IsPick(g, now, hash, Up(g, now)[hash])
  {
    HashPicks(g, now, hash, Up(g, now)[hash]);
    RR.Small(hash, |Up(g, now)|);
    hide IsPick;
  }

  /** Hashes that differ by the number of available peers lead to the same peer. */
  lemma HashesRepeat(g: Group, now: nat, hash: nat, i: nat)
    requires g.policy.IpHash?
    ensures IsPick(g, now, hash + |Up(g, now)|, i) <==> IsPick(g, now, hash, i)
  {
    var n := |Up(g, now)|;
    HashPicks(g, now, hash, i);
    HashPicks(g, now, hash + n, i);
    hide IsPick, Up;
    if n > 0 { OneRoundOn(n, hash); }
  }

  lemma OneRoundOn(n: nat, x: nat)
    requires n > 0
    ensures (x + n) % n == x % n
  {
    assert x == n * (x / n) + x % n;
    assert n * (x / n + 1) == n * (x / n) + n;
    ModOf(x / n + 1, n, x % n);
  }

  /** Of any n consecutive hashes, n peers being available, exactly one leads to each of them. */
  lemma HashesShare(g: Group, now: nat, start: nat, i: nat) returns (hash: nat)
    requires g.policy.IpHash? && i < |g.peers| && g.peers[i].downUntil <= now
    ensures var n := |Up(g, now)|;
      start <= hash < start + n && IsPick(g, now, hash, i)
      && forall h | start <= h < start + n && IsPick(g, now, h, i) :: h == hash
  {
    hash := OneLeads(g, now, start, i);
    HashPicks(g, now, hash, i);
    hide IsPick, LeadsTo, Up;
    forall h | start <= h < start + |Up(g, now)| && IsPick(g, now, h, i) ensures h == hash { HashPicks(g, now, h, i); }
  }

  /** The hash of an IPv4 address, given as a 32-bit number. */
  function HashV4(address: nat): nat { Xor(address, ShiftRight(address, 16)) }

  lemma {:induction false} XorWithShifted(x: nat, w: nat)
    requires w > 0
    ensures Unspread(Xor(x, ShiftRight(x, w)), w) == x
  {
    var n := Xor(x, ShiftRight(x, w));
    if x == 0 {
      ZeroSpreads(w);
    } else {
      XorWithShifted(ShiftRight(x, w), w);
      ShiftXor(x, ShiftRight(x, w), w);
      XorCancels(x, ShiftRight(x, w));
      if n == 0 { NothingCancels(x, ShiftRight(x, w)); }
    }
  }

  lemma NothingCancels(a: nat, b: nat)
    requires Xor(a, b) == 0
    ensures a == b
  {
    XorCancels(a, b);
    ZeroXor(b);
  }

  lemma {:induction false} ZeroXor(b: nat)
    ensures Xor(0, b) == b
  {
    if b > 0 { ZeroXor(b / 2); }
  }

  lemma ThirtyTwoBits()
    ensures Pow2(32) == U32
  {
    assert Pow2(8) == 256;
    assert Pow2(16) == 256 * Pow2(8);
    assert Pow2(24) == 256 * Pow2(16);
    assert Pow2(32) == 256 * Pow2(24);
  }

  /** No two IPv4 clients have the same hash, and every 32-bit number is the hash of one: the policy
      spreads all clients as evenly as numbers. */
  lemma HashesOfClients(hash: nat) returns (client: nat)
    requires hash < U32
    ensures client < U32 && HashV4(client) == hash
    ensures forall other | HashV4(other) == hash :: other == client
  {
    client := Unspread(hash, 16);
    ThirtyTwoBits();
    FitsBits(hash, 32);
    UnspreadFits(hash, 16, 32);
    FitsBits(client, 32);
    UnspreadSpreads(hash, 16);
    hide Unspread, Xor, ShiftRight, Pow2;
    forall other | HashV4(other) == hash ensures other == client { XorWithShifted(other, 16); }
  }

  /** The clients whose hashes are n consecutive 32-bit numbers, n peers being available: exactly one of
      them is led to each peer. */
  lemma ClientsShare(g: Group, now: nat, start: nat, i: nat) returns (client: nat)
    requires g.policy.IpHash? && i < |g.peers| && g.peers[i].downUntil <= now && start + |Up(g, now)| <= U32
    ensures var n := |Up(g, now)|;
      && client < U32 && start <= HashV4(client) < start + n && IsPick(g, now, HashV4(client), i)
      && forall c | start <= HashV4(c) < start + n && IsPick(g, now, HashV4(c), i) :: c == client
  {
    hide HashV4, IsPick, Up;
    var hash := HashesShare(g, now, start, i);
    client := HashesOfClients(hash);
  }

  // ---- The random policy ----

  lemma {:induction false} ShiftDivides(n: nat, k: nat)
    ensures ShiftRight(n, k) == n / Pow2(k)
    decreases k
  {
    if k > 0 {
      ShiftDivides(n / 2, k - 1);
      HalfThenDivide(n, Pow2(k - 1));
    }
  }

  lemma HalfThenDivide(n: nat, d: nat)
    requires d > 0
    ensures n / 2 / d == n / (2 * d)
  {
    var q, r := n / 2 / d, n / 2 % d;
    assert n / 2 == d * q + r;
    var rest := 2 * r + n % 2;
    assert n == 2 * (n / 2) + n % 2;
    assert n == 2 * d * q + rest;
    RR.DivUnique(n, 2 * d, q, rest);
  }

  /** The bits of a spread are those of the reading and of its quotient by 2^17, those of the hash of an
      IPv4 address are those of the address and of its quotient by 2^16. */
  lemma ShiftedBits(now: nat, address: nat)
    requires now < U64
    ensures Spread(now) == Xor(now, now / 0x2_0000) && HashV4(address) == Xor(address, address / 0x1_0000)
  {
    RR.Small(now, U64);
    ShiftDivides(now, 17);
    ShiftDivides(address, 16);
    SeventeenBits();
    hide ShiftRight, Xor, Pow2;
  }

  lemma SeventeenBits()
    ensures Pow2(16) == 0x1_0000 && Pow2(17) == 0x2_0000
  {
    assert Pow2(8) == 256;
    assert Pow2(16) == 256 * Pow2(8);
  }

  /** At two moments at which the same peers are up, the policy picks the same peer exactly when the two
      spreads leave the same remainder. */
  lemma RandomRepeats(g: Group, now: nat, later: nat, hash: nat, i: nat)
    requires g.policy.RandomPeer? && Up(g, now) == Up(g, later) && IsPick(g, now, hash, i)
    ensures IsPick(g, later, hash, i) <==> Spread(later) % |Up(g, now)| == Spread(now) % |Up(g, now)|
  {
    RandomPicks(g, now, hash, i);
    RandomPicks(g, later, hash, i);
    hide IsPick, Spread;
  }

  /** No two 64-bit clock readings have the same spread, and every 64-bit number is the spread of one. */
  lemma SpreadsOfClocks(x: nat) returns (now: nat)
    requires x < U64
    ensures now < U64 && Spread(now) == x
    ensures forall other: nat | other < U64 && Spread(other) == x :: other == now
  {
    now := Unspread(x, 17);
    SixtyFourBits();
    FitsBits(x, 64);
    UnspreadFits(x, 17, 64);
    FitsBits(now, 64);
    UnspreadSpreads(x, 17);
    hide Unspread, Xor, ShiftRight, Pow2;
    RR.Small(now, U64);
    forall other: nat | other < U64 && Spread(other) == x ensures other == now {
      RR.Small(other, U64);
      XorWithShifted(other, 17);
    }
  }

  /** While all n peers are up: of the moments whose spreads are n consecutive 64-bit numbers, exactly one
      leads to each peer. */
  lemma MomentsShare(g: Group, start: nat, hash: nat, i: nat) returns (now: nat)
    requires g.policy.RandomPeer? && i < |g.peers| && start + |g.peers| <= U64
    requires forall p | p in g.peers :: p.downUntil == 0
    ensures now < U64 && start <= Spread(now) < start + |g.peers| && IsPick(g, now, hash, i)
    ensures forall t: nat | t < U64 && start <= Spread(t) < start + |g.peers| && IsPick(g, t, hash, i) :: t == now
  {
    var n := |g.peers|;
    var up := Up(g, 0);
    AlwaysUp(g, 0);
    hide Spread, IsPick, Up;
    var x := OneLeads(g, 0, start, i);
    now := SpreadsOfClocks(x);
    AlwaysUp(g, now);
    RandomPicks(g, now, hash, i);
    forall t: nat | t < U64 && start <= Spread(t) < start + n && IsPick(g, t, hash, i) ensures t == now {
      AlwaysUp(g, t);
      RandomPicks(g, t, hash, i);
    }
  }

  lemma AlwaysUp(g: Group, now: nat)
    requires forall p | p in g.peers :: p.downUntil == 0
    ensures Up(g, now) == FirstPlaces(|g.peers|) && |Up(g, now)| == |g.peers|
  {
    AllUp(g.peers, now, |g.peers|);
  }
}

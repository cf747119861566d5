/** Upstream groups: picking a peer, counting its connections and failures, the down timers and the
    health checks. What happens between two waits is one step; `connect` is split where it waits. */
module Upstream {
  import opened Common
  import RR = RoundRobin

  datatype Policy = RoundRobin | LeastConn | IpHash | RandomPeer

  /** `active` and `fails` are 32-bit counters, `downUntil` is in Unix seconds. */
  datatype Peer = Peer(addr: string, weight: nat, active: nat, fails: nat, downUntil: nat)

  datatype Group = Group(peers: seq<Peer>, policy: Policy, counter: nat, failTimeout: nat, maxFails: nat)

  // ---- Picking ----

  function Available(peers: seq<Peer>, now: nat, n: nat): (r: seq<nat>)
    requires n <= |peers|
    ensures forall a | 0 <= a < |r| :: r[a] < n && peers[r[a]].downUntil <= now
    ensures forall i | 0 <= i < n && peers[i].downUntil <= now :: i in r
    ensures forall a, b | 0 <= a < b < |r| :: r[a] < r[b]
  {
    if n == 0 then []
    else Available(peers, now, n - 1) + (if peers[n - 1].downUntil <= now then [n - 1] else [])
  }

  function Weights(peers: seq<Peer>, of: seq<nat>): (r: seq<nat>)
    requires forall a | 0 <= a < |of| :: of[a] < |peers|
    ensures |r| == |of| && forall a | 0 <= a < |of| :: r[a] == peers[of[a]].weight
  {
    seq(|of|, a requires 0 <= a < |of| => peers[of[a]].weight)
  }

  /** The exclusive or of two numbers, bit by bit, and a shift to the right by k bits. */
  function Xor(a: nat, b: nat): nat {
    if a == 0 && b == 0 then 0 else 2 * Xor(a / 2, b / 2) + (if a % 2 != b % 2 then 1 else 0)
  }

  function ShiftRight(n: nat, k: nat): (r: nat)
    ensures r <= n && (n > 0 && k > 0 ==> r < n)
    decreases k
  {
    if k == 0 then n else ShiftRight(n / 2, k - 1)
  }

  /** The index that the random policy derives from the clock. */
  function Spread(now: nat): nat { Xor(now % U64, ShiftRight(now % U64, 17)) }

  predicate NotBusier(p: Peer, a: nat, q: Peer, b: nat) { p.active < q.active || (p.active == q.active && a <= b) }

  /** Peer i, at place a of the available list, is the policy's choice. */
  ghost predicate Chosen(g: Group, now: nat, hash: nat, up: seq<nat>, a: nat, i: nat)
    requires up == Available(g.peers, now, |g.peers|)
  {
    && a < |up| && up[a] == i
    && match g.policy
       case RoundRobin => a == RR.Walk(Weights(g.peers, up), g.counter)
       case LeastConn =>
         forall b | 0 <= b < |up| :: NotBusier(g.peers[i], a, g.peers[up[b]], b)
       case IpHash => a == hash % |up|
       case RandomPeer => a == Spread(now) % |up|
  }

  ghost predicate IsPick(g: Group, now: nat, hash: nat, i: nat) {
    exists a :: Chosen(g, now, hash, Available(g.peers, now, |g.peers|), a, i)
  }

  // ---- The steps on a group ----

  /** `connect` up to its wait: the peer is counted, and round-robin moves its counter. */
  function Begun(g: Group, i: nat): Group
    requires i < |g.peers|
  {
    var p := g.peers[i];
    g.(peers := g.peers[i := p.(active := (p.active + 1) % U32)],
       counter := if g.policy.RoundRobin? then (g.counter + 1) % U64 else g.counter)
  }

  function MarkFail(g: Group, i: nat, now: nat): Group
    requires i < |g.peers|
  {
    var p := g.peers[i];
    var fails := (p.fails + 1) % U32;
    g.(peers := g.peers[i := p.(fails := fails, downUntil :=
        if fails >= g.maxFails && g.failTimeout > 0 then (now + g.failTimeout) % U64 else p.downUntil)])
  }

  function Dropped(g: Group, i: nat): Group
    requires i < |g.peers|
  {
    g.(peers := g.peers[i := g.peers[i].(active := (g.peers[i].active + U32 - 1) % U32)])
  }

  function Recovered(g: Group, i: nat): Group
    requires i < |g.peers|
  {
    g.(peers := g.peers[i := g.peers[i].(fails := 0)])
  }

  /** The first peer with an address, as `release` finds it. */
  function FirstPeer(peers: seq<Peer>, addr: string): (r: Option<nat>)
    ensures r.None? <==> forall j | 0 <= j < |peers| :: peers[j].addr != addr
    ensures r.Some? ==> r.value < |peers| && peers[r.value].addr == addr
    ensures r.Some? ==> forall j | 0 <= j < r.value :: peers[j].addr != addr
  {
    if peers == [] then None
    else if peers[0].addr == addr then Some(0)
    else match FirstPeer(peers[1..], addr) case None => None case Some(j) => Some(j + 1)
  }

  function Released(g: Group, addr: string): Group {
    match FirstPeer(g.peers, addr) case None => g case Some(i) => Dropped(g, i)
  }

  /** One health probe, with the reading of the clock its round began with. */
  function Probed(g: Group, i: nat, ok: bool, now: nat): Group
    requires i < |g.peers|
  {
    if ok && g.peers[i].downUntil > now then g.(peers := g.peers[i := g.peers[i].(downUntil := 0, fails := 0)])
    else if !ok then MarkFail(g, i, now)
    else g
  }

  lemma PickedIs(g: Group, now: nat, hash: nat, up: seq<nat>, a: nat)
    requires up == Available(g.peers, now, |g.peers|) && a < |up| && Chosen(g, now, hash, up, a, up[a])
    ensures IsPick(g, now, hash, up[a])
  {
    hide Chosen;
  }

  /** The policy's place in the list of available peers. */
  method Choose(g: Group, now: nat, hash: nat, up: seq<nat>) returns (a: nat)
    requires up == Available(g.peers, now, |g.peers|) && up != []
    ensures a < |up| && up[a] < |g.peers| && IsPick(g, now, hash, up[a])
  {
    hide Spread, RR.Walk, IsPick;
    match g.policy {
      case RoundRobin => a := RR.Pick(Weights(g.peers, up), g.counter);
      case LeastConn => a := FewestConns(g.peers, up);
      case IpHash => a := hash % |up|;
      case RandomPeer => a := Spread(now) % |up|;
    }
    PickedIs(g, now, hash, up, a);
  }

  lemma NoneUp(peers: seq<Peer>, now: nat)
    ensures Available(peers, now, |peers|) == [] <==> forall j | 0 <= j < |peers| :: peers[j].downUntil > now
  {
    var up := Available(peers, now, |peers|);
    if up != [] {
      assert peers[up[0]].downUntil <= now;
    } else {
      assert forall j | 0 <= j < |peers| && peers[j].downUntil <= now :: j in up;
    }
  }

  class UpstreamGroup {
    const policy: Policy
    const failTimeout: nat
    const maxFails: nat
    var peers: seq<Peer>
    var counter: nat

    ghost function State(): Group
      reads this
    {
      Group(peers, policy, counter, failTimeout, maxFails)
    }

    constructor (peers: seq<(string, nat)>, policy: Policy, failTimeout: nat, maxFails: nat)
      ensures State() == NewGroup(peers, policy, failTimeout, maxFails)
    {
      this.peers := seq(|peers|, i requires 0 <= i < |peers| => Peer(peers[i].0, peers[i].1, 0, 0, 0));
      this.policy := policy;
      this.failTimeout := failTimeout;
      this.maxFails := maxFails;
      counter := 0;
    }

    /** `connect` up to its wait; no peer when all are down. */
    method Begin(now: nat, hash: nat) returns (r: Option<nat>)
      modifies this
      ensures r.None? <==> forall j | 0 <= j < |old(peers)| :: old(peers)[j].downUntil > now
      ensures r.None? ==> State() == old(State())
      ensures r.Some? ==> IsPick(old(State()), now, hash, r.value) && State() == Begun(old(State()), r.value)
    {
      hide IsPick;
      NoneUp(peers, now);
      var up := Filter(peers, now);
      if |up| == 0 { return None; }
      var a := Choose(Group(peers, policy, counter, failTimeout, maxFails), now, hash, up);
      hide Available;
      r := Some(up[a]);
      Take(up[a]);
    }

    method Take(i: nat)
      requires i < |peers|
      modifies this
      ensures State() == Begun(old(State()), i)
    {
      if policy == RoundRobin { counter := (counter + 1) % U64; }
      peers := peers[i := peers[i].(active := (peers[i].active + 1) % U32)];
    }

    /** `connect` after its wait, when the connection is open and `set_nodelay` worked. */
    method Opened(i: nat)
      requires i < |peers|
      modifies this`peers
      ensures State() == Recovered(old(State()), i)
    {
      peers := peers[i := peers[i].(fails := 0)];
    }

    method Fail(i: nat, now: nat)
      requires i < |peers|
      modifies this`peers
      ensures State() == MarkFail(old(State()), i, now)
    {
      var fails := (peers[i].fails + 1) % U32;
      peers := peers[i := peers[i].(fails := fails)];
      if fails >= maxFails && failTimeout > 0 {
        peers := peers[i := peers[i].(downUntil := (now + failTimeout) % U64)];
      }
    }

    /** `connect` after its wait, when the connection failed or timed out; the failure is timed with the
        clock reading from before the wait. */
    method NotOpened(i: nat, began: nat)
      requires i < |peers|
      modifies this`peers
      ensures State() == MarkFail(Dropped(old(State()), i), i, began)
    {
      peers := peers[i := peers[i].(active := (peers[i].active + U32 - 1) % U32)];
      Fail(i, began);
    }

    method Release(addr: string)
      modifies this`peers
      ensures State() == Released(old(State()), addr)
    {
      for i := 0 to |peers|
        invariant peers == old(peers) && forall j | 0 <= j < i :: peers[j].addr != addr
      {
        if peers[i].addr == addr {
          assert FirstPeer(peers, addr) == Some(i);
          peers := peers[i := peers[i].(active := (peers[i].active + U32 - 1) % U32)];
          return;
        }
      }
    }

    method Probe(i: nat, ok: bool, now: nat)
      requires i < |peers|
      modifies this`peers
      ensures State() == Probed(old(State()), i, ok, now)
    {
      if ok && peers[i].downUntil > now {
        peers := peers[i := peers[i].(downUntil := 0)];
        peers := peers[i := peers[i].(fails := 0)];
      } else if !ok {
        Fail(i, now);
      }
    }
  }

  method Filter(peers: seq<Peer>, now: nat) returns (up: seq<nat>)
    ensures up == Available(peers, now, |peers|)
  {
    up := [];
    for i := 0 to |peers|
      invariant up == Available(peers, now, i)
    {
      if peers[i].downUntil <= now { up := up + [i]; } else { assert up + [] == up; }
    }
  }

  /** The first of the available peers with the fewest connections. */
  method FewestConns(peers: seq<Peer>, up: seq<nat>) returns (a: nat)
    requires up != [] && forall a | 0 <= a < |up| :: up[a] < |peers|
    ensures a < |up|
    ensures forall b | 0 <= b < |up| :: NotBusier(peers[up[a]], a, peers[up[b]], b)
  {
    a := 0;
    for k := 1 to |up|
      invariant a < k
      invariant forall b | 0 <= b < k :: NotBusier(peers[up[a]], a, peers[up[b]], b)
    {
      if peers[up[k]].active < peers[up[a]].active { a := k; }
    }
  }

  function NewGroup(peers: seq<(string, nat)>, policy: Policy, failTimeout: nat, maxFails: nat): (g: Group)
    ensures |g.peers| == |peers|
    ensures forall i | 0 <= i < |peers| ::
      g.peers[i] == Peer(peers[i].0, peers[i].1, 0, 0, 0)
  {
    Group(seq(|peers|, i requires 0 <= i < |peers| => Peer(peers[i].0, peers[i].1, 0, 0, 0)), policy, 0,
          failTimeout, maxFails)
  }

  // ---- Runs ----

  /** A connection attempt: waiting, open, closed, or open to no one because `set_nodelay` failed. */
  datatype Phase = Connecting(began: nat) | Open | Stranded | Closed

  datatype Conn = Conn(peer: nat, phase: Phase)

  /** The group, every attempt so far, and per peer the failures since its last reset and the latest
      clock reading of a failure. */
  datatype System = System(group: Group, conns: seq<Conn>, failures: seq<nat>, lastFail: seq<nat>, clock: nat)

  datatype Step =
    | Connect(hash: nat, peer: nat)
    | Success(conn: nat)
    | NoDelayError(conn: nat)
    | Failure(conn: nat)
    | Done(conn: nat)
    | Check(peer: nat, ok: bool, began: nat)

  datatype Timed = Timed(at: nat, step: Step)

  /** The steps a state allows; the handler releases each open connection once, by its address. */
  ghost predicate Enabled(s: System, t: Timed) {
    s.clock <= t.at
    && match t.step
       case Connect(hash, i) => IsPick(s.group, t.at, hash, i)
       case Success(k) => k < |s.conns| && s.conns[k].phase.Connecting?
       case NoDelayError(k) => k < |s.conns| && s.conns[k].phase.Connecting?
       case Failure(k) => k < |s.conns| && s.conns[k].phase.Connecting?
       case Done(k) => k < |s.conns| && s.conns[k].phase.Open?
       case Check(i, _, began) => i < |s.group.peers| && began <= t.at
  }

  ghost predicate WellFormed(s: System) {
    && |s.failures| == |s.lastFail| == |s.group.peers|
    && forall c | c in s.conns :: c.peer < |s.group.peers| && (c.phase.Connecting? ==> c.phase.began <= s.clock)
  }

  function Later(a: nat, b: nat): nat { if a <= b then b else a }

  function Failed(s: System, i: nat, now: nat): System
    requires i < |s.failures| == |s.lastFail|
  {
    s.(failures := s.failures[i := s.failures[i] + 1], lastFail := s.lastFail[i := Later(s.lastFail[i], now)])
  }

  ghost function Stepped(s: System, t: Timed): System
    requires WellFormed(s) && Enabled(s, t)
  {
    var g, now := s.group, s.(clock := t.at);
    match t.step
    case Connect(_, i) => now.(group := Begun(g, i), conns := s.conns + [Conn(i, Connecting(t.at))])
    case Success(k) =>
      var i := s.conns[k].peer;
      now.(group := Recovered(g, i), conns := s.conns[k := Conn(i, Open)], failures := s.failures[i := 0])
    case NoDelayError(k) => now.(conns := s.conns[k := Conn(s.conns[k].peer, Stranded)])
    case Failure(k) =>
      var i, began := s.conns[k].peer, s.conns[k].phase.began;
      Failed(now, i, began).(group := MarkFail(Dropped(g, i), i, began), conns := s.conns[k := Conn(i, Closed)])
    case Done(k) =>
      var i := s.conns[k].peer;
      now.(group := Released(g, g.peers[i].addr), conns := s.conns[k := Conn(i, Closed)])
    case Check(i, ok, began) =>
      if ok && g.peers[i].downUntil > began then now.(group := Probed(g, i, ok, began), failures := s.failures[i := 0])
      else if !ok then Failed(now, i, began).(group := Probed(g, i, ok, began))
      else now.(group := Probed(g, i, ok, began))
  }

  lemma StaysWellFormed(s: System, t: Timed)
    requires WellFormed(s) && Enabled(s, t)
    ensures WellFormed(Stepped(s, t)) && |Stepped(s, t).group.peers| == |s.group.peers|
  {
    hide IsPick, Chosen;
    if t.step.Connect? { PickIsUp(s.group, t.at, t.step.hash, t.step.peer); }
  }

  /** A picked peer exists and its down timer is not running. */
  lemma PickIsUp(g: Group, now: nat, hash: nat, i: nat)
    requires IsPick(g, now, hash, i)
    ensures i < |g.peers| && g.peers[i].downUntil <= now
  {
    var up := Available(g.peers, now, |g.peers|);
    var a :| Chosen(g, now, hash, up, a, i);
  }

  function NewSystem(g: Group): (s: System)
    ensures WellFormed(s)
  {
    System(g, [], seq(|g.peers|, _ => 0), seq(|g.peers|, _ => 0), 0)
  }

  ghost predicate Runs(s: System, ts: seq<Timed>)
    requires WellFormed(s)
    decreases |ts|
  {
    if ts == [] then true
    else Enabled(s, ts[0]) && (StaysWellFormed(s, ts[0]); Runs(Stepped(s, ts[0]), ts[1..]))
  }

  ghost function After(s: System, ts: seq<Timed>): System
    requires WellFormed(s) && Runs(s, ts)
    decreases |ts|
  {
    if ts == [] then s else StaysWellFormed(s, ts[0]); After(Stepped(s, ts[0]), ts[1..])
  }

  // ---- Conservation ----

  /** The attempts that hold a connection of peer i. */
  function Holding(conns: seq<Conn>, i: nat): nat {
    if conns == [] then 0
    else Holding(conns[..|conns| - 1], i)
         + (if conns[|conns| - 1].peer == i && !conns[|conns| - 1].phase.Closed? then 1 else 0)
  }

  function Holds(c: Conn, i: nat): nat { if c.peer == i && !c.phase.Closed? then 1 else 0 }

  lemma {:induction false} HoldingUpdate(conns: seq<Conn>, k: nat, c: Conn, i: nat)
    requires k < |conns|
    ensures Holding(conns[k := c], i) + Holds(conns[k], i) == Holding(conns, i) + Holds(c, i)
  {
    var n := |conns| - 1;
    if k < n {
      HoldingUpdate(conns[..n], k, c, i);
      assert conns[k := c][..n] == conns[..n][k := c];
    } else {
      assert conns[k := c][..n] == conns[..n];
    }
  }

  lemma HoldingAppend(conns: seq<Conn>, c: Conn, i: nat)
    ensures Holding(conns + [c], i) == Holding(conns, i) + Holds(c, i)
  {
    assert (conns + [c])[..|conns|] == conns;
  }

  /** Peer i's counter is the number of its waiting, open and stranded connections, in 32 bits. */
  predicate CountsAt(s: System, i: nat)
    requires i < |s.group.peers|
  {
    s.group.peers[i].active == Holding(s.conns, i) % U32
  }

  ghost predicate Conserved(s: System) { forall i: nat | i < |s.group.peers| :: CountsAt(s, i) }

  /** `release` finds the connection's own peer. */
  predicate FindsOwnPeer(s: System, k: nat)
    requires k < |s.conns| && s.conns[k].peer < |s.group.peers|
  {
    FirstPeer(s.group.peers, s.group.peers[s.conns[k].peer].addr) == Some(s.conns[k].peer)
  }

  ghost predicate DistinctAddrs(peers: seq<Peer>) {
    forall i, j | 0 <= i < j < |peers| :: peers[i].addr != peers[j].addr
  }

  lemma DistinctFindsOwn(s: System, k: nat)
    requires DistinctAddrs(s.group.peers) && k < |s.conns| && s.conns[k].peer < |s.group.peers|
    ensures FindsOwnPeer(s, k)
  {
  }

  lemma HoldingStep(s: System, t: Timed, i: nat)
    requires WellFormed(s) && Enabled(s, t) && i < |s.group.peers|
    ensures Holding(Stepped(s, t).conns, i) == Holding(s.conns, i) + Delta(s, t, i)
  {
    hide IsPick, Holding;
    match t.step {
      case Connect(_, p) =>
        PickIsUp(s.group, t.at, t.step.hash, p);
        HoldingAppend(s.conns, Conn(p, Connecting(t.at)), i);
      case Success(k) => HoldingUpdate(s.conns, k, Conn(s.conns[k].peer, Open), i);
      case NoDelayError(k) => HoldingUpdate(s.conns, k, Conn(s.conns[k].peer, Stranded), i);
      case Failure(k) => HoldingUpdate(s.conns, k, Conn(s.conns[k].peer, Closed), i);
      case Done(k) => HoldingUpdate(s.conns, k, Conn(s.conns[k].peer, Closed), i);
      case Check(_, _, _) =>
    }
  }

  /** How a step moves peer i's counter. */
  function Delta(s: System, t: Timed, i: nat): int
    requires t.step.Success? || t.step.NoDelayError? || t.step.Failure? || t.step.Done? ==> t.step.conn < |s.conns|
  {
    match t.step
    case Connect(_, p) => if p == i then 1 else 0
    case Failure(k) => if s.conns[k].peer == i then -1 else 0
    case Done(k) => if s.conns[k].peer == i then -1 else 0
    case _ => 0
  }

  lemma ActiveStep(s: System, t: Timed, i: nat)
    requires WellFormed(s) && Enabled(s, t) && i < |s.group.peers|
    requires t.step.Done? ==> FindsOwnPeer(s, t.step.conn)
    ensures i < |Stepped(s, t).group.peers|
    ensures Stepped(s, t).group.peers[i].active == Moved(s.group.peers[i].active, Delta(s, t, i))
  {
    hide IsPick, FirstPeer;
    if t.step.Connect? { PickIsUp(s.group, t.at, t.step.hash, t.step.peer); }
  }

  /** A 32-bit counter moved one down, not at all, or one up. */
  function Moved(n: nat, d: int): nat { if d == 1 then (n + 1) % U32 else if d == -1 then (n + U32 - 1) % U32 else n }

  lemma MovesTogether(n: nat, d: int)
    requires -1 <= d <= 1 && n + d >= 0
    ensures Moved(n % U32, d) == (n + d) % U32
  {
  }

  lemma CountsStep(s: System, t: Timed, i: nat)
    requires WellFormed(s) && Enabled(s, t) && i < |s.group.peers| && CountsAt(s, i)
    requires t.step.Done? ==> FindsOwnPeer(s, t.step.conn)
    ensures i < |Stepped(s, t).group.peers| && CountsAt(Stepped(s, t), i)
  {
    HoldingStep(s, t, i);
    ActiveStep(s, t, i);
    MovesTogether(Holding(s.conns, i), Delta(s, t, i));
    hide Stepped, Enabled, WellFormed, FindsOwnPeer, Delta, Moved, Holding;
  }

  /** A release keeps the counters right exactly when its address leads to the connection's own peer. */
  lemma ReleaseConserves(s: System, t: Timed)
    requires WellFormed(s) && Enabled(s, t) && t.step.Done? && Conserved(s)
    ensures Conserved(Stepped(s, t)) <==> FindsOwnPeer(s, t.step.conn)
  {
    var i := s.conns[t.step.conn].peer;
    if FindsOwnPeer(s, t.step.conn) {
      forall j: nat | j < |Stepped(s, t).group.peers| ensures CountsAt(Stepped(s, t), j) {
        StaysWellFormed(s, t);
        CountsStep(s, t, j);
      }
    } else {
      HoldingStep(s, t, i);
      hide Holding;
      assert CountsAt(s, i);
      assert !CountsAt(Stepped(s, t), i);
    }
  }

  lemma AddrsStay(s: System, t: Timed)
    requires WellFormed(s) && Enabled(s, t)
    ensures |Stepped(s, t).group.peers| == |s.group.peers|
    ensures forall i | 0 <= i < |s.group.peers| :: Stepped(s, t).group.peers[i].addr == s.group.peers[i].addr
    ensures Stepped(s, t).group.failTimeout == s.group.failTimeout && Stepped(s, t).group.maxFails == s.group.maxFails
  {
    hide IsPick;
    if t.step.Connect? { PickIsUp(s.group, t.at, t.step.hash, t.step.peer); }
  }

  /** With distinct addresses, every run from a conserved state stays conserved. */
  lemma {:induction false} RunConserves(s: System, ts: seq<Timed>)
    requires WellFormed(s) && Runs(s, ts) && Conserved(s) && DistinctAddrs(s.group.peers)
    ensures Conserved(After(s, ts))
    decreases |ts|
  {
    hide Stepped, Enabled, CountsAt;
    if ts != [] {
      var next := Stepped(s, ts[0]);
      StaysWellFormed(s, ts[0]);
      AddrsStay(s, ts[0]);
      if ts[0].step.Done? { DoneConn(s, ts[0]); DistinctFindsOwn(s, ts[0].step.conn); }
      forall i: nat | i < |next.group.peers| ensures CountsAt(next, i) { CountsStep(s, ts[0], i); }
      RunConserves(next, ts[1..]);
    }
  }

  lemma DoneConn(s: System, t: Timed)
    requires WellFormed(s) && Enabled(s, t) && t.step.Done?
    ensures t.step.conn < |s.conns| && s.conns[t.step.conn].peer < |s.group.peers|
  {
  }

  /** No counter is taken below zero while fewer than 2^32 connections are held. */
  lemma NoUnderflow(s: System, t: Timed)
    requires WellFormed(s) && Enabled(s, t) && Conserved(s) && (t.step.Failure? || t.step.Done?)
    requires Holding(s.conns, s.conns[t.step.conn].peer) < U32
    ensures s.group.peers[s.conns[t.step.conn].peer].active > 0
  {
    var k := t.step.conn;
    var i := s.conns[k].peer;
    HoldingUpdate(s.conns, k, Conn(i, Closed), i);
    assert CountsAt(s, i);
  }

  lemma NewIsConserved(peers: seq<(string, nat)>, policy: Policy, failTimeout: nat, maxFails: nat)
    ensures Conserved(NewSystem(NewGroup(peers, policy, failTimeout, maxFails)))
  {
  }

  lemma AvailableGrows(peers: seq<Peer>, now: nat, n: nat)
    requires 0 < n <= |peers| && peers[n - 1].downUntil <= now
    ensures Available(peers, now, n) == Available(peers, now, n - 1) + [n - 1]
  {
  }

  function FirstPlaces(n: nat): (r: seq<nat>)
    ensures |r| == n && forall i | 0 <= i < n :: r[i] == i
  {
    if n == 0 then [] else FirstPlaces(n - 1) + [n - 1]
  }

  lemma {:induction false} AllUp(peers: seq<Peer>, now: nat, n: nat)
    requires n <= |peers| && forall i | 0 <= i < n :: peers[i].downUntil <= now
    ensures Available(peers, now, n) == FirstPlaces(n)
    decreases n
  {
    if n > 0 {
      AllUp(peers, now, n - 1);
      AvailableGrows(peers, now, n);
      hide Available;
    }
  }

  // ---- Stranded connections ----

  /** The attempts of peer i that are waiting or open, and those that no one will ever release. */
  function InUse(conns: seq<Conn>, i: nat): nat {
    if conns == [] then 0
    else InUse(conns[..|conns| - 1], i)
         + (if conns[|conns| - 1].peer == i && (conns[|conns| - 1].phase.Connecting? || conns[|conns| - 1].phase.Open?)
            then 1 else 0)
  }

  function StrandedAt(conns: seq<Conn>, i: nat): nat {
    if conns == [] then 0
    else StrandedAt(conns[..|conns| - 1], i)
         + (if conns[|conns| - 1].peer == i && conns[|conns| - 1].phase.Stranded? then 1 else 0)
  }

  lemma {:induction false} HeldIsUsedOrStranded(conns: seq<Conn>, i: nat)
    ensures Holding(conns, i) == InUse(conns, i) + StrandedAt(conns, i)
  {
    if conns != [] { HeldIsUsedOrStranded(conns[..|conns| - 1], i); }
  }

  lemma StrandedStep(s: System, t: Timed, k: nat)
    requires WellFormed(s) && Enabled(s, t) && k < |s.conns| && s.conns[k].phase.Stranded?
    ensures k < |Stepped(s, t).conns| && Stepped(s, t).conns[k] == s.conns[k]
  {
    hide IsPick, FirstPeer, MarkFail;
    if t.step.Connect? { PickIsUp(s.group, t.at, t.step.hash, t.step.peer); }
  }

  /** Once `set_nodelay` has failed on a connection, it is counted in every later state of every run. */
  lemma {:induction false} StrandedForEver(s: System, ts: seq<Timed>, k: nat)
    requires WellFormed(s) && Runs(s, ts) && k < |s.conns| && s.conns[k].phase.Stranded?
    ensures k < |After(s, ts).conns| && After(s, ts).conns[k] == s.conns[k]
    decreases |ts|
  {
    hide Stepped, Enabled;
    if ts != [] {
      StaysWellFormed(s, ts[0]);
      StrandedStep(s, ts[0], k);
      StrandedForEver(Stepped(s, ts[0]), ts[1..], k);
    }
  }

  lemma ModuloParts(a: nat, b: nat)
    ensures (a + b) % U32 == a % U32 <==> b % U32 == 0
  {
  }

  lemma ExactWhenConserved(s: System, i: nat)
    requires Conserved(s) && i < |s.group.peers|
    ensures s.group.peers[i].active == InUse(s.conns, i) % U32 <==> StrandedAt(s.conns, i) % U32 == 0
  {
    assert CountsAt(s, i);
    hide InUse, StrandedAt, Holding;
    HeldIsUsedOrStranded(s.conns, i);
    ModuloParts(InUse(s.conns, i), StrandedAt(s.conns, i));
  }

  /** In every run of a new group whose addresses are distinct, peer i's counter is the number of its
      waiting and open connections exactly when the number of its stranded ones is a multiple of 2^32. */
  lemma CounterIsExact(peers: seq<(string, nat)>, policy: Policy, failTimeout: nat, maxFails: nat, ts: seq<Timed>,
                       i: nat)
    requires Runs(NewSystem(NewGroup(peers, policy, failTimeout, maxFails)), ts)
    requires DistinctAddrs(NewGroup(peers, policy, failTimeout, maxFails).peers)
    requires i < |After(NewSystem(NewGroup(peers, policy, failTimeout, maxFails)), ts).group.peers|
    ensures var s := After(NewSystem(NewGroup(peers, policy, failTimeout, maxFails)), ts);
      s.group.peers[i].active == InUse(s.conns, i) % U32 <==> StrandedAt(s.conns, i) % U32 == 0
  {
    var s0 := NewSystem(NewGroup(peers, policy, failTimeout, maxFails));
    NewIsConserved(peers, policy, failTimeout, maxFails);
    assert s0.group == NewGroup(peers, policy, failTimeout, maxFails);
    hide *;
    RunConserves(s0, ts);
    ExactWhenConserved(After(s0, ts), i);
  }

  // ---- Every policy picks ----

  lemma {:induction false} SomeFewest(peers: seq<Peer>, up: seq<nat>, n: nat) returns (a: nat)
    requires 0 < n <= |up| && forall b | 0 <= b < |up| :: up[b] < |peers|
    ensures a < n && forall b | 0 <= b < n :: NotBusier(peers[up[a]], a, peers[up[b]], b)
  {
    a := 0;
    if n > 1 {
      a := SomeFewest(peers, up, n - 1);
      if peers[up[n - 1]].active < peers[up[a]].active { a := n - 1; }
    }
  }

  lemma SomePlace(g: Group, now: nat, hash: nat, up: seq<nat>) returns (a: nat)
    requires up == Available(g.peers, now, |g.peers|) && up != []
    ensures a < |up| && Chosen(g, now, hash, up, a, up[a])
  {
    hide Spread, RR.Walk;
    match g.policy {
      case RoundRobin => a := RR.Walk(Weights(g.peers, up), g.counter);
      case LeastConn => a := SomeFewest(g.peers, up, |up|);
      case IpHash => a := hash % |up|;
      case RandomPeer => a := Spread(now) % |up|;
    }
  }

  /** While a peer is up, the policy picks one. */
  lemma SomePick(g: Group, now: nat, hash: nat, j: nat) returns (i: nat)
    requires j < |g.peers| && g.peers[j].downUntil <= now
    ensures IsPick(g, now, hash, i)
  {
    hide IsPick, Chosen;
    var up := Available(g.peers, now, |g.peers|);
    assert j in up;
    hide Available;
    var a := SomePlace(g, now, hash, up);
    i := up[a];
    PickedIs(g, now, hash, up, a);
  }

  // ---- Longer runs ----

  lemma {:induction false} RunsJoin(s: System, a: seq<Timed>, b: seq<Timed>)
    requires WellFormed(s) && Runs(s, a) && WellFormed(After(s, a)) && Runs(After(s, a), b)
    ensures Runs(s, a + b) && After(s, a + b) == After(After(s, a), b)
    decreases |a|
  {
    hide Stepped, Enabled, WellFormed;
    if a == [] {
      assert a + b == b;
    } else {
      StaysWellFormed(s, a[0]);
      RunsJoin(Stepped(s, a[0]), a[1..], b);
      assert (a + b)[1..] == a[1..] + b && (a + b)[0] == a[0];
    }
  }

  predicate CheckFree(ts: seq<Timed>) { forall t | t in ts :: !t.step.Check? }

  lemma OneStep(s: System, t: Timed)
    requires WellFormed(s) && Enabled(s, t)
    ensures WellFormed(Stepped(s, t)) && Runs(s, [t]) && After(s, [t]) == Stepped(s, t)
  {
    StaysWellFormed(s, t);
    hide Stepped, Enabled, WellFormed;
    assert [t][1..] == [];
  }

  lemma RunsOneMore(s: System, ts: seq<Timed>, t: Timed)
    requires WellFormed(s) && Runs(s, ts) && CheckFree(ts) && WellFormed(After(s, ts))
    requires Enabled(After(s, ts), t) && !t.step.Check?
    ensures Runs(s, ts + [t]) && CheckFree(ts + [t])
    ensures After(s, ts + [t]) == Stepped(After(s, ts), t) && WellFormed(Stepped(After(s, ts), t))
  {
    OneStep(After(s, ts), t);
    hide Stepped, Enabled, WellFormed, Runs, After;
    RunsJoin(s, ts, [t]);
  }

  /** What the first step of an attempt does. */
  lemma ConnectEffect(s: System, at: nat, hash: nat, p: nat)
    requires WellFormed(s) && Enabled(s, Timed(at, Connect(hash, p)))
    ensures p < |s.group.peers| && s.group.peers[p].downUntil <= at
    ensures Stepped(s, Timed(at, Connect(hash, p)))
         == System(Begun(s.group, p), s.conns + [Conn(p, Connecting(at))], s.failures, s.lastFail, at)
  {
    PickIsUp(s.group, at, hash, p);
    hide IsPick, Begun;
  }

  /** A connection attempt succeeds, and is released. */
  lemma ConnectAndRelease(s: System, at: nat, hash: nat, j: nat) returns (s2: System)
    requires WellFormed(s) && Enabled(s, Timed(at, Connect(hash, j))) && Conserved(s)
    ensures j < |s.group.peers|
    ensures var s1 := Stepped(s, Timed(at, Connect(hash, j)));
      && WellFormed(s1) && Enabled(s1, Timed(at, Success(|s.conns|)))
      && s2 == Stepped(s1, Timed(at, Success(|s.conns|)))
    ensures WellFormed(s2) && Enabled(s2, Timed(at, Done(|s.conns|))) && Conserved(s2)
    ensures |s2.conns| == |s.conns| + 1 && s2.conns[|s.conns|].peer == j && |s2.group.peers| == |s.group.peers|
    ensures forall i | 0 <= i < |s.group.peers| :: s2.group.peers[i].addr == s.group.peers[i].addr
  {
    PickIsUp(s.group, at, hash, j);
    var a, b := Timed(at, Connect(hash, j)), Timed(at, Success(|s.conns|));
    hide IsPick;
    StaysWellFormed(s, a);
    AddrsStay(s, a);
    var s1 := Stepped(s, a);
    assert s1.conns == s.conns + [Conn(j, Connecting(at))];
    StaysWellFormed(s1, b);
    AddrsStay(s1, b);
    s2 := Stepped(s1, b);
    assert s2.conns == s1.conns[|s.conns| := Conn(j, Open)];
    forall k: nat | k < |s1.group.peers| ensures CountsAt(s1, k) { CountsStep(s, a, k); }
    forall k: nat | k < |s2.group.peers| ensures CountsAt(s2, k) { CountsStep(s1, b, k); }
  }

  /** A run that can go on with a connection to a peer that `release` does not find leads to wrong
      counters. */
  lemma PickBreaks(s: System, ts: seq<Timed>, at: nat, hash: nat, i: nat, j: nat) returns (bad: seq<Timed>)
    requires WellFormed(s) && Runs(s, ts) && CheckFree(ts) && WellFormed(After(s, ts))
    requires Enabled(After(s, ts), Timed(at, Connect(hash, j)))
    requires i < j < |After(s, ts).group.peers| && After(s, ts).group.peers[i].addr == After(s, ts).group.peers[j].addr
    ensures Runs(s, bad) && CheckFree(bad) && !Conserved(After(s, bad))
  {
    var s0 := After(s, ts);
    if !Conserved(s0) {
      bad := ts;
    } else {
      var n := |s0.conns|;
      var a, b, c := Timed(at, Connect(hash, j)), Timed(at, Success(n)), Timed(at, Done(n));
      var s2 := ConnectAndRelease(s0, at, hash, j);
      assert !FindsOwnPeer(s2, n);
      ReleaseConserves(s2, c);
      hide Stepped, Enabled, WellFormed, Conserved, Runs, After, CheckFree;
      RunsOneMore(s, ts, a);
      RunsOneMore(s, ts + [a], b);
      RunsOneMore(s, ts + [a] + [b], c);
      bad := ts + [a] + [b] + [c];
    }
  }

  // ---- Reaching a peer: by failing all the others ----

  /** What is left of a peer before its failures take it down. */
  function Left(p: Peer, most: nat): nat { if p.fails < most then most - p.fails else 0 }

  function AllLeft(peers: seq<Peer>, most: nat): nat {
    if peers == [] then 0 else AllLeft(peers[..|peers| - 1], most) + Left(peers[|peers| - 1], most)
  }

  lemma {:induction false} AllLeftUpdate(peers: seq<Peer>, i: nat, p: Peer, most: nat)
    requires i < |peers|
    ensures AllLeft(peers[i := p], most) + Left(peers[i], most) == AllLeft(peers, most) + Left(p, most)
  {
    var n := |peers| - 1;
    if i < n {
      AllLeftUpdate(peers[..n], i, p, most);
      assert peers[i := p][..n] == peers[..n][i := p];
    } else {
      assert peers[i := p][..n] == peers[..n];
    }
  }

  /** At time zero, with peers failing: those still up have failures to spare. */
  ghost predicate Failing(s: System, most: nat) {
    && WellFormed(s) && s.clock == 0 && 0 < s.group.failTimeout < U64 && s.group.maxFails <= most < U32 && most > 0
    && (s.group.maxFails == most || most == 1)
    && forall i | 0 <= i < |s.group.peers| :: s.group.peers[i].downUntil > 0 || s.group.peers[i].fails < most
  }

  function ConnectAndFail(s: System, p: nat): seq<Timed> { [Timed(0, Connect(0, p)), Timed(0, Failure(|s.conns|))] }

  /** A peer that is connected to in vain. */
  function Refused(g: Group, p: nat): Group
    requires p < |g.peers|
  {
    MarkFail(Dropped(Begun(g, p), p), p, 0)
  }

  lemma RefusedEffect(s: System, p: nat)
    requires WellFormed(s) && s.clock == 0 && IsPick(s.group, 0, 0, p)
    ensures Runs(s, ConnectAndFail(s, p)) && CheckFree(ConnectAndFail(s, p)) && p < |s.group.peers|
    ensures s.group.peers[p].downUntil == 0 && WellFormed(After(s, ConnectAndFail(s, p)))
    ensures After(s, ConnectAndFail(s, p)).group == Refused(s.group, p) && After(s, ConnectAndFail(s, p)).clock == 0
  {
    hide IsPick, Begun, MarkFail, Dropped;
    var a, b := Timed(0, Connect(0, p)), Timed(0, Failure(|s.conns|));
    ConnectEffect(s, 0, 0, p);
    OneStep(s, a);
    var s1 := Stepped(s, a);
    assert s1.conns[|s.conns|] == Conn(p, Connecting(0)) && Enabled(s1, b);
    assert Stepped(s1, b).group == Refused(s.group, p) && Stepped(s1, b).clock == 0;
    hide Stepped, Enabled, WellFormed, Runs, After, CheckFree;
    RunsOneMore(s, [a], b);
    assert [a] + [b] == ConnectAndFail(s, p);
  }

  lemma RefusedSpends(s: System, p: nat, most: nat)
    requires Failing(s, most) && p < |s.group.peers| && s.group.peers[p].downUntil == 0
    ensures var g := Refused(s.group, p);
      && AllLeft(g.peers, most) < AllLeft(s.group.peers, most) && |g.peers| == |s.group.peers|
      && g.failTimeout == s.group.failTimeout && g.maxFails == s.group.maxFails
      && g.peers[p].addr == s.group.peers[p].addr && (g.peers[p].downUntil > 0 || g.peers[p].fails < most)
      && forall i | 0 <= i < |g.peers| && i != p :: g.peers[i] == s.group.peers[i]
  {
    var g := Refused(s.group, p);
    AllLeftUpdate(s.group.peers, p, g.peers[p], most);
    hide AllLeft;
    assert g.peers == s.group.peers[p := g.peers[p]];
  }

  lemma FailedConnect(s: System, p: nat, most: nat)
    requires Failing(s, most) && IsPick(s.group, 0, 0, p)
    ensures Runs(s, ConnectAndFail(s, p)) && CheckFree(ConnectAndFail(s, p))
    ensures var s2 := After(s, ConnectAndFail(s, p));
      && Failing(s2, most) && p < |s.group.peers| == |s2.group.peers|
      && AllLeft(s2.group.peers, most) < AllLeft(s.group.peers, most)
      && (forall i | 0 <= i < |s.group.peers| :: s2.group.peers[i].addr == s.group.peers[i].addr)
      && (forall i | 0 <= i < |s.group.peers| && i != p :: s2.group.peers[i] == s.group.peers[i])
  {
    RefusedEffect(s, p);
    RefusedSpends(s, p, most);
    hide Refused, IsPick, WellFormed, AllLeft, Runs, After, CheckFree;
  }

  /** With a fail timeout every policy comes to any peer that is up, once the others have failed. */
  lemma {:induction false} FailuresReach(s: System, most: nat, j: nat) returns (ts: seq<Timed>)
    requires Failing(s, most) && j < |s.group.peers| && s.group.peers[j].downUntil == 0
    ensures Runs(s, ts) && CheckFree(ts) && WellFormed(After(s, ts))
    ensures Enabled(After(s, ts), Timed(0, Connect(0, j))) && |After(s, ts).group.peers| == |s.group.peers|
    ensures forall i | 0 <= i < |s.group.peers| :: After(s, ts).group.peers[i].addr == s.group.peers[i].addr
    decreases AllLeft(s.group.peers, most)
  {
    var p := SomePick(s.group, 0, 0, j);
    if p == j {
      ts := [];
    } else {
      hide IsPick, AllLeft;
      FailedConnect(s, p, most);
      var step := ConnectAndFail(s, p);
      var rest := FailuresReach(After(s, step), most, j);
      hide Enabled, Runs, After, ConnectAndFail;
      RunsJoin(s, step, rest);
      ts := step + rest;
    }
  }

  // ---- Reaching a peer: when none ever goes down ----

  function AllWeights(peers: seq<Peer>): (ws: seq<nat>)
    ensures |ws| == |peers| && forall i | 0 <= i < |peers| :: ws[i] == peers[i].weight
  {
    seq(|peers|, i requires 0 <= i < |peers| => peers[i].weight)
  }

  /** Some counter value leads to peer j. */
  ghost predicate Pickable(ws: seq<nat>, j: nat) { ws != [] && exists c: nat :: RR.Walk(ws, c) == j }

  /** While the weights add up to less than 2^32, the pickable peers are those with a weight; without any
      weight it is the first one. */
  lemma PickableByWeight(ws: seq<nat>, j: nat)
    requires j < |ws| && RR.Sum(ws) < U32
    ensures Pickable(ws, j) <==> if RR.Sum(ws) == 0 then j == 0 else ws[j] > 0
  {
    if RR.Sum(ws) == 0 {
      RR.WalkFindsOwner(ws, 0);
      forall c: nat ensures RR.Walk(ws, c) == 0 { RR.WalkFindsOwner(ws, c); }
    } else {
      forall c: nat | RR.Walk(ws, c) == j ensures ws[j] > 0 { RR.WalkFindsOwner(ws, c); }
      if ws[j] > 0 {
        var c := RR.First(ws, j);
        RR.Interval(ws, j);
        RR.WalkFindsOwner(ws, c);
        RR.Small(c, U32);
        RR.Small(c, RR.Sum(ws));
        RR.OneOwner(ws, c, j, RR.Walk(ws, c));
      }
    }
  }

  lemma AllUpPick(g: Group, now: nat, hash: nat, i: nat)
    requires forall k | 0 <= k < |g.peers| :: g.peers[k].downUntil <= now
    requires g.peers != [] && g.policy.RoundRobin?
    ensures IsPick(g, now, hash, i) <==> i == RR.Walk(AllWeights(g.peers), g.counter)
  {
    var up := Available(g.peers, now, |g.peers|);
    AllUp(g.peers, now, |g.peers|);
    hide RR.Walk;
    assert Weights(g.peers, up) == AllWeights(g.peers);
    if i == RR.Walk(AllWeights(g.peers), g.counter) { assert Chosen(g, now, hash, up, i, i); }
  }

  /** A round-robin group of these peers at time zero, all up, with its counter at n. */
  ghost predicate CountedTo(s: System, peers: seq<Peer>, n: nat) {
    && s.clock == 0 && s.group.policy.RoundRobin? && s.group.counter == n && |s.group.peers| == |peers|
    && forall k | 0 <= k < |peers| :: s.group.peers[k].downUntil == 0 && s.group.peers[k].addr == peers[k].addr
                                      && s.group.peers[k].weight == peers[k].weight
  }

  lemma CountOneMore(s: System, peers: seq<Peer>, n: nat, i: nat)
    requires WellFormed(s) && CountedTo(s, peers, n) && n + 1 < U32 && Enabled(s, Timed(0, Connect(0, i)))
    ensures CountedTo(Stepped(s, Timed(0, Connect(0, i))), peers, n + 1)
  {
    ConnectEffect(s, 0, 0, i);
    hide Enabled, WellFormed, Stepped;
  }

  /** n connects of a round-robin group bring its counter to n. */
  lemma {:induction false} CounterReaches(s: System, peers: seq<Peer>, n: nat) returns (ts: seq<Timed>)
    requires WellFormed(s) && CountedTo(s, peers, 0) && peers != [] && n < U32
    ensures Runs(s, ts) && CheckFree(ts) && WellFormed(After(s, ts)) && CountedTo(After(s, ts), peers, n)
  {
    if n == 0 {
      ts := [];
    } else {
      var before := CounterReaches(s, peers, n - 1);
      var mid := After(s, before);
      var i := SomePick(mid.group, 0, 0, 0);
      hide IsPick, Runs, After, WellFormed, CheckFree, Stepped;
      CountOneMore(mid, peers, n - 1, i);
      hide CountedTo;
      RunsOneMore(s, before, Timed(0, Connect(0, i)));
      ts := before + [Timed(0, Connect(0, i))];
    }
  }

  lemma RoundRobinReaches(s: System, j: nat) returns (ts: seq<Timed>)
    requires WellFormed(s) && s.clock == 0 && s.group.policy.RoundRobin? && s.group.counter == 0 && j < |s.group.peers|
    requires forall k | 0 <= k < |s.group.peers| :: s.group.peers[k].downUntil == 0
    requires Pickable(AllWeights(s.group.peers), j)
    ensures Runs(s, ts) && CheckFree(ts) && WellFormed(After(s, ts))
    ensures Enabled(After(s, ts), Timed(0, Connect(0, j))) && |After(s, ts).group.peers| == |s.group.peers|
    ensures forall i | 0 <= i < |s.group.peers| :: After(s, ts).group.peers[i].addr == s.group.peers[i].addr
  {
    var ws := AllWeights(s.group.peers);
    var c: nat :| RR.Walk(ws, c) == j;
    assert RR.Walk(ws, c % U32) == j by { WalkRepeats(ws, c); }
    ts := CounterReaches(s, s.group.peers, c % U32);
    hide RR.Walk, Runs;
    assert AllWeights(After(s, ts).group.peers) == ws;
    AllUpPick(After(s, ts).group, 0, 0, j);
  }

  lemma WalkRepeats(ws: seq<nat>, c: nat)
    requires ws != []
    ensures RR.Walk(ws, c % U32) == RR.Walk(ws, c)
  {
  }

  /** A least-connections group of these peers at time zero, all up, with a connection to each of the
      first n. */
  ghost predicate TakenTo(s: System, peers: seq<Peer>, n: nat) {
    && s.clock == 0 && s.group.policy.LeastConn? && |s.group.peers| == |peers|
    && forall k | 0 <= k < |peers| :: s.group.peers[k].downUntil == 0 && s.group.peers[k].addr == peers[k].addr
                                      && s.group.peers[k].active == if k < n then 1 else 0
  }

  lemma TakeOneMore(s: System, peers: seq<Peer>, n: nat)
    requires WellFormed(s) && TakenTo(s, peers, n) && n < |peers|
    ensures Enabled(s, Timed(0, Connect(0, n))) && TakenTo(Stepped(s, Timed(0, Connect(0, n))), peers, n + 1)
  {
    FirstIdle(s.group, n);
    hide IsPick;
    ConnectEffect(s, 0, 0, n);
    hide WellFormed, Stepped;
  }

  /** n connects of a least-connections group take the first n peers, one each. */
  lemma {:induction false} FewestReaches(s: System, peers: seq<Peer>, n: nat) returns (ts: seq<Timed>)
    requires WellFormed(s) && TakenTo(s, peers, 0) && n <= |peers|
    ensures Runs(s, ts) && CheckFree(ts) && WellFormed(After(s, ts)) && TakenTo(After(s, ts), peers, n)
  {
    hide IsPick, WellFormed, TakenTo, Stepped, Enabled;
    if n == 0 {
      ts := [];
    } else {
      var before := FewestReaches(s, peers, n - 1);
      hide Runs, After, CheckFree;
      TakeOneMore(After(s, before), peers, n - 1);
      RunsOneMore(s, before, Timed(0, Connect(0, n - 1)));
      ts := before + [Timed(0, Connect(0, n - 1))];
    }
  }

  lemma FirstIdle(g: Group, n: nat)
    requires g.policy.LeastConn? && n < |g.peers|
    requires forall k | 0 <= k < |g.peers| :: g.peers[k].downUntil == 0 && g.peers[k].active == if k < n then 1 else 0
    ensures IsPick(g, 0, 0, n)
  {
    var up := Available(g.peers, 0, |g.peers|);
    AllUp(g.peers, 0, |g.peers|);
    assert Chosen(g, 0, 0, up, n, n);
  }

  lemma HashReaches(g: Group, now: nat, j: nat)
    requires g.policy.IpHash? && j < |g.peers| && forall i | 0 <= i < |g.peers| :: g.peers[i].downUntil <= now
    ensures IsPick(g, now, j, j)
  {
    var up := Available(g.peers, now, |g.peers|);
    AllUp(g.peers, now, |g.peers|);
    assert j % |up| == j by { RR.Small(j, |up|); }
    assert Chosen(g, now, j, up, j, j);
  }

  function DifferentBit(a: nat, b: nat): nat { if a % 2 != b % 2 then 1 else 0 }

  lemma XorStep(a: nat, b: nat)
    ensures Xor(a, b) == 2 * Xor(a / 2, b / 2) + DifferentBit(a, b)
    ensures Xor(a, b) / 2 == Xor(a / 2, b / 2) && Xor(a, b) % 2 == DifferentBit(a, b)
  {
    assert Xor(0, 0) == 0;
    HalfAndBit(Xor(a / 2, b / 2), DifferentBit(a, b));
  }

  lemma {:induction false} XorCancels(a: nat, b: nat)
    ensures Xor(Xor(a, b), b) == a
    decreases a + b
  {
    if a > 0 || b > 0 {
      XorCancels(a / 2, b / 2);
      hide Xor;
      XorStep(a, b);
      XorStep(Xor(a, b), b);
      HalfAndBit(a / 2, a % 2);
    }
  }

  lemma {:induction false} ShiftXor(a: nat, b: nat, k: nat)
    ensures ShiftRight(Xor(a, b), k) == Xor(ShiftRight(a, k), ShiftRight(b, k))
    decreases k
  {
    if k > 0 {
      XorStep(a, b);
      hide Xor;
      ShiftXor(a / 2, b / 2, k - 1);
    }
  }

  /** The number that gives n by an exclusive or with itself, shifted by w bits. */
  function Unspread(n: nat, w: nat): nat
    requires w > 0
  {
    if n == 0 then 0 else Xor(n, Unspread(ShiftRight(n, w), w))
  }

  lemma {:induction false} UnspreadSpreads(n: nat, w: nat)
    requires w > 0
    ensures Xor(Unspread(n, w), ShiftRight(Unspread(n, w), w)) == n
  {
    hide ShiftRight, Xor;
    if n == 0 {
      ZeroSpreads(w);
    } else {
      var high := ShiftRight(n, w);
      var rest := Unspread(high, w);
      UnspreadSpreads(high, w);
      ShiftXor(n, rest, w);
      XorCancels(rest, ShiftRight(rest, w));
      XorCancels(n, rest);
    }
  }

  lemma ZeroSpreads(w: nat)
    ensures Xor(0, ShiftRight(0, w)) == 0
  {
    ShiftOfZero(w);
    assert Xor(0, 0) == 0;
  }

  function Pow2(k: nat): (p: nat)
    ensures p > 0
  {
    if k == 0 then 1 else 2 * Pow2(k - 1)
  }

  lemma {:induction false} FitsBits(n: nat, k: nat)
    ensures n < Pow2(k) <==> ShiftRight(n, k) == 0
    decreases k
  {
    if k > 0 { FitsBits(n / 2, k - 1); }
  }

  lemma {:induction false} ShiftOfZero(k: nat)
    ensures ShiftRight(0, k) == 0
  {
    if k > 0 { ShiftOfZero(k - 1); }
  }

  lemma {:induction false} ShiftTwice(n: nat, a: nat, b: nat)
    ensures ShiftRight(ShiftRight(n, a), b) == ShiftRight(n, a + b)
    decreases a
  {
    if a > 0 { ShiftTwice(n / 2, a - 1, b); }
  }

  lemma {:induction false} UnspreadFits(n: nat, w: nat, k: nat)
    requires w > 0 && ShiftRight(n, k) == 0
    ensures ShiftRight(Unspread(n, w), k) == 0
    decreases n
  {
    ShiftOfZero(k);
    ShiftOfZero(w);
    if n > 0 {
      ShiftTwice(n, w, k);
      ShiftTwice(n, k, w);
      UnspreadFits(ShiftRight(n, w), w, k);
      ShiftXor(n, Unspread(ShiftRight(n, w), w), k);
      assert Xor(0, 0) == 0;
    }
  }

  lemma SixtyFourBits()
    ensures Pow2(64) == U64
  {
    assert Pow2(8) == 256;
    assert Pow2(16) == 256 * Pow2(8);
    assert Pow2(24) == 256 * Pow2(16);
    assert Pow2(32) == 256 * Pow2(24);
    assert Pow2(40) == 256 * Pow2(32);
    assert Pow2(48) == 256 * Pow2(40);
    assert Pow2(56) == 256 * Pow2(48);
    assert Pow2(64) == 256 * Pow2(56);
  }

  /** The clock's spread reaches every index. */
  lemma ClockFor(j: nat) returns (now: nat)
    requires j < U64
    ensures Spread(now) == j
  {
    now := Unspread(j, 17);
    SixtyFourBits();
    FitsBits(j, 64);
    UnspreadFits(j, 17, 64);
    FitsBits(now, 64);
    UnspreadSpreads(j, 17);
    hide Unspread, Xor, ShiftRight, Pow2;
    RR.Small(now, U64);
  }

  lemma RandomReaches(g: Group, j: nat) returns (now: nat)
    requires g.policy.RandomPeer? && j < |g.peers| <= U64 && forall i | 0 <= i < |g.peers| :: g.peers[i].downUntil == 0
    ensures IsPick(g, now, 0, j)
  {
    now := ClockFor(j);
    hide Spread;
    var up := Available(g.peers, now, |g.peers|);
    AllUp(g.peers, now, |g.peers|);
    assert j % |up| == j by { RR.Small(j, |up|); }
    assert Chosen(g, now, 0, up, j, j);
  }

  // ---- When the counters stay right ----

  /** Two peers may share an address only when the second is never picked: no peer ever goes down, and
      the round-robin slots do not lead to it. */
  ghost predicate AddrsApart(peers: seq<Peer>, policy: Policy, failTimeout: nat) {
    forall i, j | 0 <= i < j < |peers| && peers[i].addr == peers[j].addr ::
      failTimeout == 0 && policy.RoundRobin? && !Pickable(AllWeights(peers), j)
  }

  /** The state of a round-robin group whose peers never go down. */
  ghost predicate Steady(s: System, ws: seq<nat>) {
    && WellFormed(s) && s.group.policy.RoundRobin? && s.group.failTimeout == 0 && AllWeights(s.group.peers) == ws
    && (forall k | 0 <= k < |s.group.peers| :: s.group.peers[k].downUntil == 0)
    && forall c | c in s.conns :: Pickable(ws, c.peer)
  }

  lemma SteadyStep(s: System, t: Timed, ws: seq<nat>)
    requires Steady(s, ws) && Enabled(s, t)
    ensures Steady(Stepped(s, t), ws)
  {
    hide FirstPeer, Pickable, IsPick;
    StaysWellFormed(s, t);
    if t.step.Connect? {
      PickIsUp(s.group, t.at, t.step.hash, t.step.peer);
      AllUpPick(s.group, t.at, t.step.hash, t.step.peer);
      CountersLead(ws, s.group.counter);
    }
  }

  lemma CountersLead(ws: seq<nat>, c: nat)
    requires ws != []
    ensures Pickable(ws, RR.Walk(ws, c))
  {
  }

  lemma ApartFindsOwn(s: System, k: nat, ws: seq<nat>)
    requires Steady(s, ws) && AddrsApart(s.group.peers, RoundRobin, 0) && k < |s.conns|
    ensures s.conns[k].peer < |s.group.peers| && FindsOwnPeer(s, k)
  {
    assert s.conns[k] in s.conns;
    hide Pickable;
  }

  lemma {:induction false} SteadyConserves(s: System, ts: seq<Timed>, ws: seq<nat>)
    requires Steady(s, ws) && Runs(s, ts) && Conserved(s) && AddrsApart(s.group.peers, RoundRobin, 0)
    ensures Conserved(After(s, ts))
    decreases |ts|
  {
    hide Stepped, Enabled, CountsAt, Pickable;
    if ts != [] {
      var next := Stepped(s, ts[0]);
      SteadyStep(s, ts[0], ws);
      AddrsStay(s, ts[0]);
      if ts[0].step.Done? { DoneConn(s, ts[0]); ApartFindsOwn(s, ts[0].step.conn, ws); }
      forall i: nat | i < |next.group.peers| ensures CountsAt(next, i) { CountsStep(s, ts[0], i); }
      assert AddrsApart(next.group.peers, RoundRobin, 0);
      SteadyConserves(next, ts[1..], ws);
    }
  }

  lemma ApartConserves(g: Group, ts: seq<Timed>)
    requires AddrsApart(g.peers, g.policy, g.failTimeout) && Conserved(NewSystem(g)) && Runs(NewSystem(g), ts)
    requires forall k | 0 <= k < |g.peers| :: g.peers[k].downUntil == 0
    ensures Conserved(After(NewSystem(g), ts))
  {
    hide Pickable, Runs, After, Conserved;
    if DistinctAddrs(g.peers) {
      RunConserves(NewSystem(g), ts);
    } else {
      SteadyConserves(NewSystem(g), ts, AllWeights(g.peers));
    }
  }

  /** Any peer that is not kept apart can be reached without a health check. */
  lemma Reaches(g: Group, i: nat, j: nat) returns (ts: seq<Timed>, at: nat, hash: nat)
    requires forall k | 0 <= k < |g.peers| ::
      g.peers[k].downUntil == 0 && g.peers[k].active == 0 && g.peers[k].fails == 0
    requires g.counter == 0 && g.failTimeout < U64 && g.maxFails < U32 && i < j < |g.peers| <= U64
    requires g.failTimeout == 0 && g.policy.RoundRobin? ==> Pickable(AllWeights(g.peers), j)
    ensures var s := NewSystem(g);
      && Runs(s, ts) && CheckFree(ts) && WellFormed(After(s, ts)) && |After(s, ts).group.peers| == |g.peers|
      && Enabled(After(s, ts), Timed(at, Connect(hash, j)))
      && forall k | 0 <= k < |g.peers| :: After(s, ts).group.peers[k].addr == g.peers[k].addr
  {
    var s := NewSystem(g);
    ts, at, hash := [], 0, 0;
    hide Pickable, IsPick, Spread;
    if g.failTimeout > 0 {
      var most := if g.maxFails == 0 then 1 else g.maxFails;
      assert Failing(s, most);
      ts := FailuresReach(s, most, j);
    } else {
      match g.policy {
        case RoundRobin => ts := RoundRobinReaches(s, j);
        case LeastConn =>
          ts := FewestReaches(s, g.peers, j);
          FirstIdle(After(s, ts).group, j);
        case IpHash =>
          hash := j;
          HashReaches(g, 0, j);
        case RandomPeer => at := RandomReaches(g, j);
      }
    }
  }

  /** The counters stay right in every run, with or without health checks, exactly when addresses are
      distinct, up to peers that are never picked: `release` takes a connection off the first peer that
      has its address, whichever peer it was made to. */
  lemma CountersNeedDistinctAddrs(peers: seq<(string, nat)>, policy: Policy, failTimeout: nat, maxFails: nat)
    requires failTimeout < U64 && maxFails < U32 && |peers| <= U64
    ensures var s := NewSystem(NewGroup(peers, policy, failTimeout, maxFails));
      (forall ts | Runs(s, ts) :: Conserved(After(s, ts))) <==> AddrsApart(s.group.peers, policy, failTimeout)
    ensures var s := NewSystem(NewGroup(peers, policy, failTimeout, maxFails));
      (forall ts | Runs(s, ts) && CheckFree(ts) :: Conserved(After(s, ts)))
        <==> AddrsApart(s.group.peers, policy, failTimeout)
  {
    var g := NewGroup(peers, policy, failTimeout, maxFails);
    NewIsConserved(peers, policy, failTimeout, maxFails);
    hide Runs, After, Conserved, WellFormed, Pickable, Enabled, CheckFree;
    if AddrsApart(g.peers, policy, failTimeout) {
      forall ts | Runs(NewSystem(g), ts) ensures Conserved(After(NewSystem(g), ts)) { ApartConserves(g, ts); }
    } else {
      var i: nat, j: nat :| i < j < |g.peers| && g.peers[i].addr == g.peers[j].addr
        && !(failTimeout == 0 && policy.RoundRobin? && !Pickable(AllWeights(g.peers), j));
      var ts, at, hash := Reaches(g, i, j);
      var bad := PickBreaks(NewSystem(g), ts, at, hash, i, j);
    }
  }

  /** The failing `set_nodelay` is within reach of every group: a run of one attempt leaves the counter of
      its peer at one with no connection waiting or open. */
  lemma StrandedIsReachable(peers: seq<(string, nat)>, policy: Policy, failTimeout: nat, maxFails: nat)
    returns (ts: seq<Timed>, i: nat)
    requires peers != []
    ensures var s0 := NewSystem(NewGroup(peers, policy, failTimeout, maxFails));
      && Runs(s0, ts) && i < |After(s0, ts).group.peers|
      && After(s0, ts).group.peers[i].active == 1 && InUse(After(s0, ts).conns, i) == 0
  {
    var s0 := NewSystem(NewGroup(peers, policy, failTimeout, maxFails));
    i := SomePick(s0.group, 0, 0, 0);
    hide IsPick;
    var a, b := Timed(0, Connect(0, i)), Timed(0, NoDelayError(0));
    ConnectEffect(s0, 0, 0, i);
    OneStep(s0, a);
    var s1 := Stepped(s0, a);
    assert s1.conns == [Conn(i, Connecting(0))];
    hide Stepped, NewGroup, NewSystem;
    Strand(s1, i);
    NothingInUse(i);
    hide Runs, After, WellFormed, Enabled, InUse, CheckFree;
    RunsOneMore(s0, [a], b);
    ts := [a] + [b];
  }

  lemma Strand(s: System, i: nat)
    requires WellFormed(s) && s.conns == [Conn(i, Connecting(0))] && s.clock == 0
    ensures Enabled(s, Timed(0, NoDelayError(0)))
    ensures Stepped(s, Timed(0, NoDelayError(0))).group == s.group
    ensures Stepped(s, Timed(0, NoDelayError(0))).conns == [Conn(i, Stranded)]
  {
  }

  lemma NothingInUse(i: nat)
    ensures InUse([Conn(i, Stranded)], i) == 0
  {
    assert InUse([], i) == 0 && [Conn(i, Stranded)][..0] == [];
  }

  // ---- Failures and down timers ----

  /** The failure counter counts the failures since the last reset; the timer runs at most the fail
      timeout past the latest failure. */
  predicate TimersAt(s: System, i: nat)
    requires i < |s.group.peers| == |s.failures| == |s.lastFail|
  {
    && s.group.peers[i].fails == s.failures[i] % U32
    && s.group.peers[i].downUntil <= s.lastFail[i] + s.group.failTimeout
    && s.lastFail[i] <= s.clock
  }

  ghost predicate TimersHold(s: System)
    requires WellFormed(s)
  {
    forall i: nat | i < |s.group.peers| :: TimersAt(s, i)
  }

  lemma TimersStep(s: System, t: Timed, i: nat)
    requires WellFormed(s) && Enabled(s, t) && i < |s.group.peers| && TimersAt(s, i)
    ensures |Stepped(s, t).group.peers| == |Stepped(s, t).failures| == |Stepped(s, t).lastFail| == |s.group.peers|
    ensures TimersAt(Stepped(s, t), i)
  {
    hide IsPick, FirstPeer, MarkFail;
    StaysWellFormed(s, t);
    match t.step {
      case Connect(hash, p) => PickIsUp(s.group, t.at, hash, p);
      case Success(k) =>
      case NoDelayError(k) =>
      case Failure(k) =>
        assert s.conns[k] in s.conns;
        var p := s.conns[k].peer;
        FailTimed(Dropped(s.group, p), p, s.conns[k].phase.began, i, s.failures[i], s.lastFail[i]);
      case Done(k) =>
      case Check(p, ok, began) => FailTimed(s.group, p, began, i, s.failures[i], s.lastFail[i]);
    }
  }

  lemma FailTimed(g: Group, p: nat, now: nat, i: nat, failures: nat, last: nat)
    requires p < |g.peers| && i < |g.peers|
    requires g.peers[i].fails == failures % U32 && g.peers[i].downUntil <= last + g.failTimeout
    ensures |MarkFail(g, p, now).peers| == |g.peers| && MarkFail(g, p, now).failTimeout == g.failTimeout
    ensures p != i ==> MarkFail(g, p, now).peers[i] == g.peers[i]
    ensures MarkFail(g, i, now).peers[i].fails == (failures + 1) % U32
    ensures MarkFail(g, i, now).peers[i].downUntil <= Later(last, now) + g.failTimeout
  {
  }

  lemma {:induction false} RunKeepsTimers(s: System, ts: seq<Timed>)
    requires WellFormed(s) && Runs(s, ts) && TimersHold(s)
    ensures WellFormed(After(s, ts)) && TimersHold(After(s, ts))
    decreases |ts|
  {
    hide Stepped, Enabled, TimersAt;
    if ts != [] {
      var next := Stepped(s, ts[0]);
      StaysWellFormed(s, ts[0]);
      forall i: nat | i < |next.group.peers| ensures TimersAt(next, i) { TimersStep(s, ts[0], i); }
      RunKeepsTimers(next, ts[1..]);
    }
  }

  /** Every run of a new group, under any policy and any interleaving of its steps. */
  lemma EveryRun(peers: seq<(string, nat)>, policy: Policy, failTimeout: nat, maxFails: nat, ts: seq<Timed>)
    requires Runs(NewSystem(NewGroup(peers, policy, failTimeout, maxFails)), ts)
    ensures var s := After(NewSystem(NewGroup(peers, policy, failTimeout, maxFails)), ts);
      && WellFormed(s) && TimersHold(s)
      && (DistinctAddrs(NewGroup(peers, policy, failTimeout, maxFails).peers) ==> Conserved(s))
  {
    var s := NewSystem(NewGroup(peers, policy, failTimeout, maxFails));
    NewIsConserved(peers, policy, failTimeout, maxFails);
    assert TimersHold(s);
    hide Runs, After, Conserved, WellFormed, TimersHold;
    RunKeepsTimers(s, ts);
    if DistinctAddrs(s.group.peers) { RunConserves(s, ts); }
  }

  /** The failure a step is for peer i, as the clock reading it is timed with. */
  function FailureOf(s: System, t: Timed, i: nat): Option<nat>
    requires t.step.Failure? ==> t.step.conn < |s.conns| && s.conns[t.step.conn].phase.Connecting?
  {
    match t.step
    case Failure(k) => if s.conns[k].peer == i then Some(s.conns[k].phase.began) else None
    case Check(p, ok, began) => if p == i && !ok then Some(began) else None
    case _ => None
  }

  /** What a step makes of peer i's timer: a failure sets it exactly when the failures since the last reset,
      this one counted and in 32 bits, are at least `max_fails`; a good probe of a downed peer clears it; no
      other step touches it. So only a failure that is at least the `max_fails`-th takes a peer out. */
  lemma DownOnlyAfterMaxFails(s: System, t: Timed, i: nat)
    requires WellFormed(s) && Enabled(s, t) && i < |s.group.peers| && TimersAt(s, i)
    ensures i < |Stepped(s, t).group.peers| && i < |Stepped(s, t).failures|
    ensures var next := Stepped(s, t);
      next.group.peers[i].downUntil ==
        match FailureOf(s, t, i)
        case Some(at) =>
          if (s.failures[i] + 1) % U32 >= s.group.maxFails && s.group.failTimeout > 0
          then (at + s.group.failTimeout) % U64 else s.group.peers[i].downUntil
        case None => if Clears(s, t, i) then 0 else s.group.peers[i].downUntil
    ensures FailureOf(s, t, i).Some? ==> Stepped(s, t).failures[i] == s.failures[i] + 1
    ensures (s.failures[i] + 1) % U32 >= s.group.maxFails ==> s.failures[i] + 1 >= s.group.maxFails
  {
    StaysWellFormed(s, t);
    CountsInWords(s.group.peers[i].fails, s.failures[i]);
    hide IsPick, FirstPeer, MarkFail;
    match t.step {
      case Connect(hash, p) => PickIsUp(s.group, t.at, hash, p);
      case Success(k) =>
      case NoDelayError(k) =>
      case Failure(k) =>
        var p := s.conns[k].peer;
        FailSets(Dropped(s.group, p), p, s.conns[k].phase.began, i);
      case Done(k) =>
      case Check(p, ok, began) => FailSets(s.group, p, began, i);
    }
  }

  lemma FailSets(g: Group, p: nat, now: nat, i: nat)
    requires p < |g.peers| && i < |g.peers|
    ensures |MarkFail(g, p, now).peers| == |g.peers|
    ensures MarkFail(g, p, now).peers[i].downUntil ==
      if p == i && (g.peers[i].fails + 1) % U32 >= g.maxFails && g.failTimeout > 0 then (now + g.failTimeout) % U64
      else g.peers[i].downUntil
  {
  }

  lemma CountsInWords(fails: nat, failures: nat)
    requires fails == failures % U32
    ensures (fails + 1) % U32 == (failures + 1) % U32 <= failures + 1
  {
  }

  predicate Clears(s: System, t: Timed, i: nat)
    requires i < |s.group.peers|
  {
    t.step.Check? && t.step.peer == i && t.step.ok && s.group.peers[i].downUntil > t.step.began
  }

  /** A peer is out while its timer runs, and back in at most the fail timeout after its latest failure;
      with every peer out no connection is tried at all. */
  lemma WhenAPeerIsPicked(s: System, now: nat, hash: nat, i: nat)
    requires WellFormed(s) && i < |s.group.peers| && TimersAt(s, i)
    ensures s.group.peers[i].downUntil > now ==> !IsPick(s.group, now, hash, i)
    ensures s.lastFail[i] + s.group.failTimeout <= now ==> i in Available(s.group.peers, now, |s.group.peers|)
  {
    hide IsPick;
    if IsPick(s.group, now, hash, i) { PickIsUp(s.group, now, hash, i); }
  }
}

/** Request routing: Host to server block, path to location block. */
module Router {
  import opened Common
  import opened ConfigTypes
  import ConfigWords

  // ---- Names ----

  predicate EndsWith(s: string, suffix: string) { |suffix| <= |s| && s[|s| - |suffix|..] == suffix }

  predicate NameMatches(name: ServerName, host: string) {
    match name
    case ExactName(n) => LowerText(n) == LowerText(host)
    case CatchAll => true
    case SuffixName(n) =>
      var bare := LowerText(TrimStart(n, {'.'}));
      LowerText(host) == bare || EndsWith(LowerText(host), "." + bare)
    case WildcardName(n) => EndsWith(LowerText(host), LowerText(TrimStart(n, {'*'})))
  }

  /** A host that ends in a dot and a domain, in any case. */
  ghost predicate IsBelow(host: string, domain: string) {
    exists sub: string :: LowerText(host) == sub + ("." + LowerText(domain))
  }

  lemma WildcardStands(d: string, host: string)
    ensures NameMatches(ParseServerName("*." + d), host) <==> IsBelow(host, d)
  {
    var dotted := "." + d;
    assert ("*." + d)[1..] == dotted && LowerText(dotted) == "." + LowerText(d);
    assert TrimStart("*." + d, {'*'}) == TrimStart(dotted, {'*'}) == dotted;
    hide LowerText, TrimStart;
    EndsWithLabel(LowerText(host), "." + LowerText(d));
  }

  lemma SuffixStands(d: string, host: string)
    requires d != "" && d[0] != '.'
    ensures NameMatches(ParseServerName("." + d), host) <==> LowerText(host) == LowerText(d) || IsBelow(host, d)
  {
    var dotted := "." + d;
    assert dotted[1..] == d && dotted[0] == '.' && !("*." <= dotted);
    assert TrimStart(dotted, {'.'}) == TrimStart(d, {'.'}) == d;
    hide LowerText, TrimStart;
    EndsWithLabel(LowerText(host), "." + LowerText(d));
  }

  /** What the names of a server block stand for, in any case: a plain name for itself; `*.d` for every
      host that ends in a dot and d; `.d` for these and for d itself. */
  lemma NamesStandFor(d: string, host: string)
    ensures ParseServerName(d).ExactName? ==>
      (NameMatches(ParseServerName(d), host) <==> LowerText(host) == LowerText(d))
    ensures NameMatches(ParseServerName("*." + d), host) <==> IsBelow(host, d)
    ensures d != "" && d[0] != '.' ==>
      (NameMatches(ParseServerName("." + d), host) <==> LowerText(host) == LowerText(d) || IsBelow(host, d))
  {
    hide LowerText, TrimStart, IsBelow;
    WildcardStands(d, host);
    if d != "" && d[0] != '.' { SuffixStands(d, host); }
  }

  lemma EndsWithLabel(s: string, suffix: string)
    ensures EndsWith(s, suffix) <==> exists sub: string :: s == sub + suffix
  {
    if EndsWith(s, suffix) {
      var sub := s[..|s| - |suffix|];
      assert s == sub + suffix;
    }
  }

  function NameRank(name: ServerName): nat {
    match name
    case ExactName(_) => 0 case WildcardName(_) => 1 case SuffixName(_) => 2 case CatchAll => 3
  }

  /** The Host header without its port. */
  function HostOnly(host: string): string { Unspaced(UpToColon(host)) }

  /** A host is what stands before the colon and the port, without the blanks around it. */
  lemma PortIsDropped(left: string, host: string, right: string, port: string)
    requires ConfigWords.AllIn(left, ConfigWords.SPACES) && ConfigWords.AllIn(right, ConfigWords.SPACES)
    requires host != "" && host[0] !in ConfigWords.SPACES && host[|host| - 1] !in ConfigWords.SPACES
    requires ':' !in host && (port == "" || port[0] == ':')
    ensures HostOnly(left + host + right + port) == host
  {
    assert forall c | c in left + host + right :: c in left || c in host || c in right;
    ConfigWords.ColonEnds(left + host + right, port);
    ConfigWords.UnspacedReads(left, host, right);
    hide UpToColon, Unspaced;
  }

  ghost predicate HasName(srv: Server, rank: nat, host: string) {
    exists name :: name in srv.names && NameRank(name) == rank && NameMatches(name, host)
  }

  /** How well a server fits a host: 0 exact, 1 wildcard, 2 suffix, 3 catch-all, 4 not at all. */
  ghost function Fit(srv: Server, host: string): nat {
    if HasName(srv, 0, host) then 0 else if HasName(srv, 1, host) then 1
    else if HasName(srv, 2, host) then 2 else if HasName(srv, 3, host) then 3 else 4
  }

  /** The best fit, and among equals the first: with no fit at all this is the first server. */
  ghost predicate IsSelectedServer(servers: seq<Server>, host: string, i: nat) {
    && i < |servers|
    && forall j | 0 <= j < |servers| ::
         Fit(servers[i], host) < Fit(servers[j], host) || (Fit(servers[i], host) == Fit(servers[j], host) && i <= j)
  }

  ghost predicate HasExact(srv: Server, host: string) {
    exists n :: ExactName(n) in srv.names && NameMatches(ExactName(n), host)
  }

  ghost predicate HasWildcard(srv: Server, host: string) {
    exists n :: WildcardName(n) in srv.names && NameMatches(WildcardName(n), host)
  }

  ghost predicate HasSuffix(srv: Server, host: string) {
    exists n :: SuffixName(n) in srv.names && NameMatches(SuffixName(n), host)
  }

  lemma KindsOfNames(srv: Server, host: string)
    ensures HasName(srv, 0, host) <==> HasExact(srv, host)
    ensures HasName(srv, 1, host) <==> HasWildcard(srv, host)
    ensures HasName(srv, 2, host) <==> HasSuffix(srv, host)
    ensures HasName(srv, 3, host) <==> CatchAll in srv.names
  {
    hide NameMatches;
    assert NameMatches(CatchAll, host) by { AllIsCaught(host); }
    if HasExact(srv, host) {
      var n :| ExactName(n) in srv.names && NameMatches(ExactName(n), host);
      assert NameRank(ExactName(n)) == 0;
    }
    if HasWildcard(srv, host) {
      var n :| WildcardName(n) in srv.names && NameMatches(WildcardName(n), host);
      assert NameRank(WildcardName(n)) == 1;
    }
    if HasSuffix(srv, host) {
      var n :| SuffixName(n) in srv.names && NameMatches(SuffixName(n), host);
      assert NameRank(SuffixName(n)) == 2;
    }
    if CatchAll in srv.names { assert NameRank(CatchAll) == 3; }
  }

  lemma AllIsCaught(host: string)
    ensures NameMatches(CatchAll, host)
  {
  }

  /** The order of the names: a server with the plain name wins; else one with a wildcard; else one with a
      suffix; else one that catches all; and of several the first. */
  lemma OrderOfNames(servers: seq<Server>, host: string, i: nat, j: nat)
    requires IsSelectedServer(servers, host, i) && j < |servers|
    ensures HasExact(servers[j], host) ==> HasExact(servers[i], host) && i <= j
    ensures !HasExact(servers[i], host) && HasWildcard(servers[j], host) ==> HasWildcard(servers[i], host) && i <= j
    ensures !HasExact(servers[i], host) && !HasWildcard(servers[i], host) && HasSuffix(servers[j], host) ==>
      HasSuffix(servers[i], host) && i <= j
    ensures (!HasExact(servers[i], host) && !HasWildcard(servers[i], host) && !HasSuffix(servers[i], host)
             && CatchAll in servers[j].names) ==> CatchAll in servers[i].names && i <= j
    ensures Fit(servers[i], host) == 4 ==> i == 0
  {
    hide HasName, HasExact, HasWildcard, HasSuffix;
    KindsOfNames(servers[i], host);
    KindsOfNames(servers[j], host);
    assert Fit(servers[i], host) <= 4 && Fit(servers[0], host) <= 4;
  }

  /** One of the scans of `select_server`. */
  method ScanNames(servers: seq<Server>, rank: nat, host: string) returns (r: Option<nat>)
    ensures r.Some? ==> r.value < |servers| && HasName(servers[r.value], rank, host)
    ensures forall j | 0 <= j < (if r.Some? then r.value else |servers|) :: !HasName(servers[j], rank, host)
  {
    for i := 0 to |servers|
      invariant forall j | 0 <= j < i :: !HasName(servers[j], rank, host)
    {
      for k := 0 to |servers[i].names|
        invariant forall m | 0 <= m < k ::
          NameRank(servers[i].names[m]) != rank || !NameMatches(servers[i].names[m], host)
      {
        var name := servers[i].names[k];
        if NameRank(name) == rank && NameMatches(name, host) { return Some(i); }
      }
    }
    r := None;
  }

  method SelectServer(servers: seq<Server>, hostHeader: string) returns (i: nat)
    requires servers != []
    ensures IsSelectedServer(servers, HostOnly(hostHeader), i)
  {
    hide HasName;
    var host := HostOnly(hostHeader);
    var rank: nat := 0;
    while rank < 4
      invariant rank <= 4
      invariant forall j, q | 0 <= j < |servers| && 0 <= q < rank :: !HasName(servers[j], q, host)
    {
      var found := ScanNames(servers, rank, host);
      if found.Some? {
        i := found.value;
        forall j | 0 <= j < |servers|
          ensures Fit(servers[i], host) == rank && rank <= Fit(servers[j], host)
          ensures j < i ==> rank < Fit(servers[j], host)
        {}
        return;
      }
      rank := rank + 1;
    }
    i := 0;
  }

  // ---- Locations ----

  predicate Matches(re: (Pattern, string) -> bool, p: Pattern, path: string) {
    match p
    case ExactPath(q) => q == path
    case PrefixNoRegex(q) => q <= path
    case Prefix(q) => q <= path
    case Regex(_) => re(p, path)
    case RegexInsensitive(_) => re(p, path)
    case Named(_) => false
  }

  predicate IsRegexPattern(p: Pattern) { p.Regex? || p.RegexInsensitive? }

  predicate IsPrefixPattern(p: Pattern) { p.Prefix? || p.PrefixNoRegex? }

  /** Exact, then `^~` prefix, then regular expression, then plain prefix. */
  function Rank(p: Pattern): nat {
    match p
    case ExactPath(_) => 0 case PrefixNoRegex(_) => 1 case Regex(_) => 2 case RegexInsensitive(_) => 2
    case Prefix(_) => 3 case Named(_) => 4
  }

  /** Location i is to be preferred to location j, or is it: by rank; among prefixes by length; and
      then by position. */
  predicate Preferred(p: Pattern, i: nat, q: Pattern, j: nat) {
    || Rank(p) < Rank(q)
    || (Rank(p) == Rank(q) && (
          if IsPrefixPattern(p) && IsPrefixPattern(q) then |p.path| > |q.path| || (|p.path| == |q.path| && i <= j)
          else i <= j))
  }

  /** The declarative rule. */
  ghost predicate IsSelected(re: (Pattern, string) -> bool, locs: seq<Location>, path: string, r: Option<nat>) {
    match r
    case None => forall j | 0 <= j < |locs| :: !Matches(re, locs[j].pattern, path)
    case Some(i) =>
      && i < |locs| && Matches(re, locs[i].pattern, path)
      && forall j | 0 <= j < |locs| && Matches(re, locs[j].pattern, path) ::
           Preferred(locs[i].pattern, i, locs[j].pattern, j)
  }

  /** The rule decides: it allows one answer only. */
  lemma SelectionIsUnique(re: (Pattern, string) -> bool, locs: seq<Location>, path: string, a: Option<nat>,
                          b: Option<nat>)
    requires IsSelected(re, locs, path, a) && IsSelected(re, locs, path, b)
    ensures a == b
  {
    if a.Some? && b.Some? {
      assert Preferred(locs[a.value].pattern, a.value, locs[b.value].pattern, b.value);
      assert Preferred(locs[b.value].pattern, b.value, locs[a.value].pattern, a.value);
    }
  }

  /** The rule in nginx's words: an exact match wins; else the longest matching `^~` prefix; else the first
      matching regular expression; else the longest matching prefix. Named locations never match. */
  lemma RuleInWords(re: (Pattern, string) -> bool, locs: seq<Location>, path: string, i: nat, j: nat)
    requires IsSelected(re, locs, path, Some(i)) && j < |locs| && Matches(re, locs[j].pattern, path)
    ensures locs[j].pattern.ExactPath? ==> locs[i].pattern == ExactPath(path) && i <= j
    ensures !locs[i].pattern.ExactPath? && locs[j].pattern.PrefixNoRegex? ==>
      locs[i].pattern.PrefixNoRegex? && |locs[j].pattern.path| <= |locs[i].pattern.path|
    ensures !locs[i].pattern.ExactPath? && !locs[i].pattern.PrefixNoRegex? && IsRegexPattern(locs[j].pattern) ==>
      IsRegexPattern(locs[i].pattern) && i <= j
    ensures locs[i].pattern.Prefix? ==> locs[j].pattern.Prefix? && |locs[j].pattern.path| <= |locs[i].pattern.path|
    ensures !locs[i].pattern.Named?
  {
    assert Preferred(locs[i].pattern, i, locs[j].pattern, j);
  }

  /** The best so far of one kind: no earlier match of the kind is missed, and it is preferred to all. */
  ghost predicate BestOfKind(re: (Pattern, string) -> bool, locs: seq<Location>, path: string, n: nat, rank: nat,
                             best: Option<nat>)
    requires n <= |locs|
  {
    match best
    case None => forall j | 0 <= j < n :: Rank(locs[j].pattern) != rank || !Matches(re, locs[j].pattern, path)
    case Some(i) =>
      && i < n && Rank(locs[i].pattern) == rank && Matches(re, locs[i].pattern, path)
      && forall j | 0 <= j < n && Rank(locs[j].pattern) == rank && Matches(re, locs[j].pattern, path) ::
           Preferred(locs[i].pattern, i, locs[j].pattern, j)
  }

  lemma KeepsBest(re: (Pattern, string) -> bool, locs: seq<Location>, path: string, n: nat, rank: nat,
                  best: Option<nat>)
    requires n < |locs| && BestOfKind(re, locs, path, n, rank, best)
    requires (Rank(locs[n].pattern) != rank || !Matches(re, locs[n].pattern, path))
      || (best.Some? &&
          (IsPrefixPattern(locs[n].pattern) ==> |locs[n].pattern.path| <= |locs[best.value].pattern.path|))
    ensures BestOfKind(re, locs, path, n + 1, rank, best)
  {
  }

  lemma NewBest(re: (Pattern, string) -> bool, locs: seq<Location>, path: string, n: nat, rank: nat, best: Option<nat>)
    requires n < |locs| && BestOfKind(re, locs, path, n, rank, best)
    requires Rank(locs[n].pattern) == rank && Matches(re, locs[n].pattern, path)
    requires best.None?
      || (IsPrefixPattern(locs[n].pattern) && |locs[n].pattern.path| > |locs[best.value].pattern.path|)
    ensures BestOfKind(re, locs, path, n + 1, rank, Some(n))
  {
  }

  /** One location's effect on the best of a kind: replaced by a match that is longer, for prefixes,
      or is the first of its kind. */
  lemma OneLocation(re: (Pattern, string) -> bool, locs: seq<Location>, path: string, n: nat, rank: nat,
                    best: Option<nat>)
    requires n < |locs| && BestOfKind(re, locs, path, n, rank, best)
    ensures BestOfKind(re, locs, path, n + 1, rank, if Replaces(re, locs, path, n, rank, best) then Some(n) else best)
  {
    if Replaces(re, locs, path, n, rank, best) {
      NewBest(re, locs, path, n, rank, best);
    } else {
      KeepsBest(re, locs, path, n, rank, best);
    }
  }

  ghost predicate Replaces(re: (Pattern, string) -> bool, locs: seq<Location>, path: string, n: nat, rank: nat,
                           best: Option<nat>)
    requires n < |locs| && BestOfKind(re, locs, path, n, rank, best)
  {
    && Rank(locs[n].pattern) == rank && Matches(re, locs[n].pattern, path)
    && (best.None? || (IsPrefixPattern(locs[n].pattern) && |locs[n].pattern.path| > |locs[best.value].pattern.path|))
  }

  lemma Decide(re: (Pattern, string) -> bool, locs: seq<Location>, path: string, n: nat,
               exact: Option<nat>, noRegex: Option<nat>, regex: Option<nat>, prefix: Option<nat>)
    requires n <= |locs| && (n == |locs| || exact.Some?)
    requires exact.Some? ==> exact.value < |locs| && locs[exact.value].pattern == ExactPath(path)
    requires exact.Some? ==> forall j | 0 <= j < exact.value :: locs[j].pattern != ExactPath(path)
    requires exact.None? ==> BestOfKind(re, locs, path, n, 0, None) && BestOfKind(re, locs, path, n, 1, noRegex)
    requires exact.None? ==> BestOfKind(re, locs, path, n, 2, regex) && BestOfKind(re, locs, path, n, 3, prefix)
    ensures IsSelected(re, locs, path, if exact.Some? then exact else if noRegex.Some? then noRegex
      else if regex.Some? then regex else prefix)
  {
  }

  /** One pass with an early exit on an exact match. */
  method SelectLocation(re: (Pattern, string) -> bool, locs: seq<Location>, path: string) returns (r: Option<nat>)
    ensures IsSelected(re, locs, path, r)
  {
    var exact: Option<nat> := None;
    var bestNoRegex: Option<nat> := None;
    var firstRegex: Option<nat> := None;
    var bestPrefix: Option<nat> := None;
    ghost var n: nat := 0;
    hide IsSelected, Preferred;
    for i := 0 to |locs|
      invariant n == i && exact == None && BestOfKind(re, locs, path, i, 0, None)
      invariant BestOfKind(re, locs, path, i, 1, bestNoRegex)
      invariant BestOfKind(re, locs, path, i, 2, firstRegex)
      invariant BestOfKind(re, locs, path, i, 3, bestPrefix)
    {
      var p := locs[i].pattern;
      OneLocation(re, locs, path, i, 0, None);
      OneLocation(re, locs, path, i, 1, bestNoRegex);
      OneLocation(re, locs, path, i, 2, firstRegex);
      OneLocation(re, locs, path, i, 3, bestPrefix);
      match p {
        case ExactPath(q) =>
          if q == path { exact := Some(i); break; }
        case PrefixNoRegex(q) =>
          if q <= path && (bestNoRegex.None? || |q| > |locs[bestNoRegex.value].pattern.path|) {
            bestNoRegex := Some(i);
          }
        case Regex(_) =>
          if firstRegex.None? && re(p, path) { firstRegex := Some(i); }
        case RegexInsensitive(_) =>
          if firstRegex.None? && re(p, path) { firstRegex := Some(i); }
        case Prefix(q) =>
          if q <= path && (bestPrefix.None? || |q| > |locs[bestPrefix.value].pattern.path|) { bestPrefix := Some(i); }
        case Named(_) =>
      }
      n := n + 1;
    }
    Decide(re, locs, path, n, exact, bestNoRegex, firstRegex, bestPrefix);
    r := if exact.Some? then exact else if bestNoRegex.Some? then bestNoRegex
      else if firstRegex.Some? then firstRegex else bestPrefix;
  }

  // ---- Reordering ----

  /** Outside the regular expressions, no two locations have the same pattern. */
  ghost predicate DistinctPatterns(locs: seq<Location>) {
    forall i, j | 0 <= i < j < |locs| && locs[i].pattern == locs[j].pattern :: IsRegexPattern(locs[i].pattern)
  }

  function RegexLocations(locs: seq<Location>): seq<Location> {
    if locs == [] then []
    else (if IsRegexPattern(locs[0].pattern) then [locs[0]] else []) + RegexLocations(locs[1..])
  }

  function FirstMatch(re: (Pattern, string) -> bool, locs: seq<Location>, path: string): Option<Location> {
    if locs == [] then None
    else if Matches(re, locs[0].pattern, path) then Some(locs[0])
    else FirstMatch(re, locs[1..], path)
  }

  lemma {:induction false} FirstRegexMatch(re: (Pattern, string) -> bool, locs: seq<Location>, path: string, i: nat)
    requires i < |locs| && IsRegexPattern(locs[i].pattern) && Matches(re, locs[i].pattern, path)
    requires forall j | 0 <= j < i && IsRegexPattern(locs[j].pattern) :: !Matches(re, locs[j].pattern, path)
    ensures FirstMatch(re, RegexLocations(locs), path) == Some(locs[i])
    decreases |locs|
  {
    var rest := RegexLocations(locs[1..]);
    assert ([locs[0]] + rest)[1..] == rest && [] + rest == rest;
    if i > 0 {
      assert forall j | 0 <= j < i - 1 :: locs[1..][j] == locs[j + 1];
      FirstRegexMatch(re, locs[1..], path, i - 1);
    }
  }

  lemma FoundElsewhere(a: seq<Location>, b: seq<Location>, i: nat) returns (k: nat)
    requires i < |a| && multiset(a) == multiset(b)
    ensures k < |b| && b[k] == a[i]
  {
    assert a[i] in multiset(a);
    assert a[i] in b;
    k :| 0 <= k < |b| && b[k] == a[i];
  }

  lemma SameChoice(re: (Pattern, string) -> bool, a: seq<Location>, b: seq<Location>, path: string, i: nat, j: nat)
    requires multiset(a) == multiset(b) && RegexLocations(a) == RegexLocations(b) && DistinctPatterns(b)
    requires IsSelected(re, a, path, Some(i)) && IsSelected(re, b, path, Some(j))
    ensures a[i] == b[j]
  {
    var k := FoundElsewhere(a, b, i);
    var m := FoundElsewhere(b, a, j);
    assert Preferred(a[i].pattern, i, a[m].pattern, m);
    assert Preferred(b[j].pattern, j, b[k].pattern, k);
    var p, q := a[i].pattern, b[j].pattern;
    assert Rank(p) == Rank(q);
    if IsRegexPattern(p) {
      assert forall x | 0 <= x < i && IsRegexPattern(a[x].pattern) && Matches(re, a[x].pattern, path) ::
        Preferred(p, i, a[x].pattern, x);
      assert forall x | 0 <= x < j && IsRegexPattern(b[x].pattern) && Matches(re, b[x].pattern, path) ::
        Preferred(q, j, b[x].pattern, x);
      FirstRegexMatch(re, a, path, i);
      FirstRegexMatch(re, b, path, j);
    } else {
      if IsPrefixPattern(p) {
        assert |p.path| == |q.path|;
        assert p.path == path[..|p.path|] && q.path == path[..|q.path|];
      }
      assert p == q;
      assert b[k].pattern == b[j].pattern;
    }
  }

  /** Reordering the locations of a server, with the regular expressions kept in their order and the
      other patterns distinct, selects the same location for every path. */
  lemma ReorderingIsHarmless(re: (Pattern, string) -> bool, a: seq<Location>, b: seq<Location>, path: string,
                             i: Option<nat>, j: Option<nat>)
    requires multiset(a) == multiset(b) && RegexLocations(a) == RegexLocations(b) && DistinctPatterns(b)
    requires IsSelected(re, a, path, i) && IsSelected(re, b, path, j)
    ensures i.Some? == j.Some?
    ensures i.Some? ==> a[i.value] == b[j.value]
  {
    if i.Some? { var k := FoundElsewhere(a, b, i.value); }
    if j.Some? { var k := FoundElsewhere(b, a, j.value); }
    assert i.Some? == j.Some?;
    if i.Some? { SameChoice(re, a, b, path, i.value, j.value); }
  }
}

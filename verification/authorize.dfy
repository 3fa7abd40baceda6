/** The Authorize stage: internal/authorize/authorize.go. */
module Authorization {
  import opened Types
  import opened Text

  // ----- Which binding a route matches

  function ScanAllowed(parse: Parser, ip: Address, clusterID: string, allowed: seq<string>): Result<bool> {
    if allowed == [] then Ok(false)
    else
      match parse(allowed[0])
      case None => Err(BadAllowedPrefix(allowed[0], clusterID))
      case Some(cidr) => if cidr.network.Contains(ip) then Ok(true) else ScanAllowed(parse, ip, clusterID, allowed[1..])
  }

  function ScanBindings(parse: Parser, ip: Address, bindings: seq<ClusterBinding>): Result<Option<ClusterBinding>> {
    if bindings == [] then Ok(None)
    else
      match ScanAllowed(parse, ip, bindings[0].clusterID, bindings[0].allowedPrefixes)
      case Err(e) => Err(e)
      case Ok(found) => if found then Ok(Some(bindings[0])) else ScanBindings(parse, ip, bindings[1..])
  }

  function MatchBinding(parse: Parser, prefix: string, bindings: seq<ClusterBinding>): Result<Option<ClusterBinding>> {
    match parse(prefix)
    case None => Err(BadRoutePrefix(prefix))
    case Some(cidr) => ScanBindings(parse, cidr.ip, bindings)
  }

  method FindBinding(parse: Parser, prefix: string, bindings: seq<ClusterBinding>)
    returns (r: Result<Option<ClusterBinding>>)
    ensures r == MatchBinding(parse, prefix, bindings)
  {
    var parsed := parse(prefix);
    if parsed.None? {
      return Err(BadRoutePrefix(prefix));
    }
    var ip := parsed.value.ip;
    for i := 0 to |bindings|
      invariant ScanBindings(parse, ip, bindings) == ScanBindings(parse, ip, bindings[i..])
    {
      var allowed := bindings[i].allowedPrefixes;
      assert bindings[i..][0] == bindings[i] && bindings[i..][1..] == bindings[i + 1..];
      for j := 0 to |allowed|
        invariant ScanAllowed(parse, ip, bindings[i].clusterID, allowed) ==
                  ScanAllowed(parse, ip, bindings[i].clusterID, allowed[j..])
      {
        assert allowed[j..][1..] == allowed[j + 1..];
        var network := parse(allowed[j]);
        if network.None? {
          return Err(BadAllowedPrefix(allowed[j], bindings[i].clusterID));
        }
        if network.value.network.Contains(ip) {
          return Ok(Some(bindings[i]));
        }
      }
    }
    return Ok(None);
  }

  /** A binding covers an address if one of its allowed prefixes does; the route's own mask plays no part. */
  ghost predicate Covers(parse: Parser, b: ClusterBinding, ip: Address) {
    exists s :: s in b.allowedPrefixes && parse(s).Some? && parse(s).value.network.Contains(ip)
  }

  lemma {:induction false} ScanAllowedCovers(parse: Parser, ip: Address, clusterID: string, allowed: seq<string>)
    ensures var r := ScanAllowed(parse, ip, clusterID, allowed);
            && (r == Ok(true) ==> exists s :: s in allowed && parse(s).Some? && parse(s).value.network.Contains(ip))
            && (r == Ok(false) ==> forall s :: s in allowed ==> parse(s).Some? && !parse(s).value.network.Contains(ip))
            && ((forall s :: s in allowed ==> parse(s).Some?) ==> r.Ok?)
  {
    if allowed != [] {
      ScanAllowedCovers(parse, ip, clusterID, allowed[1..]);
      assert allowed == [allowed[0]] + allowed[1..];
    }
  }

  /** Entry j does not parse, and all before it do without containing the address. */
  ghost predicate StumblesAt(parse: Parser, ip: Address, allowed: seq<string>, j: nat) {
    && j < |allowed| && parse(allowed[j]).None?
    && forall l :: 0 <= l < j ==> parse(allowed[l]).Some? && !parse(allowed[l]).value.network.Contains(ip)
  }

  lemma {:induction false} ScanAllowedStumbles(parse: Parser, ip: Address, clusterID: string, allowed: seq<string>)
    ensures ScanAllowed(parse, ip, clusterID, allowed).Err? <==> exists j: nat :: StumblesAt(parse, ip, allowed, j)
    ensures forall j: nat :: StumblesAt(parse, ip, allowed, j) ==>
              ScanAllowed(parse, ip, clusterID, allowed) == Err(BadAllowedPrefix(allowed[j], clusterID))
  {
    if allowed != [] && parse(allowed[0]).Some? && !parse(allowed[0]).value.network.Contains(ip) {
      ScanAllowedStumbles(parse, ip, clusterID, allowed[1..]);
      forall j: nat ensures StumblesAt(parse, ip, allowed[1..], j) <==> StumblesAt(parse, ip, allowed, j + 1) {
        assert j < |allowed[1..]| ==> allowed[1..][j] == allowed[j + 1];
        if StumblesAt(parse, ip, allowed[1..], j) {
          forall l | 0 <= l < j + 1 ensures parse(allowed[l]).Some? && !parse(allowed[l]).value.network.Contains(ip) {
            assert l > 0 ==> allowed[l] == allowed[1..][l - 1];
          }
        }
      }
      forall j: nat | StumblesAt(parse, ip, allowed, j)
        ensures ScanAllowed(parse, ip, clusterID, allowed) == Err(BadAllowedPrefix(allowed[j], clusterID))
      {
        assert StumblesAt(parse, ip, allowed[1..], j - 1);
      }
    } else if allowed != [] && parse(allowed[0]).None? {
      assert StumblesAt(parse, ip, allowed, 0);
    }
  }

  /** All entries of a binding parse and none contains the address. */
  ghost predicate PassesOver(parse: Parser, ip: Address, b: ClusterBinding) {
    forall s :: s in b.allowedPrefixes ==> parse(s).Some? && !parse(s).value.network.Contains(ip)
  }

  /** The search stops with an error at entry j of binding i. */
  ghost predicate FailsAt(parse: Parser, ip: Address, bindings: seq<ClusterBinding>, i: nat, j: nat) {
    && i < |bindings| && StumblesAt(parse, ip, bindings[i].allowedPrefixes, j)
    && forall l :: 0 <= l < i ==> PassesOver(parse, ip, bindings[l])
  }

  lemma PassesOverIff(parse: Parser, ip: Address, b: ClusterBinding)
    ensures ScanAllowed(parse, ip, b.clusterID, b.allowedPrefixes) == Ok(false) <==> PassesOver(parse, ip, b)
  {
    ScanAllowedCovers(parse, ip, b.clusterID, b.allowedPrefixes);
    var r := ScanAllowed(parse, ip, b.clusterID, b.allowedPrefixes);
    if PassesOver(parse, ip, b) {
      assert forall s :: s in b.allowedPrefixes ==> parse(s).Some?;
      assert r.value ==> r == Ok(true);
    }
  }

  lemma {:induction false} ScanFails(parse: Parser, ip: Address, bindings: seq<ClusterBinding>)
    ensures ScanBindings(parse, ip, bindings).Err? <==> exists i: nat, j: nat :: FailsAt(parse, ip, bindings, i, j)
    ensures forall i: nat, j: nat :: FailsAt(parse, ip, bindings, i, j) ==>
              ScanBindings(parse, ip, bindings) ==
              Err(BadAllowedPrefix(bindings[i].allowedPrefixes[j], bindings[i].clusterID))
  {
    if bindings != [] {
      var b, rest := bindings[0], bindings[1..];
      PassesOverIff(parse, ip, b);
      ScanAllowedStumbles(parse, ip, b.clusterID, b.allowedPrefixes);
      ScanFails(parse, ip, rest);
      forall i: nat, j: nat | FailsAt(parse, ip, bindings, i, j)
        ensures ScanBindings(parse, ip, bindings) ==
                Err(BadAllowedPrefix(bindings[i].allowedPrefixes[j], bindings[i].clusterID))
      {
        if i > 0 {
          FailsInRest(parse, ip, bindings, i, j);
          assert rest[i - 1] == bindings[i];
        }
      }
      if ScanBindings(parse, ip, bindings).Err? {
        if PassesOver(parse, ip, b) {
          var i: nat, j: nat :| FailsAt(parse, ip, rest, i, j);
          FailsInRest(parse, ip, bindings, i + 1, j);
        } else {
          var j: nat :| StumblesAt(parse, ip, b.allowedPrefixes, j);
          assert FailsAt(parse, ip, bindings, 0, j);
        }
      }
    }
  }

  lemma FailsInRest(parse: Parser, ip: Address, bindings: seq<ClusterBinding>, i: nat, j: nat)
    requires bindings != [] && i > 0
    ensures FailsAt(parse, ip, bindings, i, j) <==>
            PassesOver(parse, ip, bindings[0]) && FailsAt(parse, ip, bindings[1..], i - 1, j)
  {
    var rest := bindings[1..];
    assert i < |bindings| ==> rest[i - 1] == bindings[i];
    if PassesOver(parse, ip, bindings[0]) && FailsAt(parse, ip, rest, i - 1, j) {
      forall l | 0 <= l < i ensures PassesOver(parse, ip, bindings[l]) {
        assert l > 0 ==> bindings[l] == rest[l - 1];
      }
    }
  }

  /**
   * Matching fails exactly if the route's prefix does not parse, or if the search meets an allowed prefix
   * that does not, before any that contains the address; the error names that prefix and its cluster.
   */
  lemma MatchFailsExactly(parse: Parser, prefix: string, bindings: seq<ClusterBinding>)
    ensures var r := MatchBinding(parse, prefix, bindings);
            && (r.Err? <==>
                 || parse(prefix).None?
                 || exists i: nat, j: nat :: FailsAt(parse, parse(prefix).value.ip, bindings, i, j))
            && (parse(prefix).None? ==> r == Err(BadRoutePrefix(prefix)))
            && (parse(prefix).Some? ==>
                 forall i: nat, j: nat :: FailsAt(parse, parse(prefix).value.ip, bindings, i, j) ==>
                   r == Err(BadAllowedPrefix(bindings[i].allowedPrefixes[j], bindings[i].clusterID)))
  {
    if parse(prefix).Some? {
      ScanFails(parse, parse(prefix).value.ip, bindings);
    }
  }

  ghost predicate AllParse(parse: Parser, bindings: seq<ClusterBinding>) {
    forall b, s :: b in bindings && s in b.allowedPrefixes ==> parse(s).Some?
  }

  /**
   * Attribution is the first binding that covers the route's address, and nothing the peer asserts.
   * It fails only on a prefix that does not parse.
   */
  lemma {:induction false} ScanFindsFirst(parse: Parser, ip: Address, bindings: seq<ClusterBinding>)
    ensures var r := ScanBindings(parse, ip, bindings);
            && (r.Ok? && r.value.Some? ==>
                 exists i :: 0 <= i < |bindings| && bindings[i] == r.value.value && Covers(parse, bindings[i], ip)
                             && forall j :: 0 <= j < i ==> !Covers(parse, bindings[j], ip))
            && (r == Ok(None) ==> forall j :: 0 <= j < |bindings| ==> !Covers(parse, bindings[j], ip))
            && (AllParse(parse, bindings) ==> r.Ok?)
  {
    if bindings != [] {
      var b, rest := bindings[0], bindings[1..];
      ScanAllowedCovers(parse, ip, b.clusterID, b.allowedPrefixes);
      ScanFindsFirst(parse, ip, rest);
      assert bindings == [b] + rest;
      var r := ScanBindings(parse, ip, rest);
      if r.Ok? && r.value.Some? && ScanAllowed(parse, ip, b.clusterID, b.allowedPrefixes) == Ok(false) {
        var i :| 0 <= i < |rest| && rest[i] == r.value.value && Covers(parse, rest[i], ip)
                 && forall j :: 0 <= j < i ==> !Covers(parse, rest[j], ip);
        forall j | 0 <= j < i + 1 ensures !Covers(parse, bindings[j], ip) {
          assert j > 0 ==> bindings[j] == rest[j - 1];
        }
        assert bindings[i + 1] == r.value.value;
      }
    }
  }

  function ClusterOf(parse: Parser, bindings: seq<ClusterBinding>, prefix: string): Option<string> {
    match MatchBinding(parse, prefix, bindings)
    case Ok(Some(b)) => Some(b.clusterID)
    case _ => None
  }

  /** A route with the cluster and locality of its binding, or rejected. */
  function Attributed(parse: Parser, bindings: seq<ClusterBinding>, route: Route): Route {
    match MatchBinding(parse, route.prefix, bindings)
    case Ok(Some(b)) => route.(clusterID := b.clusterID, locality := b.locality)
    case _ => route.(rejected := true, reason := NotAllowed(route.prefix), clusterID := "", locality := NO_LOCALITY)
  }

  // ----- The budget

  predicate Limits(b: ClusterBinding, clusterID: Option<string>) {
    b.maxPrefixes.Some? && b.maxPrefixes.value >= 0 && clusterID == Some(b.clusterID)
  }

  /** The prefixes of the same cluster that come first. */
  function Ahead(parse: Parser, bindings: seq<ClusterBinding>, routes: seq<Route>, prefix: string): set<string> {
    set q | q in routes && ClusterOf(parse, bindings, q.prefix) == ClusterOf(parse, bindings, prefix)
      && Less(q.prefix, prefix) :: q.prefix
  }

  /** What the first n bindings' budgets make of an attributed route. */
  function Budgeted(parse: Parser, bindings: seq<ClusterBinding>, routes: seq<Route>, route: Route, n: nat): Route
    requires n <= |bindings|
  {
    if n == 0 then Attributed(parse, bindings, route)
    else
      var r := Budgeted(parse, bindings, routes, route, n - 1);
      var b := bindings[n - 1];
      if Limits(b, ClusterOf(parse, bindings, route.prefix))
        && |Ahead(parse, bindings, routes, route.prefix)| >= b.maxPrefixes.value then
        r.(rejected := true, reason := OverBudget(b.clusterID, b.maxPrefixes.value))
      else r
  }

  function Outcome(parse: Parser, bindings: seq<ClusterBinding>, routes: seq<Route>, route: Route): Route {
    Budgeted(parse, bindings, routes, route, |bindings|)
  }

  /** The least non-negative budget among the first n bindings of a cluster. */
  function Budget(bindings: seq<ClusterBinding>, clusterID: Option<string>, n: nat): Option<int>
    requires n <= |bindings|
  {
    if n == 0 then None
    else
      var least := Budget(bindings, clusterID, n - 1);
      var b := bindings[n - 1];
      if Limits(b, clusterID) && (least.None? || b.maxPrefixes.value < least.value) then b.maxPrefixes else least
  }

  lemma {:induction false} BudgetIsLeast(bindings: seq<ClusterBinding>, clusterID: Option<string>, n: nat)
    requires n <= |bindings|
    ensures var k := Budget(bindings, clusterID, n);
            && (k.Some? ==> k.value >= 0)
            && (k.Some? ==> exists i :: 0 <= i < n && clusterID == Some(bindings[i].clusterID)
                                        && bindings[i].maxPrefixes == k)
            && (forall i :: 0 <= i < n && clusterID == Some(bindings[i].clusterID) && bindings[i].maxPrefixes.Some?
                            && bindings[i].maxPrefixes.value >= 0 ==>
                 k.Some? && k.value <= bindings[i].maxPrefixes.value)
  {
    if n > 0 {
      BudgetIsLeast(bindings, clusterID, n - 1);
    }
  }

  /**
   * The outcome of a route: rejected exactly if it came rejected, or no binding covers it, or its
   * cluster has a budget of k and k prefixes of the cluster come before it. It carries the cluster and
   * the locality of its binding or none at all, and the reason names what rejected it; within the budget
   * the route is as attributed.
   */
  lemma {:induction false} OutcomeExactly(parse: Parser, bindings: seq<ClusterBinding>, routes: seq<Route>,
                                          route: Route, n: nat)
    requires n <= |bindings|
    ensures var c := ClusterOf(parse, bindings, route.prefix);
            var k := Budget(bindings, c, n);
            var r := Budgeted(parse, bindings, routes, route, n);
            && (r.rejected <==>
               route.rejected || c.None? || (k.Some? && |Ahead(parse, bindings, routes, route.prefix)| >= k.value))
            && r == route.(clusterID := r.clusterID, locality := r.locality, rejected := r.rejected, reason := r.reason)
            && r.clusterID == (if c.Some? then c.value else "")
            && (c.None? ==> r.locality == NO_LOCALITY && r.reason == NotAllowed(route.prefix))
            && (k.None? && c.Some? ==> r.reason == route.reason)
            && r.locality == Attributed(parse, bindings, route).locality
            && (forall b: ClusterBinding :: MatchBinding(parse, route.prefix, bindings) == Ok(Some(b)) ==>
                 r.clusterID == b.clusterID && r.locality == b.locality)
            && (k.None? || |Ahead(parse, bindings, routes, route.prefix)| < k.value ==>
                 r == Attributed(parse, bindings, route))
            && (k.Some? && |Ahead(parse, bindings, routes, route.prefix)| >= k.value ==>
                  r.reason.OverBudget? && r.reason.clusterID == c.value
                    && k.value <= r.reason.maxPrefixes <= |Ahead(parse, bindings, routes, route.prefix)|)
  {
    if n > 0 {
      OutcomeExactly(parse, bindings, routes, route, n - 1);
      BudgetIsLeast(bindings, ClusterOf(parse, bindings, route.prefix), n - 1);
    }
  }

  /**
   * The budget keeps the first prefixes in byte order: if a route is accepted, so is every route of its
   * cluster whose prefix comes before it and that did not come rejected.
   */
  lemma BudgetKeepsFirst(parse: Parser, bindings: seq<ClusterBinding>, routes: seq<Route>, r: Route, q: Route, n: nat)
    requires r in routes && q in routes && !q.rejected
    requires ClusterOf(parse, bindings, r.prefix) == ClusterOf(parse, bindings, q.prefix)
    requires PartsAt(q.prefix, r.prefix, n)
    requires !Outcome(parse, bindings, routes, r).rejected
    ensures !Outcome(parse, bindings, routes, q).rejected
  {
    LessIsByteOrder(q.prefix, r.prefix);
    var before, after := Ahead(parse, bindings, routes, q.prefix), Ahead(parse, bindings, routes, r.prefix);
    forall x | x in before ensures x in after {
      LessTransitive(x, q.prefix, r.prefix);
    }
    SubsetSize(before, after);
    OutcomeExactly(parse, bindings, routes, r, |bindings|);
    OutcomeExactly(parse, bindings, routes, q, |bindings|);
  }

  /** One cluster's outcome does not depend on another cluster's routes. */
  lemma {:induction false} ClustersAreIsolated(parse: Parser, bindings: seq<ClusterBinding>, routes: seq<Route>,
                                               others: seq<Route>, route: Route, n: nat)
    requires n <= |bindings|
    requires forall q: Route :: ClusterOf(parse, bindings, q.prefix) == ClusterOf(parse, bindings, route.prefix) ==>
               (q in routes <==> q in others)
    ensures Budgeted(parse, bindings, routes, route, n) == Budgeted(parse, bindings, others, route, n)
  {
    assert Ahead(parse, bindings, routes, route.prefix) == Ahead(parse, bindings, others, route.prefix);
    if n > 0 {
      ClustersAreIsolated(parse, bindings, routes, others, route, n - 1);
    }
  }

  // ----- Members of a cluster

  /** The indices below n of the routes attributed to a cluster, in order. */
  function Members(parse: Parser, bindings: seq<ClusterBinding>, routes: seq<Route>, clusterID: string,
                   n: nat): seq<nat>
    requires n <= |routes|
  {
    if n == 0 then []
    else
      Members(parse, bindings, routes, clusterID, n - 1) +
      if ClusterOf(parse, bindings, routes[n - 1].prefix) == Some(clusterID) then [n - 1] else []
  }

  lemma {:induction false} MembersExactly(parse: Parser, bindings: seq<ClusterBinding>, routes: seq<Route>,
                                          clusterID: string, n: nat)
    requires n <= |routes|
    ensures var ms := Members(parse, bindings, routes, clusterID, n);
            && (forall j :: j in ms <==> 0 <= j < n && ClusterOf(parse, bindings, routes[j].prefix) == Some(clusterID))
            && (forall j :: multiset(ms)[j] <= 1)
  {
    if n > 0 {
      MembersExactly(parse, bindings, routes, clusterID, n - 1);
    }
  }

  ghost predicate DistinctPrefixes(routes: seq<Route>) {
    forall i, j :: 0 <= i < j < |routes| ==> routes[i].prefix != routes[j].prefix
  }

  ghost predicate SortedByPrefix(indices: seq<nat>, routes: seq<Route>) {
    && (forall p :: 0 <= p < |indices| ==> indices[p] < |routes|)
    && (forall p, q :: 0 <= p < q < |indices| ==> Leq(routes[indices[p]].prefix, routes[indices[q]].prefix))
  }

  /** slices.SortFunc over the index list. */
  method SortByPrefix(indices: seq<nat>, routes: seq<Route>) returns (sorted: seq<nat>)
    requires forall j :: j in indices ==> j < |routes|
    ensures SortedByPrefix(sorted, routes)
    ensures multiset(sorted) == multiset(indices)
  {
    sorted := [];
    for n := 0 to |indices|
      invariant SortedByPrefix(sorted, routes)
      invariant multiset(sorted) == multiset(indices[..n])
    {
      var x := indices[n];
      assert x in indices && indices[..n + 1] == indices[..n] + [x];
      var p := InsertionPoint(sorted, routes, x);
      InsertKeepsSorted(sorted, routes, x, p);
      InsertContents(sorted, x, p);
      sorted := sorted[..p] + [x] + sorted[p..];
    }
    assert indices[..|indices|] == indices;
  }

  method InsertionPoint(sorted: seq<nat>, routes: seq<Route>, x: nat) returns (p: nat)
    requires SortedByPrefix(sorted, routes) && x < |routes|
    ensures p <= |sorted|
    ensures p > 0 ==> Leq(routes[sorted[p - 1]].prefix, routes[x].prefix)
    ensures forall q :: p <= q < |sorted| ==> Less(routes[x].prefix, routes[sorted[q]].prefix)
  {
    p := |sorted|;
    while p > 0 && Less(routes[x].prefix, routes[sorted[p - 1]].prefix)
      invariant p <= |sorted|
      invariant forall q :: p <= q < |sorted| ==> Less(routes[x].prefix, routes[sorted[q]].prefix)
    {
      p := p - 1;
    }
  }

  lemma InsertContents(s: seq<nat>, x: nat, p: nat)
    requires p <= |s|
    ensures multiset(s[..p] + [x] + s[p..]) == multiset(s) + multiset{x}
  {
    assert s == s[..p] + s[p..];
  }

  lemma InsertKeepsSorted(sorted: seq<nat>, routes: seq<Route>, x: nat, p: nat)
    requires SortedByPrefix(sorted, routes) && x < |routes| && p <= |sorted|
    requires p > 0 ==> Leq(routes[sorted[p - 1]].prefix, routes[x].prefix)
    requires forall q :: p <= q < |sorted| ==> Less(routes[x].prefix, routes[sorted[q]].prefix)
    ensures SortedByPrefix(sorted[..p] + [x] + sorted[p..], routes)
  {
    forall q | 0 <= q < |sorted|
      ensures if q < p then Leq(routes[sorted[q]].prefix, routes[x].prefix)
              else Leq(routes[x].prefix, routes[sorted[q]].prefix) {
      if q < p - 1 {
        LeqTransitive(routes[sorted[q]].prefix, routes[sorted[p - 1]].prefix, routes[x].prefix);
      } else if q >= p {
        LessTotal(routes[x].prefix, routes[sorted[q]].prefix);
      }
    }
  }

  // ----- Rank in the sorted list

  lemma {:induction false} SizeOfDistinct(s: seq<string>)
    requires forall i, j :: 0 <= i < j < |s| ==> s[i] != s[j]
    ensures |set x | x in s| == |s|
  {
    if s != [] {
      var n := |s| - 1;
      SizeOfDistinct(s[..n]);
      assert s == s[..n] + [s[n]];
      assert (set x | x in s) == (set x | x in s[..n]) + {s[n]};
    }
  }

  function PrefixAt(routes: seq<Route>): nat -> string {
    (i: nat) => if i < |routes| then routes[i].prefix else ""
  }

  lemma SortedContents(parse: Parser, bindings: seq<ClusterBinding>, routes: seq<Route>, clusterID: string,
                       sorted: seq<nat>)
    requires multiset(sorted) == multiset(Members(parse, bindings, routes, clusterID, |routes|))
    ensures forall j :: j in sorted <==>
            0 <= j < |routes| && ClusterOf(parse, bindings, routes[j].prefix) == Some(clusterID)
    ensures forall j :: multiset(sorted)[j] <= 1
  {
    var ms := Members(parse, bindings, routes, clusterID, |routes|);
    MembersExactly(parse, bindings, routes, clusterID, |routes|);
    forall j ensures j in sorted <==> j in ms {
      assert j in sorted <==> j in multiset(sorted);
      assert j in ms <==> j in multiset(ms);
    }
  }

  lemma StrictlySorted(routes: seq<Route>, sorted: seq<nat>, q: nat, r: nat)
    requires DistinctPrefixes(routes) && SortedByPrefix(sorted, routes) && q < r < |sorted|
    requires forall j :: multiset(sorted)[j] <= 1
    ensures Less(routes[sorted[q]].prefix, routes[sorted[r]].prefix)
  {
    PlacesDiffer(sorted, q, r);
    LessTotal(routes[sorted[q]].prefix, routes[sorted[r]].prefix);
  }

  /** With distinct prefixes, the place of a route in its sorted cluster is the number of prefixes ahead of it. */
  lemma RankIsPlace(parse: Parser, bindings: seq<ClusterBinding>, routes: seq<Route>, clusterID: string,
                    sorted: seq<nat>, p: nat)
    requires DistinctPrefixes(routes) && SortedByPrefix(sorted, routes) && p < |sorted|
    requires multiset(sorted) == multiset(Members(parse, bindings, routes, clusterID, |routes|))
    ensures |Ahead(parse, bindings, routes, routes[sorted[p]].prefix)| == p
  {
    SortedContents(parse, bindings, routes, clusterID, sorted);
    var keys := Mapped(PrefixAt(routes), sorted);
    forall q, r | 0 <= q < r < |sorted| ensures Less(keys[q], keys[r]) {
      StrictlySorted(routes, sorted, q, r);
    }
    AheadIsFront(parse, bindings, routes, clusterID, sorted, keys, p);
    SizeOfDistinctSorted(keys[..p]);
  }

  lemma SizeOfDistinctSorted(s: seq<string>)
    requires forall i, j :: 0 <= i < j < |s| ==> Less(s[i], s[j])
    ensures |set x | x in s| == |s|
  {
    forall i, j | 0 <= i < j < |s| ensures s[i] != s[j] {
      LessTotal(s[i], s[i]);
    }
    SizeOfDistinct(s);
  }

  lemma PlacesDiffer(s: seq<nat>, q: nat, r: nat)
    requires forall j :: multiset(s)[j] <= 1
    requires q < r < |s|
    ensures s[q] != s[r]
  {
    assert s == s[..r] + [s[r]] + s[r + 1..];
    assert s[q] in s[..r];
    assert multiset(s) == multiset(s[..r]) + multiset{s[r]} + multiset(s[r + 1..]);
    assert multiset(s[..r])[s[q]] >= 1;
    assert multiset(s)[s[r]] >= 1 + multiset(s[..r])[s[r]];
  }

  /** The keys of a sorted cluster, strictly increasing. */
  ghost predicate SortedKeys(parse: Parser, bindings: seq<ClusterBinding>, routes: seq<Route>, clusterID: string,
                             sorted: seq<nat>, keys: seq<string>)
  {
    && |sorted| == |keys|
    && (forall q :: 0 <= q < |sorted| ==> sorted[q] < |routes| && keys[q] == routes[sorted[q]].prefix)
    && (forall q, r :: 0 <= q < r < |keys| ==> Less(keys[q], keys[r]))
    && (forall j :: j in sorted <==>
       0 <= j < |routes| && ClusterOf(parse, bindings, routes[j].prefix) == Some(clusterID))
  }

  lemma FrontIsAhead(parse: Parser, bindings: seq<ClusterBinding>, routes: seq<Route>, clusterID: string,
                     sorted: seq<nat>, keys: seq<string>, p: nat, q: nat)
    requires SortedKeys(parse, bindings, routes, clusterID, sorted, keys) && q < p < |keys|
    ensures keys[q] in Ahead(parse, bindings, routes, keys[p])
  {
  }

  lemma AheadInFront(parse: Parser, bindings: seq<ClusterBinding>, routes: seq<Route>, clusterID: string,
                     sorted: seq<nat>, keys: seq<string>, p: nat, x: string)
    requires SortedKeys(parse, bindings, routes, clusterID, sorted, keys) && p < |keys|
    requires x in Ahead(parse, bindings, routes, keys[p])
    ensures x in keys[..p]
  {
    assert sorted[p] in sorted;
    var route :| route in routes && route.prefix == x;
    var j :| 0 <= j < |routes| && routes[j] == route;
    assert j in sorted;
    var q :| 0 <= q < |sorted| && sorted[q] == j;
    LessTotal(x, keys[p]);
    assert q < p;
  }

  lemma AheadIsFront(parse: Parser, bindings: seq<ClusterBinding>, routes: seq<Route>, clusterID: string,
                     sorted: seq<nat>, keys: seq<string>, p: nat)
    requires SortedKeys(parse, bindings, routes, clusterID, sorted, keys) && p < |keys|
    ensures Ahead(parse, bindings, routes, keys[p]) == set x | x in keys[..p]
  {
    forall x | x in keys[..p] ensures x in Ahead(parse, bindings, routes, keys[p]) {
      var q :| 0 <= q < p && keys[q] == x;
      FrontIsAhead(parse, bindings, routes, clusterID, sorted, keys, p, q);
    }
    forall x | x in Ahead(parse, bindings, routes, keys[p]) ensures x in keys[..p] {
      AheadInFront(parse, bindings, routes, clusterID, sorted, keys, p, x);
    }
  }

  // ----- The stage itself

  /** An output differs from the attributed route at most by a budget rejection. */
  predicate BudgetOnly(base: Route, r: Route) {
    r == base || (r.rejected && r.reason.OverBudget? && r == base.(rejected := true, reason := r.reason))
  }

  /** The accepted routes of a cluster. */
  function Accepted(parse: Parser, bindings: seq<ClusterBinding>, routes: seq<Route>, out: seq<Route>,
                    clusterID: string): set<nat>
    requires |out| == |routes|
  {
    set j: nat | j < |routes| && ClusterOf(parse, bindings, routes[j].prefix) == Some(clusterID) && !out[j].rejected
  }

  function Listed(matched: map<string, seq<nat>>, clusterID: string): seq<nat> {
    if clusterID in matched then matched[clusterID] else []
  }

  /** Each cluster's list holds its members among the first n routes. */
  ghost predicate AreListed(parse: Parser, bindings: seq<ClusterBinding>, routes: seq<Route>,
                            matched: map<string, seq<nat>>, n: nat)
    requires n <= |routes|
  {
    forall c :: Listed(matched, c) == Members(parse, bindings, routes, c, n)
  }

  lemma ListedGrows(parse: Parser, bindings: seq<ClusterBinding>, routes: seq<Route>,
                    before: map<string, seq<nat>>, after: map<string, seq<nat>>, n: nat)
    requires n < |routes| && AreListed(parse, bindings, routes, before, n)
    requires var c := ClusterOf(parse, bindings, routes[n].prefix);
             after == if c.None? then before else before[c.value := Listed(before, c.value) + [n]]
    ensures AreListed(parse, bindings, routes, after, n + 1)
  {
    forall c ensures Listed(after, c) == Members(parse, bindings, routes, c, n + 1) {
      assert Listed(before, c) == Members(parse, bindings, routes, c, n);
    }
  }

  method Attribute(parse: Parser, route: Route, bindings: seq<ClusterBinding>)
    returns (r: Result<Route>, clusterID: Option<string>)
    ensures r.Ok? <==> MatchBinding(parse, route.prefix, bindings).Ok?
    ensures r.Ok? ==> r.value == Attributed(parse, bindings, route)
    ensures r.Ok? ==> clusterID == ClusterOf(parse, bindings, route.prefix)
  {
    var found := FindBinding(parse, route.prefix, bindings);
    if found.Err? {
      return Err(found.error), None;
    }
    if found.value.None? {
      return Ok(route.(rejected := true, reason := NotAllowed(route.prefix), clusterID := "", locality := NO_LOCALITY)),
             None;
    }
    var b := found.value.value;
    return Ok(route.(clusterID := b.clusterID, locality := b.locality)), Some(b.clusterID);
  }

  /** The first n routes all matched or failed to match cleanly, and these are the results. */
  ghost predicate AreAttributed(parse: Parser, bindings: seq<ClusterBinding>, routes: seq<Route>, out: seq<Route>,
                                n: nat)
    requires n <= |routes|
  {
    && |out| == n
    && forall i :: 0 <= i < n ==>
         && MatchBinding(parse, routes[i].prefix, bindings).Ok?
         && out[i] == Attributed(parse, bindings, routes[i])
  }

  lemma OneMoreAttributed(parse: Parser, bindings: seq<ClusterBinding>, routes: seq<Route>, out: seq<Route>, r: Route,
                          n: nat)
    requires n < |routes| && AreAttributed(parse, bindings, routes, out, n)
    requires MatchBinding(parse, routes[n].prefix, bindings).Ok? && r == Attributed(parse, bindings, routes[n])
    ensures AreAttributed(parse, bindings, routes, out + [r], n + 1)
  {
  }

  method AttributeAll(parse: Parser, routes: seq<Route>, bindings: seq<ClusterBinding>)
    returns (r: Result<seq<Route>>, matched: map<string, seq<nat>>)
    ensures r.Ok? <==> forall i :: 0 <= i < |routes| ==> MatchBinding(parse, routes[i].prefix, bindings).Ok?
    ensures r.Ok? ==> |r.value| == |routes| && forall i :: 0 <= i < |routes| ==>
              r.value[i] == Attributed(parse, bindings, routes[i])
    ensures r.Ok? ==> forall c :: Listed(matched, c) == Members(parse, bindings, routes, c, |routes|)
  {
    var authorized: seq<Route> := [];
    matched := map[];
    for n := 0 to |routes|
      invariant AreAttributed(parse, bindings, routes, authorized, n)
      invariant AreListed(parse, bindings, routes, matched, n)
    {
      var route := routes[n];
      ghost var before := matched;
      var attributed, clusterID := Attribute(parse, route, bindings);
      if attributed.Err? {
        return Err(attributed.error), matched;
      }
      OneMoreAttributed(parse, bindings, routes, authorized, attributed.value, n);
      authorized := authorized + [attributed.value];
      if clusterID.Some? {
        matched := matched[clusterID.value := Listed(matched, clusterID.value) + [n]];
      }
      ListedGrows(parse, bindings, routes, before, matched, n);
    }
    return Ok(authorized), matched;
  }

  /** Rejects the routes behind the budget of one binding. */
  method Cut(authorized: seq<Route>, sorted: seq<nat>, b: ClusterBinding) returns (r: seq<Route>)
    requires b.maxPrefixes.Some? && 0 <= b.maxPrefixes.value < |sorted|
    requires forall p :: 0 <= p < |sorted| ==> sorted[p] < |authorized|
    requires forall j :: multiset(sorted)[j] <= 1
    ensures |r| == |authorized|
    ensures forall p :: 0 <= p < |sorted| ==>
              r[sorted[p]] == if p < b.maxPrefixes.value then authorized[sorted[p]]
                              else authorized[sorted[p]].(rejected := true,
                                reason := OverBudget(b.clusterID, b.maxPrefixes.value))
    ensures forall j :: 0 <= j < |r| && j !in sorted ==> r[j] == authorized[j]
  {
    forall q, s | 0 <= q < s < |sorted| ensures sorted[q] != sorted[s] {
      PlacesDiffer(sorted, q, s);
    }
    r := authorized;
    for n := b.maxPrefixes.value to |sorted|
      invariant |r| == |authorized|
      invariant forall p :: 0 <= p < |sorted| ==>
                  r[sorted[p]] == if p < b.maxPrefixes.value || p >= n then authorized[sorted[p]]
                                  else authorized[sorted[p]].(rejected := true,
                                    reason := OverBudget(b.clusterID, b.maxPrefixes.value))
      invariant forall j :: 0 <= j < |r| && j !in sorted ==> r[j] == authorized[j]
    {
      var idx := sorted[n];
      r := r[idx := r[idx].(rejected := true, reason := OverBudget(b.clusterID, b.maxPrefixes.value))];
    }
  }

  lemma {:induction false} SizeAtMost<T>(s: seq<T>)
    ensures |set x | x in s| <= |s|
  {
    if s != [] {
      var n := |s| - 1;
      SizeAtMost(s[..n]);
      assert s == s[..n] + [s[n]];
      assert (set x | x in s) == (set x | x in s[..n]) + {s[n]};
    }
  }

  lemma MemberKey(parse: Parser, bindings: seq<ClusterBinding>, routes: seq<Route>, clusterID: string, i: nat)
    requires i < |routes| && ClusterOf(parse, bindings, routes[i].prefix) == Some(clusterID)
    ensures routes[i].prefix in Mapped(PrefixAt(routes), Members(parse, bindings, routes, clusterID, |routes|))
  {
    var ms := Members(parse, bindings, routes, clusterID, |routes|);
    MembersExactly(parse, bindings, routes, clusterID, |routes|);
    var q :| 0 <= q < |ms| && ms[q] == i;
    assert Mapped(PrefixAt(routes), ms)[q] == routes[i].prefix;
  }

  /** A cluster within its budget has fewer prefixes ahead of any of its routes than it has routes. */
  lemma FewerAheadThanMembers(parse: Parser, bindings: seq<ClusterBinding>, routes: seq<Route>, clusterID: string,
                              j: nat)
    requires j < |routes| && ClusterOf(parse, bindings, routes[j].prefix) == Some(clusterID)
    ensures |Ahead(parse, bindings, routes, routes[j].prefix)| < |Members(parse, bindings, routes, clusterID, |routes|)|
  {
    var ms := Members(parse, bindings, routes, clusterID, |routes|);
    var keys := Mapped(PrefixAt(routes), ms);
    var ahead := Ahead(parse, bindings, routes, routes[j].prefix);
    LessTotal(routes[j].prefix, routes[j].prefix);
    forall x | x in ahead + {routes[j].prefix} ensures x in keys {
      var i :| 0 <= i < |routes| && routes[i].prefix == x && ClusterOf(parse, bindings, x) == Some(clusterID);
      MemberKey(parse, bindings, routes, clusterID, i);
    }
    SubsetSize(ahead + {routes[j].prefix}, set x | x in keys);
    SizeAtMost(keys);
  }

  /** Where the budgets of the first n bindings have left the routes. */
  ghost predicate Enforced(parse: Parser, bindings: seq<ClusterBinding>, routes: seq<Route>, out: seq<Route>, n: nat)
    requires n <= |bindings|
  {
    && |out| == |routes|
    && (forall j :: 0 <= j < |routes| ==> BudgetOnly(Attributed(parse, bindings, routes[j]), out[j]))
    && (forall i :: 0 <= i < n && bindings[i].maxPrefixes.Some? && bindings[i].maxPrefixes.value >= 0 ==>
          |Accepted(parse, bindings, routes, out, bindings[i].clusterID)| <= bindings[i].maxPrefixes.value)
    && (DistinctPrefixes(routes) ==> forall j :: 0 <= j < |routes| ==>
         out[j] == Budgeted(parse, bindings, routes, routes[j], n))
  }

  /** A binding without a budget, or whose cluster is within it, changes nothing. */
  lemma WithinBudget(parse: Parser, bindings: seq<ClusterBinding>, routes: seq<Route>, out: seq<Route>, n: nat)
    requires n < |bindings| && Enforced(parse, bindings, routes, out, n)
    requires var b := bindings[n];
             b.maxPrefixes.Some? && b.maxPrefixes.value >= 0 ==>
             |Members(parse, bindings, routes, b.clusterID, |routes|)| <= b.maxPrefixes.value
    ensures Enforced(parse, bindings, routes, out, n + 1)
  {
    var b := bindings[n];
    if b.maxPrefixes.Some? && b.maxPrefixes.value >= 0 {
      AcceptedAtMostMembers(parse, bindings, routes, out, b.clusterID);
    }
    forall j | 0 <= j < |routes|
      ensures Budgeted(parse, bindings, routes, routes[j], n + 1) == Budgeted(parse, bindings, routes, routes[j], n) {
      WithinBudgetAt(parse, bindings, routes, n, b, j);
    }
  }

  lemma {:induction false} WithinBudgetAt(parse: Parser, bindings: seq<ClusterBinding>, routes: seq<Route>, n: nat,
                                          b: ClusterBinding, j: nat)
    requires n < |bindings| && bindings[n] == b && j < |routes|
    requires b.maxPrefixes.Some? && b.maxPrefixes.value >= 0 ==>
             |Members(parse, bindings, routes, b.clusterID, |routes|)| <= b.maxPrefixes.value
    ensures Budgeted(parse, bindings, routes, routes[j], n + 1) == Budgeted(parse, bindings, routes, routes[j], n)
  {
    if ClusterOf(parse, bindings, routes[j].prefix) == Some(b.clusterID) {
      FewerAheadThanMembers(parse, bindings, routes, b.clusterID, j);
    }
  }

  lemma AcceptedAtMostMembers(parse: Parser, bindings: seq<ClusterBinding>, routes: seq<Route>, out: seq<Route>,
                              clusterID: string)
    requires |out| == |routes|
    ensures |Accepted(parse, bindings, routes, out, clusterID)| <=
            |Members(parse, bindings, routes, clusterID, |routes|)|
  {
    var ms := Members(parse, bindings, routes, clusterID, |routes|);
    MembersExactly(parse, bindings, routes, clusterID, |routes|);
    SubsetSize(Accepted(parse, bindings, routes, out, clusterID), set j | j in ms);
    SizeAtMost(ms);
  }

  /** What cutting a sorted cluster behind its budget does. */
  ghost predicate IsCut(out: seq<Route>, next: seq<Route>, sorted: seq<nat>, b: ClusterBinding) {
    && b.maxPrefixes.Some? && 0 <= b.maxPrefixes.value < |sorted|
    && |next| == |out|
    && (forall p :: 0 <= p < |sorted| ==> sorted[p] < |out|)
    && (forall p :: 0 <= p < |sorted| ==>
          next[sorted[p]] == if p < b.maxPrefixes.value then out[sorted[p]]
                             else out[sorted[p]].(rejected := true,
                               reason := OverBudget(b.clusterID, b.maxPrefixes.value)))
    && (forall j :: 0 <= j < |out| && j !in sorted ==> next[j] == out[j])
  }

  ghost predicate SortedMembers(parse: Parser, bindings: seq<ClusterBinding>, routes: seq<Route>, sorted: seq<nat>,
                                clusterID: string)
  {
    && SortedByPrefix(sorted, routes)
    && multiset(sorted) == multiset(Members(parse, bindings, routes, clusterID, |routes|))
  }

  lemma MemberHasPlace(parse: Parser, bindings: seq<ClusterBinding>, routes: seq<Route>, sorted: seq<nat>,
                       clusterID: string, j: nat)
    requires SortedMembers(parse, bindings, routes, sorted, clusterID) && j < |routes|
    ensures j in sorted <==> ClusterOf(parse, bindings, routes[j].prefix) == Some(clusterID)
  {
    SortedContents(parse, bindings, routes, clusterID, sorted);
  }

  lemma CutIsBudgetOnly(parse: Parser, bindings: seq<ClusterBinding>, routes: seq<Route>, out: seq<Route>,
                        next: seq<Route>, sorted: seq<nat>, b: ClusterBinding, j: nat)
    requires |out| == |routes| && j < |routes| && IsCut(out, next, sorted, b)
    requires BudgetOnly(Attributed(parse, bindings, routes[j]), out[j])
    ensures BudgetOnly(Attributed(parse, bindings, routes[j]), next[j])
    ensures out[j].rejected ==> next[j].rejected
  {
  }

  lemma CutAccepts(parse: Parser, bindings: seq<ClusterBinding>, routes: seq<Route>, out: seq<Route>, next: seq<Route>,
                   sorted: seq<nat>, b: ClusterBinding)
    requires |out| == |routes| && IsCut(out, next, sorted, b)
             && SortedMembers(parse, bindings, routes, sorted, b.clusterID)
    ensures |Accepted(parse, bindings, routes, next, b.clusterID)| <= b.maxPrefixes.value
  {
    var front := sorted[..b.maxPrefixes.value];
    forall j | j in Accepted(parse, bindings, routes, next, b.clusterID) ensures j in front {
      MemberHasPlace(parse, bindings, routes, sorted, b.clusterID, j);
      var p :| 0 <= p < |sorted| && sorted[p] == j;
      assert p < b.maxPrefixes.value;
      assert front[p] == j;
    }
    SubsetSize(Accepted(parse, bindings, routes, next, b.clusterID), set j | j in front);
    SizeAtMost(front);
  }

  lemma CutIsBudgeted(parse: Parser, bindings: seq<ClusterBinding>, routes: seq<Route>, out: seq<Route>,
                      next: seq<Route>, sorted: seq<nat>, n: nat, j: nat)
    requires n < |bindings| && |out| == |routes| && j < |routes| && DistinctPrefixes(routes)
    requires IsCut(out, next, sorted, bindings[n])
             && SortedMembers(parse, bindings, routes, sorted, bindings[n].clusterID)
    requires out[j] == Budgeted(parse, bindings, routes, routes[j], n)
    ensures next[j] == Budgeted(parse, bindings, routes, routes[j], n + 1)
  {
    MemberHasPlace(parse, bindings, routes, sorted, bindings[n].clusterID, j);
    if j in sorted {
      var p :| 0 <= p < |sorted| && sorted[p] == j;
      RankIsPlace(parse, bindings, routes, bindings[n].clusterID, sorted, p);
    }
  }

  /** Cutting one more cluster enforces one more budget and undoes none. */
  lemma CutEnforces(parse: Parser, bindings: seq<ClusterBinding>, routes: seq<Route>, out: seq<Route>, next: seq<Route>,
                    sorted: seq<nat>, n: nat)
    requires n < |bindings| && Enforced(parse, bindings, routes, out, n)
    requires IsCut(out, next, sorted, bindings[n])
             && SortedMembers(parse, bindings, routes, sorted, bindings[n].clusterID)
    ensures Enforced(parse, bindings, routes, next, n + 1)
  {
    forall j | 0 <= j < |routes|
      ensures BudgetOnly(Attributed(parse, bindings, routes[j]), next[j]) && (out[j].rejected ==> next[j].rejected)
    {
      CutIsBudgetOnly(parse, bindings, routes, out, next, sorted, bindings[n], j);
    }
    forall i | 0 <= i < n + 1 && bindings[i].maxPrefixes.Some? && bindings[i].maxPrefixes.value >= 0
      ensures |Accepted(parse, bindings, routes, next, bindings[i].clusterID)| <= bindings[i].maxPrefixes.value
    {
      if i == n {
        CutAccepts(parse, bindings, routes, out, next, sorted, bindings[n]);
      } else {
        SubsetSize(Accepted(parse, bindings, routes, next, bindings[i].clusterID),
          Accepted(parse, bindings, routes, out, bindings[i].clusterID));
      }
    }
    if DistinctPrefixes(routes) {
      forall j | 0 <= j < |routes| ensures next[j] == Budgeted(parse, bindings, routes, routes[j], n + 1) {
        CutIsBudgeted(parse, bindings, routes, out, next, sorted, n, j);
      }
    }
  }

  lemma IndicesInRange(parse: Parser, bindings: seq<ClusterBinding>, routes: seq<Route>, clusterID: string,
                       indices: seq<nat>)
    requires multiset(indices) == multiset(Members(parse, bindings, routes, clusterID, |routes|))
    ensures forall j :: j in indices ==> j < |routes|
    ensures forall j :: multiset(indices)[j] <= 1
  {
    SortedContents(parse, bindings, routes, clusterID, indices);
  }

  lemma SameOrder(parse: Parser, bindings: seq<ClusterBinding>, routes: seq<Route>, out: seq<Route>, sorted: seq<nat>)
    requires |out| == |routes|
    requires forall j :: 0 <= j < |routes| ==> BudgetOnly(Attributed(parse, bindings, routes[j]), out[j])
    requires SortedByPrefix(sorted, out)
    ensures SortedByPrefix(sorted, routes)
  {
  }

  method EnforceBudget(parse: Parser, routes: seq<Route>, bindings: seq<ClusterBinding>, authorized: seq<Route>,
                       indices: seq<nat>, n: nat)
    returns (next: seq<Route>, sorted: seq<nat>)
    requires n < |bindings| && Enforced(parse, bindings, routes, authorized, n)
    requires multiset(indices) == multiset(Members(parse, bindings, routes, bindings[n].clusterID, |routes|))
    ensures Enforced(parse, bindings, routes, next, n + 1)
    ensures multiset(sorted) == multiset(indices)
  {
    var b := bindings[n];
    assert |indices| == |multiset(indices)| == |Members(parse, bindings, routes, b.clusterID, |routes|)|;
    if b.maxPrefixes.None? || b.maxPrefixes.value < 0 || |indices| <= b.maxPrefixes.value {
      WithinBudget(parse, bindings, routes, authorized, n);
      return authorized, indices;
    }
    IndicesInRange(parse, bindings, routes, b.clusterID, indices);
    sorted := SortByPrefix(indices, authorized);
    SameOrder(parse, bindings, routes, authorized, sorted);
    next := Cut(authorized, sorted, b);
    CutEnforces(parse, bindings, routes, authorized, next, sorted, n);
  }

  /**
   * Authorize keeps every route in place. It attributes each to its first matching binding; per
   * cluster it accepts at most the budget of every binding; and on distinct prefixes each route's
   * outcome is the one its cluster's order and budgets decide. It fails exactly if some prefix it
   * looks at does not parse.
   */
  method Authorize(parse: Parser, routes: seq<Route>, bindings: seq<ClusterBinding>) returns (r: Result<seq<Route>>)
    ensures r.Ok? <==> forall i :: 0 <= i < |routes| ==> MatchBinding(parse, routes[i].prefix, bindings).Ok?
    ensures r.Ok? ==> Enforced(parse, bindings, routes, r.value, |bindings|)
  {
    var matched;
    r, matched := AttributeAll(parse, routes, bindings);
    if r.Err? {
      return;
    }
    var authorized := r.value;
    for n := 0 to |bindings|
      invariant Enforced(parse, bindings, routes, authorized, n)
      invariant forall c :: multiset(Listed(matched, c)) == multiset(Members(parse, bindings, routes, c, |routes|))
    {
      var sorted;
      var indices := Listed(matched, bindings[n].clusterID);
      authorized, sorted := EnforceBudget(parse, routes, bindings, authorized, indices, n);
      matched := matched[bindings[n].clusterID := sorted];
    }
    r := Ok(authorized);
  }

  // ----- Independence from the order of routes

  function OutcomeIn(parse: Parser, bindings: seq<ClusterBinding>, routes: seq<Route>): Route -> Route {
    r => Outcome(parse, bindings, routes, r)
  }

  /** On distinct prefixes the outputs are the same whatever order the routes came in. */
  lemma OrderOfRoutesIsInvisible(parse: Parser, bindings: seq<ClusterBinding>, routes: seq<Route>, permuted: seq<Route>,
                                 out: seq<Route>, out': seq<Route>)
    requires multiset(routes) == multiset(permuted)
    requires DistinctPrefixes(routes) && DistinctPrefixes(permuted)
    requires Enforced(parse, bindings, routes, out, |bindings|) && Enforced(parse, bindings, permuted, out', |bindings|)
    ensures multiset(out) == multiset(out')
  {
    assert forall q :: q in routes <==> q in permuted by {
      forall q ensures q in routes <==> q in permuted {
        assert q in routes <==> q in multiset(routes);
        assert q in permuted <==> q in multiset(permuted);
      }
    }
    var f := OutcomeIn(parse, bindings, routes);
    assert out == Mapped(f, routes);
    forall i | 0 <= i < |permuted| ensures out'[i] == f(permuted[i]) {
      ClustersAreIsolated(parse, bindings, routes, permuted, permuted[i], |bindings|);
    }
    assert out' == Mapped(f, permuted);
    MappedPermutation(f, routes, permuted);
  }
}

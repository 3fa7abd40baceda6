/**
 * Where a rendered EndpointSlice comes from, across the whole pipeline: Authorize, Normalize, the
 * records of earlier sweeps, Damp, Select and Render (the stage order of internal/snapshot/source.go).
 */
module Provenance {
  import opened Types
  import opened Damper
  import opened Render
  import opened Report
  import opened Records
  import opened Views
  import opened Paths
  import opened Runs
  import opened Authorization
  import opened Normalization

  /** What one snapshot read, and what Authorize made of its routes. */
  datatype Snapshot = Snapshot(
    routes: seq<Route>,
    bindings: seq<ClusterBinding>,
    authorized: seq<Route>,
    communityMap: Option<CommunityMap>)

  /** The candidates are what Authorize and then Normalize produce. */
  ghost predicate Produces(parse: Parser, s: Snapshot, candidates: seq<Candidate>) {
    && Enforced(parse, s.bindings, s.routes, s.authorized, |s.bindings|)
    && |candidates| == |s.authorized|
    && forall i :: 0 <= i < |candidates| ==> Normalized(s.authorized[i], s.communityMap) == Ok(candidates[i])
  }

  /** Binding n is the first to cover the prefix's address. */
  ghost predicate FirstToCover(parse: Parser, bindings: seq<ClusterBinding>, prefix: string, n: nat) {
    && n < |bindings| && parse(prefix).Some?
    && Covers(parse, bindings[n], parse(prefix).value.ip)
    && forall j :: 0 <= j < n ==> !Covers(parse, bindings[j], parse(prefix).value.ip)
  }

  /** The snapshot held a route for the prefix, and its first covering binding gives this cluster and locality. */
  ghost predicate Vouched(parse: Parser, s: Snapshot, c: Candidate) {
    && (exists r :: r in s.routes && r.prefix == c.prefix)
    && exists n: nat :: FirstToCover(parse, s.bindings, c.prefix, n)
                   && s.bindings[n].clusterID == c.clusterID && s.bindings[n].locality == c.locality
  }

  lemma MatchedIsFirst(parse: Parser, bindings: seq<ClusterBinding>, prefix: string, b: ClusterBinding) returns (n: nat)
    requires MatchBinding(parse, prefix, bindings) == Ok(Some(b))
    ensures FirstToCover(parse, bindings, prefix, n) && bindings[n] == b
  {
    var ip := parse(prefix).value.ip;
    ScanFindsFirst(parse, ip, bindings);
    n :| 0 <= n < |bindings| && bindings[n] == b && Covers(parse, bindings[n], ip)
         && forall j :: 0 <= j < n ==> !Covers(parse, bindings[j], ip);
  }

  /** Nothing gets past Authorize and Normalize unrejected without a binding that covers it. */
  lemma UnrejectedIsVouched(parse: Parser, s: Snapshot, candidates: seq<Candidate>, c: Candidate)
    requires Produces(parse, s, candidates) && c in candidates
    ensures c.damping.None?
    ensures !c.rejected ==> Vouched(parse, s, c)
  {
    var i :| 0 <= i < |candidates| && candidates[i] == c;
    NormalizedCarries(s.authorized[i], s.communityMap);
    RejectedExactly(s.authorized[i], s.communityMap);
    if !c.rejected {
      AcceptedIsVouched(parse, s, i, c);
    }
  }

  lemma AcceptedIsVouched(parse: Parser, s: Snapshot, i: nat, c: Candidate)
    requires Enforced(parse, s.bindings, s.routes, s.authorized, |s.bindings|)
    requires i < |s.authorized| && !s.authorized[i].rejected
    requires c.prefix == s.authorized[i].prefix && c.clusterID == s.authorized[i].clusterID
             && c.locality == s.authorized[i].locality
    ensures Vouched(parse, s, c)
  {
    var route := s.routes[i];
    assert BudgetOnly(Attributed(parse, s.bindings, route), s.authorized[i]);
    assert route in s.routes;
    var b := MatchBinding(parse, route.prefix, s.bindings).value.value;
    var n := MatchedIsFirst(parse, s.bindings, route.prefix, b);
  }

  // ----- The candidate a record remembers

  function Erased(c: Candidate): Candidate {
    c.(reason := NoReason, damping := None)
  }

  /** A candidate of the snapshot, under this name and not rejected, apart from reason and verdict. */
  ghost predicate PresentAs(t: Tick, k: string, p: Candidate) {
    exists c :: c in t.candidates && !c.rejected && NameOf(c) == k && p == Erased(c)
  }

  predicate RememberedAs(store: Store, k: string, p: Candidate) {
    k in Memory(store) && p == Memory(store)[k].candidate
  }

  /** What a reported candidate is remembered as. */
  lemma ReportedCandidate(env: Env, store: Store, t: Tick, k: string, i: nat)
    requires Feasible(store, t) && StoreOk(store, t.now)
    requires i < |Desired(env, store, t)| && Desired(env, store, t)[i].name == k
    requires Remembered(Desired(env, store, t)[i].status).Some?
    ensures var p := Remembered(Desired(env, store, t)[i].status).value.candidate;
            PresentAs(t, k, p) || (k !in Seen(t.candidates) && RememberedAs(store, k, p))
  {
    var c := Settled(env, store, t)[i];
    DesiredOk(env, store, t, i);
    SettledAt(env, store, t, c);
    PersistRestore(env.parse, c, t.policies, t.now);
    if i < |t.candidates| {
      PresentAt(env, store, t, i);
      assert t.candidates[i] in t.candidates && Erased(c) == Erased(t.candidates[i]);
    } else {
      SettledHeld(env, store, t, i);
      AbsentAt(env, store, t, c);
      MemoryIsErased(store, k);
    }
  }

  lemma MemoryIsErased(store: Store, k: string)
    requires k in Memory(store)
    ensures Erased(Memory(store)[k].candidate) == Memory(store)[k].candidate
  {
  }

  lemma ReportedMemory(next: Store, k: string, s: Status)
    requires k in Memory(next) && SameReport(next[k].status, s)
    ensures Remembered(s).Some? && Memory(next)[k] == Remembered(s).value
  {
  }

  lemma CompleteCandidateStep(env: Env, store: Store, t: Tick, k: string)
    requires Feasible(store, t) && StoreOk(store, t.now) && Complete(t)
    requires k in Memory(Sweep(env, store, t))
    ensures var p := Memory(Sweep(env, store, t))[k].candidate;
            PresentAs(t, k, p) || (k !in Seen(t.candidates) && RememberedAs(store, k, p))
  {
    var i := CompleteOutcome(store, Desired(env, store, t), t.at, k);
    ReportedMemory(Sweep(env, store, t), k, Desired(env, store, t)[i].status);
    ReportedCandidate(env, store, t, k, i);
  }

  lemma AnyCandidateStep(env: Env, store: Store, t: Tick, k: string)
    requires Feasible(store, t) && StoreOk(store, t.now)
    requires k in Memory(Sweep(env, store, t))
    ensures var p := Memory(Sweep(env, store, t))[k].candidate;
            PresentAs(t, k, p) || RememberedAs(store, k, p)
  {
    var o := SweepOutcome(env, store, t, k);
    if o.Reported? {
      ReportedMemory(Sweep(env, store, t), k, Desired(env, store, t)[o.index].status);
      ReportedCandidate(env, store, t, k, o.index);
    }
  }

  /** Across one sweep a remembered candidate is the present one, or the one remembered before. */
  lemma CandidateStep(env: Env, store: Store, t: Tick, k: string, p: Candidate)
    requires Feasible(store, t) && StoreOk(store, t.now)
    requires RememberedAs(Sweep(env, store, t), k, p)
    ensures PresentAs(t, k, p) || (RememberedAs(store, k, p) && (Complete(t) ==> k !in Seen(t.candidates)))
  {
    if Complete(t) {
      CompleteCandidateStep(env, store, t, k);
    } else {
      AnyCandidateStep(env, store, t, k);
    }
  }

  // ----- Over runs

  /** Sweep j's snapshot vouched for the candidate, and no completed sweep since has seen the name present. */
  ghost predicate VouchedAt(env: Env, ticks: seq<Tick>, snaps: seq<Snapshot>, k: string, i: nat, j: nat, c: Candidate)
    requires |ticks| == |snaps| && i <= |ticks|
  {
    && j < i
    && k in Seen(ticks[j].candidates) && Vouched(env.parse, snaps[j], c)
    && forall m :: j < m < i && Complete(ticks[m]) ==> k !in Seen(ticks[m].candidates)
  }

  ghost predicate IsIngested(env: Env, ticks: seq<Tick>, snaps: seq<Snapshot>) {
    |ticks| == |snaps| && forall i :: 0 <= i < |ticks| ==> Produces(env.parse, snaps[i], ticks[i].candidates)
  }

  lemma PresentIsVouched(parse: Parser, t: Tick, snap: Snapshot, k: string, p: Candidate)
    requires Produces(parse, snap, t.candidates) && PresentAs(t, k, p)
    ensures Vouched(parse, snap, p) && k in Seen(t.candidates)
  {
    var c :| c in t.candidates && !c.rejected && NameOf(c) == k && p == Erased(c);
    UnrejectedIsVouched(parse, snap, t.candidates, c);
  }

  function CandidateIn(store: Store, k: string): Option<Candidate> {
    if k in Memory(store) then Some(Memory(store)[k].candidate) else None
  }

  /** What is remembered after a sweep was present in it, or remembered before it. */
  ghost predicate CarriedAt(t: Tick, k: string, before: Option<Candidate>, p: Candidate) {
    PresentAs(t, k, p) || (before == Some(p) && (Complete(t) ==> k !in Seen(t.candidates)))
  }

  ghost predicate Carried(ticks: seq<Tick>, k: string, cs: seq<Option<Candidate>>) {
    && |cs| == |ticks| + 1 && cs[0].None?
    && forall i :: 0 <= i < |ticks| && cs[i + 1].Some? ==> CarriedAt(ticks[i], k, cs[i], cs[i + 1].value)
  }

  lemma RunCarriesAt(env: Env, h: seq<Store>, ticks: seq<Tick>, k: string, i: nat)
    requires IsRun(env, h, ticks) && i < |ticks| && CandidateIn(h[i + 1], k).Some?
    ensures CarriedAt(ticks[i], k, CandidateIn(h[i], k), CandidateIn(h[i + 1], k).value)
  {
    assert Feasible(h[i], ticks[i]) && h[i + 1] == Sweep(env, h[i], ticks[i]);
    RunInvariant(env, h, ticks, i, ticks[i].now);
    CandidateStep(env, h[i], ticks[i], k, CandidateIn(h[i + 1], k).value);
  }

  ghost function CandidatesOf(h: seq<Store>, k: string): (cs: seq<Option<Candidate>>)
    ensures |cs| == |h|
    ensures forall i :: 0 <= i < |h| ==> cs[i] == CandidateIn(h[i], k)
  {
    seq(|h|, i requires 0 <= i < |h| => CandidateIn(h[i], k))
  }

  lemma RunCarries(env: Env, h: seq<Store>, ticks: seq<Tick>, k: string)
    requires IsRun(env, h, ticks)
    ensures Carried(ticks, k, CandidatesOf(h, k))
  {
    forall i | 0 <= i < |ticks| && CandidateIn(h[i + 1], k).Some?
      ensures CarriedAt(ticks[i], k, CandidateIn(h[i], k), CandidateIn(h[i + 1], k).value)
    {
      RunCarriesAt(env, h, ticks, k, i);
    }
  }

  /** Sweep j had the candidate present, and no completed sweep since has. */
  ghost predicate LastPresentAt(ticks: seq<Tick>, k: string, i: nat, j: nat, p: Candidate)
    requires i <= |ticks|
  {
    && j < i && PresentAs(ticks[j], k, p)
    && forall m :: j < m < i && Complete(ticks[m]) ==> k !in Seen(ticks[m].candidates)
  }

  lemma {:induction false} CarriedFrom(ticks: seq<Tick>, k: string, cs: seq<Option<Candidate>>, i: nat, p: Candidate)
    returns (j: nat)
    requires Carried(ticks, k, cs) && i <= |ticks| && cs[i] == Some(p)
    ensures LastPresentAt(ticks, k, i, j, p)
    decreases i
  {
    assert i > 0 && CarriedAt(ticks[i - 1], k, cs[i - 1], p);
    if PresentAs(ticks[i - 1], k, p) {
      j := i - 1;
    } else {
      j := CarriedFrom(ticks, k, cs, i - 1, p);
    }
  }

  /** Whatever a record remembers was vouched for by the snapshot in which its name was last present. */
  lemma RecordsAreVouched(env: Env, h: seq<Store>, ticks: seq<Tick>, snaps: seq<Snapshot>, k: string, i: nat,
                          p: Candidate)
    returns (j: nat)
    requires IsRun(env, h, ticks) && IsIngested(env, ticks, snaps) && i <= |ticks|
    requires RememberedAs(h[i], k, p)
    ensures VouchedAt(env, ticks, snaps, k, i, j, p)
  {
    RunCarries(env, h, ticks, k);
    j := CarriedFrom(ticks, k, CandidatesOf(h, k), i, p);
    PresentIsVouched(env.parse, ticks[j], snaps[j], k, p);
  }

  /**
   * Provenance: at any moment of a run, every EndpointSlice a policy reconcile renders stands for a
   * candidate that is not rejected, Dampened or Pending, and whose cluster and locality come from
   * the first binding that covers its address, in the snapshot the reconcile itself took or in that
   * of the sweep where its name was last present.
   */
  lemma SlicesAreVouched(env: Env, h: seq<Store>, ticks: seq<Tick>, snaps: seq<Snapshot>, i: nat,
                         t: Tick, snap: Snapshot, policy: Policy, s: EndpointSlice) returns (c: Candidate)
    requires IsRun(env, h, ticks) && IsIngested(env, ticks, snaps) && i <= |ticks|
    requires i > 0 ==> ticks[i - 1].at <= t.now
    requires Feasible(h[i], t) && Produces(env.parse, snap, t.candidates)
    requires RenderPolicy(env.parse, policy, Settled(env, h[i], t)).Ok?
             && s in RenderPolicy(env.parse, policy, Settled(env, h[i], t)).value
    ensures c in Settled(env, h[i], t) && RenderSlice(env.parse, policy, c) == Ok(s)
    ensures !c.rejected && c.damping.Some? && (c.damping.value.state.Active? || c.damping.value.state.HoldDown?)
    ensures Vouched(env.parse, snap, c) || exists j: nat :: VouchedAt(env, ticks, snaps, NameOf(c), i, j, c)
  {
    RunInvariant(env, h, ticks, i, t.now);
    c := ServedCandidate(env, h[i], t, policy, s);
    CandidateIsVouched(env, h, ticks, snaps, i, t, snap, c);
  }

  lemma CandidateIsVouched(env: Env, h: seq<Store>, ticks: seq<Tick>, snaps: seq<Snapshot>, i: nat, t: Tick,
                           snap: Snapshot, c: Candidate)
    requires IsRun(env, h, ticks) && IsIngested(env, ticks, snaps) && i <= |ticks|
    requires Produces(env.parse, snap, t.candidates)
    requires RememberedAs(h[i], NameOf(c), Erased(c)) || PresentAs(t, NameOf(c), Erased(c))
    ensures Vouched(env.parse, snap, c) || exists j: nat :: VouchedAt(env, ticks, snaps, NameOf(c), i, j, c)
  {
    if PresentAs(t, NameOf(c), Erased(c)) {
      PresentIsVouched(env.parse, t, snap, NameOf(c), Erased(c));
    } else {
      var j := RecordsAreVouched(env, h, ticks, snaps, NameOf(c), i, Erased(c));
      SameVouching(env, ticks, snaps, NameOf(c), i, j, Erased(c), c);
    }
  }

  lemma SameVouching(env: Env, ticks: seq<Tick>, snaps: seq<Snapshot>, k: string, i: nat, j: nat, c: Candidate,
                     d: Candidate)
    requires |ticks| == |snaps| && i <= |ticks| && VouchedAt(env, ticks, snaps, k, i, j, c)
    requires c.prefix == d.prefix && c.clusterID == d.clusterID && c.locality == d.locality
    ensures VouchedAt(env, ticks, snaps, k, i, j, d)
  {
  }

  /** The candidate behind a rendered slice is served, and is present or remembered. */
  lemma ServedCandidate(env: Env, store: Store, t: Tick, policy: Policy, s: EndpointSlice) returns (c: Candidate)
    requires Feasible(store, t) && StoreOk(store, t.now)
    requires RenderPolicy(env.parse, policy, Settled(env, store, t)).Ok?
             && s in RenderPolicy(env.parse, policy, Settled(env, store, t)).value
    ensures c in Settled(env, store, t) && RenderSlice(env.parse, policy, c) == Ok(s)
    ensures !c.rejected && c.damping.Some? && (c.damping.value.state.Active? || c.damping.value.state.HoldDown?)
    ensures RememberedAs(store, NameOf(c), Erased(c)) || PresentAs(t, NameOf(c), Erased(c))
  {
    RenderedFrom(env.parse, policy, Settled(env, store, t), s);
    c :| c in Settled(env, store, t) && Chosen(env.parse, c, policy.selector) == Ok(true)
      && RenderSlice(env.parse, policy, c) == Ok(s);
    SettledAt(env, store, t, c);
    Origin(env, store, t, c);
  }

  lemma Origin(env: Env, store: Store, t: Tick, c: Candidate)
    requires Feasible(store, t) && StoreOk(store, t.now)
    requires c in Settled(env, store, t) && !c.rejected
    ensures RememberedAs(store, NameOf(c), Erased(c)) || PresentAs(t, NameOf(c), Erased(c))
  {
    var settled := Settled(env, store, t);
    var i :| 0 <= i < |settled| && settled[i] == c;
    if i < |t.candidates| {
      assert t.candidates[i] in t.candidates && Erased(t.candidates[i]) == Erased(c);
    } else {
      SettledHeld(env, store, t, i);
      AbsentAt(env, store, t, c);
      MemoryIsErased(store, NameOf(c));
    }
  }

  // ----- A reason that is lost

  /**
   * Under Warn, a route that no rule matches becomes a candidate that carries the reason; whatever Damp
   * then says of it, its record is the one it would have without that reason.
   */
  lemma WarningIsLost(parse: Parser, route: Route, cm: CommunityMap, damping: Option<Damping>, policies: seq<Policy>)
    requires !route.rejected && cm.onUnmapped.Warn? && Unmatched(route, cm)
    ensures var r := Normalized(route, Some(cm));
            && r.Ok? && r.value.reason == Unmapped(route.largeCommunities)
            && var c := r.value.(damping := damping);
               BuildStatus(parse, c, policies) == BuildStatus(parse, c.(reason := NoReason), policies)
  {
    WarnLetsThrough(route, cm);
    ReasonShowsIffRejected(parse, Normalized(route, Some(cm)).value.(damping := damping), NoReason, policies);
  }
}

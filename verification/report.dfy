/**
 * The Report stage and its inverse: internal/report/build.go turns an evaluated snapshot into
 * AdvertisedBackend records, internal/damp/damp.go reads the damping state back out of them.
 */
module Report {
  import opened Types
  import opened Text
  import opened Names
  import opened Damper
  import opened Render

  const MANAGED_BY_VALUE := "advertisedbackend"

  const BACKEND_LABELS: Labels := map[MANAGED_BY_LABEL := MANAGED_BY_VALUE]

  // ----- Writing

  function MetaTime(t: Time): Option<Time> {
    if t == 0 then None else Some(t)
  }

  function MetaTimeOrNil(t: Option<Time>): Option<Time> {
    if t.None? then None else MetaTime(t.value)
  }

  function ClampToInt32(f: real): (n: int)
    ensures MIN_INT32 <= n <= MAX_INT32
    ensures MIN_INT32 < n < MAX_INT32 ==> f - 0.5 <= n as real <= f + 0.5
    ensures n == MAX_INT32 ==> f >= MAX_INT32 as real - 0.5
    ensures n == MIN_INT32 ==> f <= MIN_INT32 as real + 0.5
    ensures MIN_INT32 as real <= f <= MAX_INT32 as real ==> n == Round(f)
  {
    var rounded := Round(f);
    if rounded > MAX_INT32 then MAX_INT32
    else if rounded < MIN_INT32 then MIN_INT32
    else rounded
  }

  function StateAndReason(c: Candidate): (State, Reason) {
    if c.rejected then (Rejected, c.reason)
    else if c.damping.Some?
      && (c.damping.value.state.Pending? || c.damping.value.state.HoldDown? || c.damping.value.state.Dampened?) then
      (c.damping.value.state, c.damping.value.reason)
    else if c.drain then (Draining, NoReason)
    else (Active, NoReason)
  }

  function StabilityOf(damping: Option<Damping>): Stability {
    match damping
    case None => NO_STABILITY
    case Some(d) =>
      Stability(d.flapCount, ClampToInt32(d.score), MetaTime(d.lastObservedAt), MetaTimeOrNil(d.withdrawnAt),
                MetaTimeOrNil(d.suppressedSince), MetaTimeOrNil(d.pendingSince))
  }

  /** The status of a candidate, given what its bindings are. */
  function StatusWith(c: Candidate, boundPolicies: seq<string>, generatedResources: seq<string>): Status {
    var (state, reason) := StateAndReason(c);
    Status(c.prefix, c.clusterID, c.peer, c.locality,
           Attributes(c.weight, c.tier, c.drain, c.serviceTag, c.med, c.asPath, c.largeCommunities),
           state, reason, None, None, StabilityOf(c.damping), boundPolicies, generatedResources)
  }

  function BuildStatus(parse: Parser, c: Candidate, policies: seq<Policy>): Status {
    StatusWith(c, BoundPolicies(parse, c, policies), GeneratedResources(parse, c, policies))
  }

  function BuildOne(parse: Parser, c: Candidate, policies: seq<Policy>): Backend {
    Backend(NameOf(c), BACKEND_LABELS, BuildStatus(parse, c, policies))
  }

  function BuildAll(parse: Parser, candidates: seq<Candidate>, policies: seq<Policy>): (r: seq<Backend>)
    ensures |r| == |candidates|
  {
    seq(|candidates|, i requires 0 <= i < |candidates| => BuildOne(parse, candidates[i], policies))
  }

  method BuildAdvertisedBackends(parse: Parser, candidates: seq<Candidate>, policies: seq<Policy>)
    returns (backends: seq<Backend>)
    ensures backends == BuildAll(parse, candidates, policies)
  {
    backends := [];
    for n := 0 to |candidates|
      invariant backends == BuildAll(parse, candidates[..n], policies)
    {
      var backend := BuildBackend(parse, candidates[n], policies);
      BuildAllSnoc(parse, candidates[..n], candidates[n], policies);
      assert candidates[..n + 1] == candidates[..n] + [candidates[n]];
      backends := backends + [backend];
    }
    assert candidates[..|candidates|] == candidates;
  }

  method BuildBackend(parse: Parser, c: Candidate, policies: seq<Policy>) returns (backend: Backend)
    ensures backend == BuildOne(parse, c, policies)
  {
    var bound, generated := FindBindings(parse, c, policies);
    return Backend(NameOf(c), BACKEND_LABELS, StatusWith(c, bound, generated));
  }

  lemma BuildAllSnoc(parse: Parser, candidates: seq<Candidate>, c: Candidate, policies: seq<Policy>)
    ensures BuildAll(parse, candidates + [c], policies) ==
            BuildAll(parse, candidates, policies) + [BuildOne(parse, c, policies)]
  {
  }

  // ----- Which policies a record names

  /** Whether a policy selects this candidate alone; a selection error counts as no. */
  predicate Binds(parse: Parser, c: Candidate, policy: Policy) {
    Chosen(parse, c, policy.selector) == Ok(true)
  }

  lemma BindsIsSelectOfOne(parse: Parser, c: Candidate, policy: Policy)
    ensures var r := Select(parse, [c], policy.selector);
            Binds(parse, c, policy) <==> r.Ok? && r.value != []
  {
  }

  function BindingPolicies(parse: Parser, c: Candidate, policies: seq<Policy>): seq<Policy> {
    if policies == [] then []
    else
      var n := |policies| - 1;
      BindingPolicies(parse, c, policies[..n]) + if Binds(parse, c, policies[n]) then [policies[n]] else []
  }

  function PolicyKey(policy: Policy): string {
    policy.namespace + "/" + policy.name
  }

  function ResourceKey(policy: Policy, c: Candidate): string {
    "EndpointSlice/" + policy.namespace + "/" + SliceName(policy, c)
  }

  function ResourceKeyFor(c: Candidate): Policy -> string {
    p => ResourceKey(p, c)
  }

  function BoundPolicies(parse: Parser, c: Candidate, policies: seq<Policy>): seq<string> {
    Sort(Mapped(PolicyKey, BindingPolicies(parse, c, policies)))
  }

  function GeneratedResources(parse: Parser, c: Candidate, policies: seq<Policy>): seq<string> {
    Sort(Mapped(ResourceKeyFor(c), BindingPolicies(parse, c, policies)))
  }

  lemma {:induction false} RejectedBindsNothing(parse: Parser, c: Candidate, policies: seq<Policy>)
    requires c.rejected
    ensures BindingPolicies(parse, c, policies) == []
  {
    if policies != [] {
      RejectedBindsNothing(parse, c, policies[..|policies| - 1]);
    }
  }

  method FindBindings(parse: Parser, c: Candidate, policies: seq<Policy>)
    returns (boundPolicies: seq<string>, generatedResources: seq<string>)
    ensures boundPolicies == BoundPolicies(parse, c, policies)
    ensures generatedResources == GeneratedResources(parse, c, policies)
  {
    boundPolicies, generatedResources := [], [];
    if c.rejected {
      RejectedBindsNothing(parse, c, policies);
      return;
    }
    ghost var bound: seq<Policy> := [];
    for n := 0 to |policies|
      invariant bound == BindingPolicies(parse, c, policies[..n])
      invariant boundPolicies == Mapped(PolicyKey, bound)
      invariant generatedResources == Mapped(ResourceKeyFor(c), bound)
    {
      var policy := policies[n];
      assert policies[..n + 1][..n] == policies[..n];
      BindsIsSelectOfOne(parse, c, policy);
      var selected := SelectBackends(parse, [c], policy.selector);
      if selected.Ok? && selected.value != [] {
        boundPolicies := boundPolicies + [PolicyKey(policy)];
        generatedResources := generatedResources + [ResourceKey(policy, c)];
        bound := bound + [policy];
      }
    }
    assert policies[..|policies|] == policies;
    boundPolicies, generatedResources := Sort(boundPolicies), Sort(generatedResources);
  }

  // ----- Reading back

  function AsPathUint32(asPath: seq<int>): seq<uint32> {
    seq(|asPath|, i requires 0 <= i < |asPath| => ToUint32(asPath[i]))
  }

  function CandidateFromStatus(s: Status): Candidate {
    Candidate(s.prefix, s.clusterID, s.peer, s.locality, ToUint32(s.attributes.med), AsPathUint32(s.attributes.asPath),
              s.attributes.largeCommunities, s.attributes.weight, s.attributes.tier, s.attributes.drain,
              s.attributes.serviceTag, false, NoReason, None)
  }

  function PriorDampingState(s: Status): (State, Reason) {
    if s.state.Pending? || s.state.HoldDown? || s.state.Dampened? then (s.state, s.reason) else (Active, NoReason)
  }

  /** What one record remembers; nothing if Damp never evaluated it. */
  function Remembered(s: Status): Option<PriorState> {
    match s.stability.lastObservedAt
    case None => None
    case Some(last) =>
      var (state, reason) := PriorDampingState(s);
      Some(PriorState(CandidateFromStatus(s),
                      Damping(state, reason, s.stability.dampeningPenalty as real, s.stability.flapCount24h, last,
                              s.stability.withdrawnAt, s.stability.suppressedSince, s.stability.pendingSince)))
  }

  datatype Item = Item(name: string, status: Status)

  /** A listing without repeated names, and what each name remembers. */
  method PriorStateFromAdvertisedBackends(items: seq<Item>) returns (prior: map<string, PriorState>)
    requires forall i, j :: 0 <= i < j < |items| ==> items[i].name != items[j].name
    ensures forall i :: 0 <= i < |items| ==> Lookup(prior, items[i].name) == Remembered(items[i].status)
    ensures forall k :: k in prior ==> exists i :: 0 <= i < |items| && items[i].name == k
  {
    prior := map[];
    for n := 0 to |items|
      invariant forall i :: 0 <= i < n ==> Lookup(prior, items[i].name) == Remembered(items[i].status)
      invariant forall k :: k in prior ==> exists i :: 0 <= i < n && items[i].name == k
    {
      var remembered := Remembered(items[n].status);
      if remembered.Some? {
        prior := prior[items[n].name := remembered.value];
      }
    }
  }

  // ----- What a record says

  /**
   * The state and reason of a record: Rejected with the candidate's own reason, else what Damp says if
   * that is Pending, HoldDown or Dampened, else Draining or Active as the candidate drains or not.
   */
  lemma StateExactly(parse: Parser, c: Candidate, policies: seq<Policy>)
    ensures var s := BuildStatus(parse, c, policies);
            && (c.rejected <==> s.state.Rejected?)
            && (c.rejected ==> s.reason == c.reason)
            && (s.state.Pending? || s.state.HoldDown? || s.state.Dampened? ==>
                 c.damping.Some? && s.state == c.damping.value.state && s.reason == c.damping.value.reason)
            && (s.state.Draining? || s.state.Active? ==> s.reason == NoReason)
    ensures !c.rejected && (c.damping.None? || c.damping.value.state.Active?) ==>
              BuildStatus(parse, c, policies).state == if c.drain then Draining else Active
    ensures !c.rejected && c.damping.Some? && !c.damping.value.state.Active? && Verdictlike(c.damping.value.state) ==>
              BuildStatus(parse, c, policies).state == c.damping.value.state
  {
  }

  /** The states that Damp hands out. */
  predicate Verdictlike(state: State) {
    state in {Active, Pending, HoldDown, Dampened}
  }

  /** A record carries what its candidate carries, and nothing is remembered of a verdict without an instant. */
  lemma RecordCarries(parse: Parser, c: Candidate, policies: seq<Policy>)
    ensures var s := BuildStatus(parse, c, policies);
            && s.prefix == c.prefix && s.clusterID == c.clusterID && s.peer == c.peer && s.locality == c.locality
            && s.attributes.weight == c.weight && s.attributes.tier == c.tier && s.attributes.drain == c.drain
            && s.attributes.serviceTag == c.serviceTag && s.attributes.med == c.med
            && s.attributes.asPath == c.asPath && s.attributes.largeCommunities == c.largeCommunities
            && s.firstSeen.None? && s.lastChange.None?
            && (c.damping.None? ==> s.stability == NO_STABILITY)
            && (Remembered(s).Some? <==> c.damping.Some? && c.damping.value.lastObservedAt != 0)
            && (c.damping.Some? ==>
                 && KeepsInstant(s.stability.withdrawnAt, c.damping.value.withdrawnAt)
                 && KeepsInstant(s.stability.suppressedSince, c.damping.value.suppressedSince)
                 && KeepsInstant(s.stability.pendingSince, c.damping.value.pendingSince))
  {
  }

  /** An instant is stored as it is, except that the zero time is stored as none. */
  predicate KeepsInstant(stored: Option<Time>, t: Option<Time>) {
    if t in {None, Some(0)} then stored.None? else stored == t
  }

  // ----- Round trip

  /** What persisting does to a verdict: the score becomes an integer of 32 bits. */
  function Persisted(d: Damping): Damping {
    d.(score := ClampToInt32(d.score) as real)
  }

  /**
   * Restoring undoes building for every evaluated candidate, except that the candidate's own reason
   * and verdict are erased and the score is rounded. An Active candidate that drains is stored as
   * Draining and still comes back Active.
   */
  lemma PersistRestore(parse: Parser, c: Candidate, policies: seq<Policy>, now: Time)
    requires !c.rejected && c.damping.Some? && DampingOk(c.damping.value, now)
    ensures Remembered(BuildStatus(parse, c, policies))
         == Some(PriorState(c.(reason := NoReason, damping := None), Persisted(c.damping.value)))
  {
    RestoreStatus(c, BoundPolicies(parse, c, policies), GeneratedResources(parse, c, policies), now);
  }

  lemma RestoreStatus(c: Candidate, bound: seq<string>, generated: seq<string>, now: Time)
    requires !c.rejected && c.damping.Some? && DampingOk(c.damping.value, now)
    ensures Remembered(StatusWith(c, bound, generated))
         == Some(PriorState(c.(reason := NoReason, damping := None), Persisted(c.damping.value)))
  {
    RestoreCandidate(c, bound, generated);
  }

  lemma RestoreCandidate(c: Candidate, bound: seq<string>, generated: seq<string>)
    requires !c.rejected
    ensures CandidateFromStatus(StatusWith(c, bound, generated)) == c.(reason := NoReason, damping := None)
  {
  }

  /** A record built for a candidate that was never damped remembers nothing. */
  lemma UndampedForgets(parse: Parser, c: Candidate, policies: seq<Policy>)
    requires c.damping.None?
    ensures Remembered(BuildStatus(parse, c, policies)).None?
  {
  }

  lemma ClampMonotone(x: real, n: int)
    requires 0.0 <= x <= n as real
    ensures 0 <= ClampToInt32(x) <= n
  {
    assert x + 0.5 < (n + 1) as real;
  }

  // ----- Report agrees with Render

  function ReportedFor(parse: Parser, policy: Policy, candidates: seq<Candidate>): seq<string> {
    if candidates == [] then []
    else
      var n := |candidates| - 1;
      ReportedFor(parse, policy, candidates[..n]) + GeneratedResources(parse, candidates[n], [policy])
  }

  function SliceKey(s: EndpointSlice): string {
    "EndpointSlice/" + s.namespace + "/" + s.name
  }

  function SliceKeys(slices: seq<EndpointSlice>): (r: seq<string>)
    ensures |r| == |slices|
  {
    seq(|slices|, i requires 0 <= i < |slices| => SliceKey(slices[i]))
  }

  lemma GeneratedForOne(parse: Parser, c: Candidate, policy: Policy)
    ensures GeneratedResources(parse, c, [policy]) == if Binds(parse, c, policy) then [ResourceKey(policy, c)] else []
  {
    assert [policy][..0] == [] && BindingPolicies(parse, c, []) == [];
    var bound := BindingPolicies(parse, c, [policy]);
    assert bound == if Binds(parse, c, policy) then [policy] else [];
    var r := Mapped(ResourceKeyFor(c), bound);
    assert r == if Binds(parse, c, policy) then [ResourceKey(policy, c)] else [];
    SortedUnique(Sort(r), r);
  }

  lemma {:induction false} ReportedIsSelected(parse: Parser, policy: Policy, candidates: seq<Candidate>)
    requires Select(parse, candidates, policy.selector).Ok?
    ensures var selected := Select(parse, candidates, policy.selector).value;
            ReportedFor(parse, policy, candidates) ==
            seq(|selected|, i requires 0 <= i < |selected| => ResourceKey(policy, selected[i]))
  {
    if candidates != [] {
      var n := |candidates| - 1;
      ReportedIsSelected(parse, policy, candidates[..n]);
      GeneratedForOne(parse, candidates[n], policy);
    }
  }

  lemma ReportedForPolicy(parse: Parser, policy: Policy, candidates: seq<Candidate>)
    requires RenderPolicy(parse, policy, candidates).Ok?
    ensures ReportedFor(parse, policy, candidates) == SliceKeys(RenderPolicy(parse, policy, candidates).value)
  {
    ReportedIsSelected(parse, policy, candidates);
    var selected := Select(parse, candidates, policy.selector).value;
    var slices := RenderPolicy(parse, policy, candidates).value;
    forall i | 0 <= i < |selected| ensures SliceKey(slices[i]) == ResourceKey(policy, selected[i]) {
      assert RenderSlice(parse, policy, selected[i]) == Ok(slices[i]);
    }
  }

  /** Everything the records of a snapshot list as generated. */
  function ReportedAll(parse: Parser, policies: seq<Policy>, candidates: seq<Candidate>): multiset<string> {
    if candidates == [] then multiset{}
    else
      var n := |candidates| - 1;
      ReportedAll(parse, policies, candidates[..n]) + multiset(GeneratedResources(parse, candidates[n], policies))
  }

  /** What Render produces for one policy; nothing if it fails. */
  function RenderedFor(parse: Parser, policy: Policy, candidates: seq<Candidate>): multiset<string> {
    var slices := RenderPolicy(parse, policy, candidates);
    if slices.Ok? then multiset(SliceKeys(slices.value)) else multiset{}
  }

  /** Everything Render produces. */
  function RenderedAll(parse: Parser, policies: seq<Policy>, candidates: seq<Candidate>): multiset<string> {
    if policies == [] then multiset{}
    else
      var n := |policies| - 1;
      RenderedAll(parse, policies[..n], candidates) + RenderedFor(parse, policies[n], candidates)
  }

  /** A candidate's resources under several policies are those under each of them, counted. */
  lemma GeneratedSplits(parse: Parser, c: Candidate, policies: seq<Policy>)
    requires policies != []
    ensures var n := |policies| - 1;
            multiset(GeneratedResources(parse, c, policies)) ==
            multiset(GeneratedResources(parse, c, policies[..n]))
              + multiset(GeneratedResources(parse, c, [policies[n]]))
  {
    var n := |policies| - 1;
    GeneratedForOne(parse, c, policies[n]);
    var front := BindingPolicies(parse, c, policies[..n]);
    if Binds(parse, c, policies[n]) {
      MappedJoin(ResourceKeyFor(c), front, [policies[n]]);
      assert Mapped(ResourceKeyFor(c), [policies[n]]) == [ResourceKey(policies[n], c)];
    } else {
      assert front + [] == front;
    }
  }

  lemma {:induction false} ReportedSplits(parse: Parser, policies: seq<Policy>, candidates: seq<Candidate>)
    requires policies != []
    ensures var n := |policies| - 1;
            ReportedAll(parse, policies, candidates) ==
            ReportedAll(parse, policies[..n], candidates) + multiset(ReportedFor(parse, policies[n], candidates))
  {
    if candidates != [] {
      var m := |candidates| - 1;
      ReportedSplits(parse, policies, candidates[..m]);
      GeneratedSplits(parse, candidates[m], policies);
    }
  }

  lemma {:induction false} NothingReported(parse: Parser, candidates: seq<Candidate>)
    ensures ReportedAll(parse, [], candidates) == multiset{}
  {
    if candidates != [] {
      NothingReported(parse, candidates[..|candidates| - 1]);
    }
  }

  /** No record names the policy as bound. */
  ghost predicate BindsNothing(parse: Parser, policy: Policy, candidates: seq<Candidate>) {
    forall c :: c in candidates ==> !Binds(parse, c, policy)
  }

  lemma {:induction false} NothingReportedIff(parse: Parser, policy: Policy, candidates: seq<Candidate>)
    ensures ReportedFor(parse, policy, candidates) == [] <==> BindsNothing(parse, policy, candidates)
  {
    if candidates != [] {
      var n := |candidates| - 1;
      NothingReportedIff(parse, policy, candidates[..n]);
      GeneratedForOne(parse, candidates[n], policy);
      BindsNothingSplits(parse, policy, candidates);
    }
  }

  lemma BindsNothingSplits(parse: Parser, policy: Policy, candidates: seq<Candidate>)
    requires candidates != []
    ensures var n := |candidates| - 1;
            BindsNothing(parse, policy, candidates) <==>
            BindsNothing(parse, policy, candidates[..n]) && !Binds(parse, candidates[n], policy)
  {
    var n := |candidates| - 1;
    assert candidates == candidates[..n] + [candidates[n]];
  }

  /** The policy renders, or there is nothing to render. */
  ghost predicate Agrees(parse: Parser, policy: Policy, candidates: seq<Candidate>) {
    RenderPolicy(parse, policy, candidates).Ok? || BindsNothing(parse, policy, candidates)
  }

  lemma PolicyAgreesIff(parse: Parser, policy: Policy, candidates: seq<Candidate>)
    ensures var rendered, reported := RenderedFor(parse, policy, candidates), ReportedFor(parse, policy, candidates);
            rendered <= multiset(reported) && (rendered == multiset(reported) <==> Agrees(parse, policy, candidates))
  {
    var reported := ReportedFor(parse, policy, candidates);
    NothingReportedIff(parse, policy, candidates);
    if RenderPolicy(parse, policy, candidates).Ok? {
      ReportedForPolicy(parse, policy, candidates);
    } else if reported != [] {
      assert reported[0] in multiset(reported);
    }
  }

  lemma SumsEqual<T>(a: multiset<T>, b: multiset<T>, x: multiset<T>, y: multiset<T>)
    requires a <= b && x <= y
    ensures a + x <= b + y
    ensures a + x == b + y <==> a == b && x == y
  {
    if a + x == b + y {
      forall k ensures a[k] == b[k] && x[k] == y[k] {
        assert (a + x)[k] == (b + y)[k];
      }
    }
  }

  /**
   * Report against Render: the records of a snapshot together list every rendered EndpointSlice, each at
   * least as often as rendered; and they list exactly the rendered ones, counted, if and only if every
   * policy renders or has nothing bound.
   */
  lemma {:induction false} ReportAgreesWithRender(parse: Parser, policies: seq<Policy>, candidates: seq<Candidate>)
    ensures RenderedAll(parse, policies, candidates) <= ReportedAll(parse, policies, candidates)
    ensures RenderedAll(parse, policies, candidates) == ReportedAll(parse, policies, candidates) <==>
            forall p :: p in policies ==> Agrees(parse, p, candidates)
  {
    if policies == [] {
      NothingReported(parse, candidates);
    } else {
      var n := |policies| - 1;
      var last := policies[n];
      assert policies == policies[..n] + [last];
      ReportAgreesWithRender(parse, policies[..n], candidates);
      ReportedSplits(parse, policies, candidates);
      PolicyAgreesIff(parse, last, candidates);
      SumsEqual(RenderedAll(parse, policies[..n], candidates), ReportedAll(parse, policies[..n], candidates),
                RenderedFor(parse, last, candidates), multiset(ReportedFor(parse, last, candidates)));
    }
  }

  /** When every prefix in sight parses, they agree exactly if every policy that binds anything has a known TLS mode. */
  lemma ParseableAgreesIff(parse: Parser, policies: seq<Policy>, candidates: seq<Candidate>)
    requires forall p :: p in policies ==> Parseable(parse, p, candidates)
    ensures RenderedAll(parse, policies, candidates) == ReportedAll(parse, policies, candidates) <==>
            forall p :: p in policies ==> TlsSupported(p) || BindsNothing(parse, p, candidates)
  {
    ReportAgreesWithRender(parse, policies, candidates);
    forall p | p in policies
      ensures Agrees(parse, p, candidates) <==> TlsSupported(p) || BindsNothing(parse, p, candidates)
    {
      ParseableRenders(parse, p, candidates);
    }
  }

  /**
   * Where they do not agree: a policy whose TLS mode the driver does not know renders nothing at all, and
   * the records still list the slices that its selection would have become.
   */
  lemma UnknownTlsStillReported(parse: Parser, policy: Policy, candidates: seq<Candidate>)
    requires !TlsSupported(policy) && Parseable(parse, policy, candidates)
    ensures RenderPolicy(parse, policy, candidates).Err?
    ensures var supported := policy.(tlsMode := "");
            && RenderPolicy(parse, supported, candidates).Ok?
            && ReportedFor(parse, policy, candidates) == SliceKeys(RenderPolicy(parse, supported, candidates).value)
  {
    var supported := policy.(tlsMode := "");
    ParseableRenders(parse, policy, candidates);
    ParseableRenders(parse, supported, candidates);
    ReportedIsSelected(parse, policy, candidates);
    ReportedIsSelected(parse, supported, candidates);
    ReportedForPolicy(parse, supported, candidates);
  }

  /** For one: mode "Mutual" and a selector that selects everything. */
  lemma MutualTlsDisagrees(parse: Parser, policy: Policy, c: Candidate)
    requires !c.rejected && c.damping.None? && parse(c.prefix).Some?
    requires policy.selector == Selector([], None, []) && policy.tlsMode == "Mutual"
    ensures RenderedAll(parse, [policy], [c]) == multiset{}
    ensures ReportedAll(parse, [policy], [c]) == multiset{ResourceKey(policy, c)}
  {
    assert [policy][..0] == [] && [c][..0] == [];
    RendersExactly(parse, policy, [c]);
    GeneratedForOne(parse, c, policy);
  }

  /**
   * For another: a selector whose second prefix does not parse. A candidate inside the first one binds,
   * and one outside of it makes the whole policy fail.
   */
  lemma MalformedSelectorDisagrees(parse: Parser, policy: Policy, c: Candidate, d: Candidate, good: string, bad: string)
    requires !c.rejected && c.damping.None? && !d.rejected && d.damping.None?
    requires policy.selector == Selector([good, bad], None, []) && TlsSupported(policy)
    requires parse(good).Some? && parse(bad).None? && parse(c.prefix).Some? && parse(d.prefix).Some?
    requires parse(good).value.network.Contains(parse(c.prefix).value.ip)
    requires !parse(good).value.network.Contains(parse(d.prefix).value.ip)
    ensures RenderPolicy(parse, policy, [c, d]) == Err(BadSelectorPrefix(bad))
    ensures RenderedAll(parse, [policy], [c, d]) == multiset{}
    ensures ReportedAll(parse, [policy], [c, d]) == multiset{ResourceKey(policy, c)}
  {
    MalformedChoice(parse, c, policy.selector, good, bad);
    MalformedChoice(parse, d, policy.selector, good, bad);
    FirstThenFailure(parse, policy, c, d, BadSelectorPrefix(bad));
    assert [policy][..0] == [];
  }

  lemma FirstThenFailure(parse: Parser, policy: Policy, c: Candidate, d: Candidate, e: Error)
    requires Chosen(parse, c, policy.selector) == Ok(true) && Chosen(parse, d, policy.selector) == Err(e)
    ensures RenderPolicy(parse, policy, [c, d]) == Err(e)
    ensures ReportedAll(parse, [policy], [c, d]) == multiset{ResourceKey(policy, c)}
  {
    assert [c, d][..1] == [c];
    OneChosen(parse, policy, c);
    GeneratedForOne(parse, d, policy);
  }

  lemma OneChosen(parse: Parser, policy: Policy, c: Candidate)
    requires Chosen(parse, c, policy.selector) == Ok(true)
    ensures Select(parse, [c], policy.selector).Ok?
    ensures ReportedAll(parse, [policy], [c]) == multiset{ResourceKey(policy, c)}
  {
    assert [c][..0] == [];
    GeneratedForOne(parse, c, policy);
  }

  lemma MalformedChoice(parse: Parser, c: Candidate, sel: Selector, good: string, bad: string)
    requires !c.rejected && c.damping.None? && sel == Selector([good, bad], None, [])
    requires parse(good).Some? && parse(bad).None? && parse(c.prefix).Some?
    ensures Chosen(parse, c, sel) == if parse(good).value.network.Contains(parse(c.prefix).value.ip) then Ok(true)
                                     else Err(BadSelectorPrefix(bad))
  {
    assert [good, bad][1..] == [bad];
    assert WithinAny(parse, parse(c.prefix).value.ip, [bad]) == Err(BadSelectorPrefix(bad));
  }

  // ----- The candidate's own reason

  lemma {:induction false} BindingsIgnoreReason(parse: Parser, c: Candidate, reason: Reason, policies: seq<Policy>)
    ensures BindingPolicies(parse, c.(reason := reason), policies) == BindingPolicies(parse, c, policies)
  {
    if policies != [] {
      BindingsIgnoreReason(parse, c, reason, policies[..|policies| - 1]);
    }
  }

  /** A candidate's own reason shows in its record exactly if it is rejected. */
  lemma ReasonShowsIffRejected(parse: Parser, c: Candidate, reason: Reason, policies: seq<Policy>)
    ensures BuildStatus(parse, c.(reason := reason), policies) == BuildStatus(parse, c, policies) <==>
            !c.rejected || reason == c.reason
  {
    BindingsIgnoreReason(parse, c, reason, policies);
    var bound := BindingPolicies(parse, c, policies);
    assert Mapped(ResourceKeyFor(c.(reason := reason)), bound) == Mapped(ResourceKeyFor(c), bound);
  }

  lemma {:induction false} BindingContents(parse: Parser, c: Candidate, policies: seq<Policy>)
    ensures forall p :: multiset(BindingPolicies(parse, c, policies))[p]
                        == if Binds(parse, c, p) then multiset(policies)[p] else 0
  {
    if policies != [] {
      var n := |policies| - 1;
      BindingContents(parse, c, policies[..n]);
      assert policies == policies[..n] + [policies[n]];
    }
  }

  lemma BindingMembers(parse: Parser, c: Candidate, policies: seq<Policy>)
    ensures forall p :: p in BindingPolicies(parse, c, policies) <==> p in policies && Binds(parse, c, p)
  {
  }

  lemma GeneratedMembers(parse: Parser, c: Candidate, policies: seq<Policy>, r: string)
    ensures r in GeneratedResources(parse, c, policies) <==>
            exists p :: p in policies && Binds(parse, c, p) && ResourceKey(p, c) == r
  {
    var bound := BindingPolicies(parse, c, policies);
    BindingMembers(parse, c, policies);
    var keys := Mapped(ResourceKeyFor(c), bound);
    assert r in GeneratedResources(parse, c, policies) <==> r in multiset(keys);
    if p :| p in policies && Binds(parse, c, p) && ResourceKey(p, c) == r {
      var i :| 0 <= i < |bound| && bound[i] == p;
      assert keys[i] == r;
    }
  }

  lemma BoundMembers(parse: Parser, c: Candidate, policies: seq<Policy>, name: string)
    ensures name in BoundPolicies(parse, c, policies) <==>
            exists p :: p in policies && Binds(parse, c, p) && PolicyKey(p) == name
  {
    var bound := BindingPolicies(parse, c, policies);
    BindingMembers(parse, c, policies);
    var keys := Mapped(PolicyKey, bound);
    assert name in BoundPolicies(parse, c, policies) <==> name in multiset(keys);
    if p :| p in policies && Binds(parse, c, p) && PolicyKey(p) == name {
      var i :| 0 <= i < |bound| && bound[i] == p;
      assert keys[i] == name;
    }
  }

  /** No entry of the list has a lesser one behind it. */
  ghost predicate InByteOrder(s: seq<string>) {
    forall i, j, n: nat :: 0 <= i < j < |s| ==> !PartsAt(s[j], s[i], n)
  }

  lemma SortedInByteOrder(s: seq<string>)
    requires Sorted(s)
    ensures InByteOrder(s)
  {
    forall i, j, n: nat | 0 <= i < j < |s| ensures !PartsAt(s[j], s[i], n) {
      LessIsByteOrder(s[j], s[i]);
      assert Leq(s[i], s[j]);
    }
  }

  /**
   * A record names a policy as bound, as namespace/name, exactly when that policy's selector chooses the
   * candidate; it lists them in byte order.
   */
  lemma BoundExactly(parse: Parser, c: Candidate, policies: seq<Policy>, name: string)
    ensures name in BuildStatus(parse, c, policies).boundPolicies <==>
            exists p :: p in policies && Chosen(parse, c, p.selector) == Ok(true) && name == p.namespace + "/" + p.name
    ensures InByteOrder(BuildStatus(parse, c, policies).boundPolicies)
  {
    BoundMembers(parse, c, policies, name);
    SortedInByteOrder(BoundPolicies(parse, c, policies));
    if p :| p in policies && Binds(parse, c, p) && PolicyKey(p) == name {
      assert Chosen(parse, c, p.selector) == Ok(true) && name == p.namespace + "/" + p.name;
    }
    if p :| p in policies && Chosen(parse, c, p.selector) == Ok(true) && name == p.namespace + "/" + p.name {
      assert Binds(parse, c, p) && PolicyKey(p) == name;
    }
  }

  /** It lists a resource exactly when such a policy would give the candidate's slice that name, in byte order too. */
  lemma GeneratedExactly(parse: Parser, c: Candidate, policies: seq<Policy>, r: string)
    ensures r in BuildStatus(parse, c, policies).generatedResources <==>
            exists p :: p in policies && Chosen(parse, c, p.selector) == Ok(true) && r == SliceText(p, c)
    ensures InByteOrder(BuildStatus(parse, c, policies).generatedResources)
  {
    GeneratedMembers(parse, c, policies, r);
    SortedInByteOrder(GeneratedResources(parse, c, policies));
    if p :| p in policies && Binds(parse, c, p) && ResourceKey(p, c) == r {
      SliceTextIsKey(p, c);
      assert Chosen(parse, c, p.selector) == Ok(true) && r == SliceText(p, c);
    }
    if p :| p in policies && Chosen(parse, c, p.selector) == Ok(true) && r == SliceText(p, c) {
      SliceTextIsKey(p, c);
      assert Binds(parse, c, p) && ResourceKey(p, c) == r;
    }
  }

  function SliceText(p: Policy, c: Candidate): string {
    "EndpointSlice/" + p.namespace + "/" + (p.name + "-kreg-" + c.clusterID + "-" + SanitizeForName(c.prefix))
  }

  lemma SliceTextIsKey(p: Policy, c: Candidate)
    ensures SliceText(p, c) == ResourceKey(p, c)
  {
    assert p.name + "-kreg" + "-" + c.clusterID + "-" + SanitizeForName(c.prefix)
        == p.name + "-kreg-" + c.clusterID + "-" + SanitizeForName(c.prefix);
  }

  lemma ReportedIsRendered(parse: Parser, policies: seq<Policy>, candidates: seq<Candidate>, r: string, c: Candidate)
    returns (p: Policy, s: EndpointSlice)
    requires forall q :: q in policies ==> RenderPolicy(parse, q, candidates).Ok?
    requires c in candidates && r in GeneratedResources(parse, c, policies)
    ensures p in policies && s in RenderPolicy(parse, p, candidates).value && SliceKey(s) == r
  {
    GeneratedMembers(parse, c, policies, r);
    p :| p in policies && Binds(parse, c, p) && ResourceKey(p, c) == r;
    SelectMembers(parse, candidates, p.selector);
    assert c in Select(parse, candidates, p.selector).value;
    s := RenderSlice(parse, p, c).value;
    RenderedFrom(parse, p, candidates, s);
  }

  lemma RenderedIsReported(parse: Parser, policies: seq<Policy>, candidates: seq<Candidate>, p: Policy,
                           s: EndpointSlice)
    returns (c: Candidate)
    requires p in policies && RenderPolicy(parse, p, candidates).Ok?
    requires s in RenderPolicy(parse, p, candidates).value
    ensures c in candidates && SliceKey(s) in GeneratedResources(parse, c, policies)
  {
    RenderedFrom(parse, p, candidates, s);
    c :| c in candidates && Chosen(parse, c, p.selector) == Ok(true) && RenderSlice(parse, p, c) == Ok(s);
    GeneratedMembers(parse, c, policies, SliceKey(s));
    assert Binds(parse, c, p) && ResourceKey(p, c) == SliceKey(s);
  }

  /** Over all records, what is reported is what Render produces for one of the policies. */
  lemma ReportedExactly(parse: Parser, policies: seq<Policy>, candidates: seq<Candidate>, r: string)
    requires forall p :: p in policies ==> RenderPolicy(parse, p, candidates).Ok?
    ensures (exists c :: c in candidates && r in GeneratedResources(parse, c, policies)) <==>
            (exists p, s :: p in policies && s in RenderPolicy(parse, p, candidates).value && SliceKey(s) == r)
  {
    if c :| c in candidates && r in GeneratedResources(parse, c, policies) {
      var p, s := ReportedIsRendered(parse, policies, candidates, r, c);
    }
    if p, s :| p in policies && s in RenderPolicy(parse, p, candidates).value && SliceKey(s) == r {
      var c := RenderedIsReported(parse, policies, candidates, p, s);
    }
  }

  /** Records do not depend on the order in which the policies were listed. */
  lemma BindingsIgnoreListOrder(parse: Parser, c: Candidate, ps: seq<Policy>, qs: seq<Policy>)
    requires multiset(ps) == multiset(qs)
    ensures BuildOne(parse, c, ps) == BuildOne(parse, c, qs)
  {
    var bp, bq := BindingPolicies(parse, c, ps), BindingPolicies(parse, c, qs);
    BindingContents(parse, c, ps);
    BindingContents(parse, c, qs);
    assert multiset(bp) == multiset(bq);
    MappedPermutation(PolicyKey, bp, bq);
    MappedPermutation(ResourceKeyFor(c), bp, bq);
    SortedUnique(BoundPolicies(parse, c, ps), BoundPolicies(parse, c, qs));
    SortedUnique(GeneratedResources(parse, c, ps), GeneratedResources(parse, c, qs));
  }
}

/**
 * The two reconcilers side by side: what the records list as generated, and the EndpointSlices that are
 * in the object store.
 */
module Agreement {
  import opened Types
  import opened Damper
  import opened Render
  import opened Report
  import opened Records
  import opened Views
  import opened Bookkeeping
  import Policies

  /** Some record that the sweep wrote lists this resource. */
  ghost predicate ListedByRecords(env: Env, store: Store, t: Tick, r: string) {
    var next := Sweep(env, store, t);
    exists k :: k in NamesOf(Desired(env, store, t)) && k in next && r in next[k].status.generatedResources
  }

  function KeyText(key: Policies.Key): string {
    "EndpointSlice/" + key.namespace + "/" + key.name
  }

  /** Some EndpointSlice of one of the policies is in the store under this name. */
  ghost predicate StoredForPolicies(policies: seq<Policy>, objects: Policies.Objects, r: string) {
    exists p, key :: p in policies && key in objects && Policies.IsSliceOf(p, key, objects[key]) && KeyText(key) == r
  }

  /** Every policy renders the snapshot, and the store holds exactly what it renders. */
  ghost predicate InPlace(parse: Parser, policies: seq<Policy>, settled: seq<Candidate>, objects: Policies.Objects) {
    forall p :: p in policies ==>
      var slices := RenderPolicy(parse, p, settled);
      slices.Ok? && Policies.SlicesAre(p, objects, slices.value)
  }

  lemma ReportOfCandidate(env: Env, store: Store, t: Tick, c: Candidate)
    requires Feasible(store, t) && StoreOk(store, t.now) && t.fault.NoFault? && DistinctNames(t.candidates)
    requires c in Settled(env, store, t) && !c.rejected
    ensures NameOf(c) in NamesOf(Desired(env, store, t)) && NameOf(c) in Sweep(env, store, t)
    ensures SameReport(Sweep(env, store, t)[NameOf(c)].status, BuildStatus(env.parse, c, t.policies))
  {
    SettledAt(env, store, t, c);
    var d := SettledReport(env, store, t, NameOf(c));
    UnrejectedUnique(env, store, t, c, d);
    SettledIsDesired(env, store, t, c);
  }

  lemma UnrejectedUnique(env: Env, store: Store, t: Tick, c: Candidate, d: Candidate)
    requires Feasible(store, t) && StoreOk(store, t.now) && DistinctNames(t.candidates)
    requires c in Settled(env, store, t) && d in Settled(env, store, t) && NameOf(c) == NameOf(d)
    requires !c.rejected && !d.rejected
    ensures c == d
  {
    var settled := Settled(env, store, t);
    var i :| 0 <= i < |settled| && settled[i] == c;
    var j :| 0 <= j < |settled| && settled[j] == d;
    SamePlace(env, store, t, i, j);
  }

  lemma SamePlace(env: Env, store: Store, t: Tick, i: nat, j: nat)
    requires Feasible(store, t) && StoreOk(store, t.now) && DistinctNames(t.candidates)
    requires i < |Settled(env, store, t)| && j < |Settled(env, store, t)|
    requires NameOf(Settled(env, store, t)[i]) == NameOf(Settled(env, store, t)[j])
    requires !Settled(env, store, t)[i].rejected && !Settled(env, store, t)[j].rejected
    ensures i == j
  {
    if i < j {
      UnrejectedNamesDistinct(env, store, t, i, j);
    } else if j < i {
      UnrejectedNamesDistinct(env, store, t, j, i);
    }
  }

  lemma SettledIsDesired(env: Env, store: Store, t: Tick, c: Candidate)
    requires c in Settled(env, store, t)
    ensures NameOf(c) in NamesOf(Desired(env, store, t))
  {
    var settled, desired := Settled(env, store, t), Desired(env, store, t);
    var i :| 0 <= i < |settled| && settled[i] == c;
    assert desired[i] in desired;
  }

  lemma RecordIsOfCandidate(env: Env, store: Store, t: Tick, k: string) returns (c: Candidate)
    requires t.fault.NoFault? && k in NamesOf(Desired(env, store, t))
    ensures c in Settled(env, store, t)
    ensures k in Sweep(env, store, t)
    ensures SameReport(Sweep(env, store, t)[k].status, BuildStatus(env.parse, c, t.policies))
  {
    var i := CompleteOutcome(store, Desired(env, store, t), t.at, k);
    c := Settled(env, store, t)[i];
  }

  /** The records list what the settled candidates generate. */
  lemma ListedIsGenerated(env: Env, store: Store, t: Tick, r: string)
    requires Feasible(store, t) && StoreOk(store, t.now) && t.fault.NoFault? && DistinctNames(t.candidates)
    ensures ListedByRecords(env, store, t, r) <==>
            exists c :: c in Settled(env, store, t) && r in GeneratedResources(env.parse, c, t.policies)
  {
    if ListedByRecords(env, store, t, r) {
      var next := Sweep(env, store, t);
      var k :| k in NamesOf(Desired(env, store, t)) && k in next && r in next[k].status.generatedResources;
      var c := RecordIsOfCandidate(env, store, t, k);
    }
    if c :| c in Settled(env, store, t) && r in GeneratedResources(env.parse, c, t.policies) {
      GeneratedMembers(env.parse, c, t.policies, r);
      ReportOfCandidate(env, store, t, c);
    }
  }

  /** The store holds what is rendered. */
  lemma StoredIsRendered(parse: Parser, policies: seq<Policy>, settled: seq<Candidate>, objects: Policies.Objects,
                         r: string)
    requires InPlace(parse, policies, settled, objects)
    ensures StoredForPolicies(policies, objects, r) <==>
            exists p, s :: p in policies && s in RenderPolicy(parse, p, settled).value && SliceKey(s) == r
  {
    if StoredForPolicies(policies, objects, r) {
      var p, key :| p in policies && key in objects && Policies.IsSliceOf(p, key, objects[key]) && KeyText(key) == r;
      var s := RenderedUnder(parse, p, settled, objects, key);
    }
    if p, s :| p in policies && s in RenderPolicy(parse, p, settled).value && SliceKey(s) == r {
      StoredUnder(parse, p, settled, objects, s);
    }
  }

  lemma RenderedUnder(parse: Parser, p: Policy, settled: seq<Candidate>, objects: Policies.Objects, key: Policies.Key)
    returns (s: EndpointSlice)
    requires RenderPolicy(parse, p, settled).Ok?
    requires Policies.SlicesAre(p, objects, RenderPolicy(parse, p, settled).value)
    requires key in objects && Policies.IsSliceOf(p, key, objects[key])
    ensures s in RenderPolicy(parse, p, settled).value && SliceKey(s) == KeyText(key)
  {
    var slices := RenderPolicy(parse, p, settled).value;
    assert Policies.SliceExactAt(p, objects, slices, key);
    s :| s in slices && s.name == key.name;
    Policies.RenderedSlicesAreOfPolicy(parse, p, settled);
  }

  lemma StoredUnder(parse: Parser, p: Policy, settled: seq<Candidate>, objects: Policies.Objects, s: EndpointSlice)
    requires RenderPolicy(parse, p, settled).Ok?
    requires Policies.SlicesAre(p, objects, RenderPolicy(parse, p, settled).value)
    requires s in RenderPolicy(parse, p, settled).value
    ensures var key := Policies.GeneratedSlice(s).key;
            key in objects && Policies.IsSliceOf(p, key, objects[key]) && KeyText(key) == SliceKey(s)
  {
    Policies.RenderedSlicesAreOfPolicy(parse, p, settled);
    var slices := RenderPolicy(parse, p, settled).value;
    assert Policies.SliceExactAt(p, objects, slices, Policies.GeneratedSlice(s).key);
  }

  /**
   * The records tell the truth about the object store: after a complete sweep, and with the store holding
   * what every policy renders of the same settled snapshot, a resource is listed by some record exactly if
   * an EndpointSlice of that name is there for one of the policies.
   */
  lemma RecordsListWhatIsStored(env: Env, store: Store, t: Tick, objects: Policies.Objects, r: string)
    requires Feasible(store, t) && StoreOk(store, t.now) && t.fault.NoFault? && DistinctNames(t.candidates)
    requires InPlace(env.parse, t.policies, Settled(env, store, t), objects)
    ensures ListedByRecords(env, store, t, r) <==> StoredForPolicies(t.policies, objects, r)
  {
    ListedIsGenerated(env, store, t, r);
    ReportedExactly(env.parse, t.policies, Settled(env, store, t), r);
    StoredIsRendered(env.parse, t.policies, Settled(env, store, t), objects, r);
  }

  /** The policy's slices were brought in place at some point, and it has not had a turn since. */
  ghost predicate LastBroughtInPlace(states: seq<Policies.Objects>, turns: seq<Policies.Turn>, p: Policy,
                                     slices: seq<EndpointSlice>)
    requires |states| == |turns| + 1
  {
    exists a: nat :: a <= |turns| && Policies.SlicesAre(p, states[a], slices) &&
      forall i :: a <= i < |turns| ==> !Policies.SamePolicy(turns[i].policy, p)
  }

  /** So it is at the end of any interleaving in which each policy's last turn was a success on that snapshot. */
  lemma RecordsListWhatReconcilersLeft(env: Env, store: Store, t: Tick, states: seq<Policies.Objects>,
                                       turns: seq<Policies.Turn>, r: string)
    requires Feasible(store, t) && StoreOk(store, t.now) && t.fault.NoFault? && DistinctNames(t.candidates)
    requires Policies.IsInterleaving(states, turns)
    requires forall p :: p in t.policies ==>
               && p.name != "" && RenderPolicy(env.parse, p, Settled(env, store, t)).Ok?
               && LastBroughtInPlace(states, turns, p, RenderPolicy(env.parse, p, Settled(env, store, t)).value)
    ensures ListedByRecords(env, store, t, r) <==> StoredForPolicies(t.policies, states[|turns|], r)
  {
    var settled, objects := Settled(env, store, t), states[|turns|];
    forall p | p in t.policies ensures Policies.SlicesAre(p, objects, RenderPolicy(env.parse, p, settled).value) {
      StillInPlace(states, turns, p, RenderPolicy(env.parse, p, settled).value);
    }
    RecordsListWhatIsStored(env, store, t, objects, r);
  }

  lemma StillInPlace(states: seq<Policies.Objects>, turns: seq<Policies.Turn>, p: Policy, slices: seq<EndpointSlice>)
    requires Policies.IsInterleaving(states, turns) && p.name != ""
    requires LastBroughtInPlace(states, turns, p, slices)
    ensures Policies.SlicesAre(p, states[|turns|], slices)
  {
    var a: nat :| a <= |turns| && Policies.SlicesAre(p, states[a], slices) &&
      forall i :: a <= i < |turns| ==> !Policies.SamePolicy(turns[i].policy, p);
    Policies.SlicesStayExact(states, turns, p, slices, a, |turns|);
  }
}

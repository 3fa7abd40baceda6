/**
 * Applying one policy's rendered objects to the cluster: internal/controller/bgpbackendpolicy_controller.go.
 * Several policies write to one store, in any interleaving, and any reconcile may stop part-way.
 */
module Policies {
  import opened Types
  import opened Text
  import opened Names
  import opened Render

  datatype Kind = ServiceKind | EndpointSliceKind | DestinationRuleKind

  datatype Key = Key(kind: Kind, namespace: string, name: string)

  /** What an object holds besides its labels; only EndpointSlices are told apart. */
  datatype Content =
    | SliceContent(slice: EndpointSlice)
    | ServiceContent(port: int, portName: string)
    | TrafficContent(host: string)

  datatype Object = Object(labels: Labels, content: Content)

  type Objects = map<Key, Object>

  datatype Generated = Generated(key: Key, body: Object)

  function Find(objects: Objects, key: Key): Option<Object> {
    if key in objects then Some(objects[key]) else None
  }

  function Label(labels: Labels, name: string): Option<string> {
    if name in labels then Some(labels[name]) else None
  }

  /** Who an object says manages it; the empty string if nobody. */
  function Owner(o: Object): string {
    if MANAGED_BY_LABEL in o.labels then o.labels[MANAGED_BY_LABEL] else ""
  }

  predicate OwnedByOther(objects: Objects, key: Key, policyName: string) {
    key in objects && Owner(objects[key]) != "" && Owner(objects[key]) != policyName
  }

  // ----- What a policy generates

  function GeneratedService(policy: Policy): Generated {
    Generated(Key(ServiceKind, policy.namespace, ServiceName(policy.name)),
              Object(ManagedByLabels(policy, map[]), ServiceContent(policy.port, BackendPortName(policy))))
  }

  function GeneratedSlice(s: EndpointSlice): Generated {
    Generated(Key(EndpointSliceKind, s.namespace, s.name), Object(s.labels, SliceContent(s)))
  }

  function GeneratedRule(policy: Policy): Generated {
    Generated(Key(DestinationRuleKind, policy.namespace, policy.name + "-kreg"),
              Object(map[MANAGED_BY_LABEL := policy.name],
                     TrafficContent(ServiceName(policy.name) + "." + policy.namespace + ".svc.cluster.local")))
  }

  /** Service first, then the EndpointSlices, then the driver's object. */
  function GeneratedObjects(policy: Policy, slices: seq<EndpointSlice>): (gs: seq<Generated>)
    ensures |gs| == |slices| + 2
  {
    [GeneratedService(policy)] + seq(|slices|, i requires 0 <= i < |slices| => GeneratedSlice(slices[i]))
      + [GeneratedRule(policy)]
  }

  /** The objects go out in a fixed order, so a reconcile that stops has written the first ones. */
  lemma GeneratedInOrder(policy: Policy, slices: seq<EndpointSlice>, i: nat)
    requires i < |slices|
    ensures var gs := GeneratedObjects(policy, slices);
            && gs[0].key.kind.ServiceKind?
            && gs[i + 1].key.kind.EndpointSliceKind? && gs[i + 1].body.content == SliceContent(slices[i])
            && gs[|slices| + 1].key.kind.DestinationRuleKind?
  {
  }

  ghost predicate SlicesOfPolicy(policy: Policy, slices: seq<EndpointSlice>) {
    forall s :: s in slices ==> s.namespace == policy.namespace && s.labels == SliceLabels(policy)
  }

  lemma RenderedSlicesAreOfPolicy(parse: Parser, policy: Policy, candidates: seq<Candidate>)
    requires RenderPolicy(parse, policy, candidates).Ok?
    ensures SlicesOfPolicy(policy, RenderPolicy(parse, policy, candidates).value)
  {
    var slices := RenderPolicy(parse, policy, candidates).value;
    forall s | s in slices ensures s.namespace == policy.namespace && s.labels == SliceLabels(policy) {
      RenderedFrom(parse, policy, candidates, s);
    }
  }

  /** What a reconcile renders; nothing if rendering fails. */
  function RenderedOrNone(parse: Parser, policy: Policy, candidates: seq<Candidate>): seq<EndpointSlice> {
    var slices := RenderPolicy(parse, policy, candidates);
    if slices.Ok? then slices.value else []
  }

  lemma GeneratedByPolicy(policy: Policy, slices: seq<EndpointSlice>, g: Generated)
    requires SlicesOfPolicy(policy, slices) && g in GeneratedObjects(policy, slices)
    ensures g.key.namespace == policy.namespace && Owner(g.body) == policy.name
    ensures g.key.kind.EndpointSliceKind? <==> exists s :: s in slices && g == GeneratedSlice(s)
  {
    var gs := GeneratedObjects(policy, slices);
    var i :| 0 <= i < |gs| && gs[i] == g;
    if 0 < i <= |slices| {
      assert g == GeneratedSlice(slices[i - 1]) && slices[i - 1] in slices;
      assert MANAGED_BY_LABEL != SERVICE_NAME_LABEL;
    }
  }

  lemma SliceIsGenerated(policy: Policy, slices: seq<EndpointSlice>, s: EndpointSlice)
    requires s in slices
    ensures GeneratedSlice(s) in GeneratedObjects(policy, slices)
  {
    var i :| 0 <= i < |slices| && slices[i] == s;
    assert GeneratedObjects(policy, slices)[i + 1] == GeneratedSlice(s);
  }

  // ----- Writing them

  function PutAll(objects: Objects, gs: seq<Generated>): Objects {
    if gs == [] then objects
    else PutAll(objects, gs[..|gs| - 1])[gs[|gs| - 1].key := gs[|gs| - 1].body]
  }

  lemma {:induction false} PutAllAt(objects: Objects, gs: seq<Generated>, key: Key)
    ensures (forall g :: g in gs ==> g.key != key) ==> Find(PutAll(objects, gs), key) == Find(objects, key)
    ensures (exists g :: g in gs && g.key == key) ==>
              key in PutAll(objects, gs) && exists g :: g in gs && g.key == key && PutAll(objects, gs)[key] == g.body
  {
    if gs != [] {
      var n := |gs| - 1;
      PutAllAt(objects, gs[..n], key);
      assert gs == gs[..n] + [gs[n]];
      assert gs[n] in gs;
    }
  }

  /** An EndpointSlice in the policy's namespace that carries its two labels. */
  predicate IsSliceOf(policy: Policy, key: Key, o: Object) {
    && key.kind.EndpointSliceKind? && key.namespace == policy.namespace
    && MANAGED_BY_LABEL in o.labels && o.labels[MANAGED_BY_LABEL] == policy.name
    && SERVICE_NAME_LABEL in o.labels && o.labels[SERVICE_NAME_LABEL] == ServiceName(policy.name)
  }

  function StaleSlices(policy: Policy, objects: Objects, names: set<string>): set<Key> {
    set key | key in objects && IsSliceOf(policy, key, objects[key]) && key.name !in names
  }

  function SliceNames(slices: seq<EndpointSlice>): set<string> {
    set s | s in slices :: s.name
  }

  // ----- What a reconcile may touch

  /**
   * One name after a reconcile of a policy: as it was, or in the policy's namespace, not somebody
   * else's before, and now either the policy's own or one of its own slices deleted.
   */
  predicate RespectsAt(policy: Policy, before: Objects, after: Objects, key: Key) {
    || Find(after, key) == Find(before, key)
    || (&& key.namespace == policy.namespace
        && !OwnedByOther(before, key, policy.name)
        && (key in after ==> Owner(after[key]) == policy.name)
        && (key !in after ==> key in before && IsSliceOf(policy, key, before[key])))
  }

  ghost predicate Respects(policy: Policy, before: Objects, after: Objects) {
    forall key :: RespectsAt(policy, before, after, key)
  }

  /** A key that the policy's objects take. */
  ghost predicate Generates(policy: Policy, slices: seq<EndpointSlice>, key: Key) {
    exists g :: g in GeneratedObjects(policy, slices) && g.key == key
  }

  /** Only generated keys and the policy's own stale slices are touched. */
  ghost predicate Frames(policy: Policy, slices: seq<EndpointSlice>, before: Objects, after: Objects) {
    forall key :: !Generates(policy, slices, key) && key !in StaleSlices(policy, before, SliceNames(slices)) ==>
      Find(after, key) == Find(before, key)
  }

  /** The key of a rendered slice. */
  predicate Rendered(policy: Policy, slices: seq<EndpointSlice>, key: Key) {
    key.kind.EndpointSliceKind? && key.namespace == policy.namespace && key.name in SliceNames(slices)
  }

  ghost predicate StoredAs(o: Object, slices: seq<EndpointSlice>, name: string) {
    exists u :: u in slices && u.name == name && o == GeneratedSlice(u).body
  }

  /** A key holds a slice of the policy exactly if it is rendered, and then a slice rendered under that name. */
  ghost predicate SliceExactAt(policy: Policy, objects: Objects, slices: seq<EndpointSlice>, key: Key) {
    && ((key in objects && IsSliceOf(policy, key, objects[key])) <==> Rendered(policy, slices, key))
    && (Rendered(policy, slices, key) ==> key in objects && StoredAs(objects[key], slices, key.name))
  }

  /** The EndpointSlices labelled for the policy and its service are exactly the rendered ones. */
  ghost predicate SlicesAre(policy: Policy, objects: Objects, slices: seq<EndpointSlice>) {
    forall key :: SliceExactAt(policy, objects, slices, key)
  }

  /** With distinct names each rendered slice is stored as rendered. */
  lemma SlicesAreStored(policy: Policy, objects: Objects, slices: seq<EndpointSlice>, s: EndpointSlice)
    requires SlicesOfPolicy(policy, slices) && SlicesAre(policy, objects, slices) && s in slices
    requires forall u, v :: u in slices && v in slices && u.name == v.name ==> u == v
    ensures GeneratedSlice(s).key in objects && objects[GeneratedSlice(s).key] == GeneratedSlice(s).body
  {
    var key := GeneratedSlice(s).key;
    assert SliceExactAt(policy, objects, slices, key);
  }

  /** Writing generated objects that nobody else owns respects everybody else. */
  lemma PutAllRespects(policy: Policy, slices: seq<EndpointSlice>, before: Objects, n: nat, key: Key)
    requires SlicesOfPolicy(policy, slices) && n <= |GeneratedObjects(policy, slices)|
    requires forall i :: 0 <= i < n ==> !OwnedByOther(before, GeneratedObjects(policy, slices)[i].key, policy.name)
    ensures RespectsAt(policy, before, PutAll(before, GeneratedObjects(policy, slices)[..n]), key)
    ensures key in before ==> key in PutAll(before, GeneratedObjects(policy, slices)[..n])
  {
    var gs := GeneratedObjects(policy, slices)[..n];
    PutAllAt(before, gs, key);
    if g :| g in gs && g.key == key {
      var h :| h in gs && h.key == key && PutAll(before, gs)[key] == h.body;
      GeneratedByPolicy(policy, slices, h);
      var i :| 0 <= i < n && gs[i] == h;
      assert gs[i] == GeneratedObjects(policy, slices)[i];
    }
  }

  /** Writing some of the generated objects, and deleting some of the stale slices, touches nothing else. */
  lemma WritesFrame(policy: Policy, slices: seq<EndpointSlice>, before: Objects, n: nat, deleted: set<Key>)
    requires n <= |GeneratedObjects(policy, slices)|
    requires deleted <= StaleSlices(policy, before, SliceNames(slices))
    ensures Frames(policy, slices, before, PutAll(before, GeneratedObjects(policy, slices)[..n]) - deleted)
  {
    var gs := GeneratedObjects(policy, slices);
    forall key | !Generates(policy, slices, key) && key !in StaleSlices(policy, before, SliceNames(slices))
      ensures Find(PutAll(before, gs[..n]) - deleted, key) == Find(before, key)
    {
      PutAllAt(before, gs[..n], key);
      forall g | g in gs[..n] ensures g.key != key {
        assert g in gs;
      }
    }
  }

  /** Deleting stale slices as well still does. */
  lemma PruneRespects(policy: Policy, slices: seq<EndpointSlice>, before: Objects, deleted: set<Key>, key: Key)
    requires SlicesOfPolicy(policy, slices)
    requires var gs := GeneratedObjects(policy, slices);
             && (forall i :: 0 <= i < |gs| ==> !OwnedByOther(before, gs[i].key, policy.name))
             && deleted <= StaleSlices(policy, PutAll(before, gs), SliceNames(slices))
    ensures RespectsAt(policy, before, PutAll(before, GeneratedObjects(policy, slices)) - deleted, key)
  {
    var gs := GeneratedObjects(policy, slices);
    assert gs[..|gs|] == gs;
    PutAllRespects(policy, slices, before, |gs|, key);
    if key in deleted {
      PutAllAt(before, gs, key);
      if g :| g in gs && g.key == key {
        GeneratedByPolicy(policy, slices, g);
        assert false;
      }
    }
  }

  lemma PutAllHolds(policy: Policy, slices: seq<EndpointSlice>, before: Objects, key: Key)
    requires SlicesOfPolicy(policy, slices) && Rendered(policy, slices, key)
    ensures var after := PutAll(before, GeneratedObjects(policy, slices));
            key in after && StoredAs(after[key], slices, key.name) && IsSliceOf(policy, key, after[key])
  {
    var gs := GeneratedObjects(policy, slices);
    var s :| s in slices && s.name == key.name;
    SliceIsGenerated(policy, slices, s);
    PutAllAt(before, gs, key);
    var g :| g in gs && g.key == key && PutAll(before, gs)[key] == g.body;
    GeneratedByPolicy(policy, slices, g);
    var u :| u in slices && g == GeneratedSlice(u);
    assert MANAGED_BY_LABEL != SERVICE_NAME_LABEL;
  }

  /** The Service and the driver's object are stored as generated, and pruning does not touch them. */
  lemma FixedObjectsStored(policy: Policy, slices: seq<EndpointSlice>, before: Objects, g: Generated, deleted: set<Key>)
    requires SlicesOfPolicy(policy, slices)
    requires g == GeneratedService(policy) || g == GeneratedRule(policy)
    requires forall key :: key in deleted ==> key.kind.EndpointSliceKind?
    ensures Find(PutAll(before, GeneratedObjects(policy, slices)) - deleted, g.key) == Some(g.body)
  {
    var gs := GeneratedObjects(policy, slices);
    assert gs[0] == GeneratedService(policy) && gs[|gs| - 1] == GeneratedRule(policy);
    PutAllAt(before, gs, g.key);
    forall h | h in gs && h.key == g.key ensures h == g {
      var i :| 0 <= i < |gs| && gs[i] == h;
    }
  }

  /** The headless Service of the policy, on its port and under its label. */
  predicate StoresService(policy: Policy, objects: Objects) {
    var o := Find(objects, Key(ServiceKind, policy.namespace, policy.name + "-kreg"));
    && o.Some? && o.value.labels == map["kreg.twr.dev/managed-by" := policy.name]
    && o.value.content.ServiceContent?
    && o.value.content.port == policy.port && NamesPort(policy, o.value.content.portName)
  }

  /** The DestinationRule of the policy, for the host of its Service. */
  predicate StoresRule(policy: Policy, objects: Objects) {
    Find(objects, Key(DestinationRuleKind, policy.namespace, policy.name + "-kreg")) ==
    Some(Object(map["kreg.twr.dev/managed-by" := policy.name],
                TrafficContent(policy.name + "-kreg" + "." + policy.namespace + ".svc.cluster.local")))
  }

  lemma FixedObjectsAre(policy: Policy, objects: Objects)
    requires Find(objects, GeneratedService(policy).key) == Some(GeneratedService(policy).body)
    requires Find(objects, GeneratedRule(policy).key) == Some(GeneratedRule(policy).body)
    ensures StoresService(policy, objects) && StoresRule(policy, objects)
  {
  }

  lemma PruneLeavesExactly(policy: Policy, slices: seq<EndpointSlice>, before: Objects)
    requires SlicesOfPolicy(policy, slices)
    ensures var put := PutAll(before, GeneratedObjects(policy, slices));
            SlicesAre(policy, put - StaleSlices(policy, put, SliceNames(slices)), slices)
  {
    var put := PutAll(before, GeneratedObjects(policy, slices));
    var after := put - StaleSlices(policy, put, SliceNames(slices));
    forall key ensures SliceExactAt(policy, after, slices, key) {
      if Rendered(policy, slices, key) {
        PutAllHolds(policy, slices, before, key);
      }
    }
  }

  /** Writing what a policy generates makes none of its other slices stale. */
  lemma StaleKept(policy: Policy, slices: seq<EndpointSlice>, before: Objects)
    requires SlicesOfPolicy(policy, slices)
    ensures StaleSlices(policy, PutAll(before, GeneratedObjects(policy, slices)), SliceNames(slices))
         == StaleSlices(policy, before, SliceNames(slices))
  {
    var gs := GeneratedObjects(policy, slices);
    forall key: Key | key.kind.EndpointSliceKind? && key.name !in SliceNames(slices)
      ensures Find(PutAll(before, gs), key) == Find(before, key)
    {
      PutAllAt(before, gs, key);
      forall g | g in gs ensures g.key != key {
        GeneratedByPolicy(policy, slices, g);
      }
    }
    forall key ensures key in StaleSlices(policy, PutAll(before, gs), SliceNames(slices)) <==>
                       key in StaleSlices(policy, before, SliceNames(slices)) {
      assert key.kind.EndpointSliceKind? && key.name !in SliceNames(slices) ==>
               Find(PutAll(before, gs), key) == Find(before, key);
    }
  }

  /** The store after a reconcile that got to its end. */
  function Reconciled(policy: Policy, slices: seq<EndpointSlice>, before: Objects): Objects {
    PutAll(before, GeneratedObjects(policy, slices)) - StaleSlices(policy, before, SliceNames(slices))
  }

  /**
   * An object that nobody claims stands in no policy's way and is never deleted. A complete reconcile
   * overwrites it, and makes it the policy's own, exactly if it sits under the name of a generated object.
   */
  lemma UnlabelledIsAdopted(policy: Policy, slices: seq<EndpointSlice>, before: Objects, key: Key)
    requires SlicesOfPolicy(policy, slices) && policy.name != ""
    requires key in before && Owner(before[key]) == ""
    ensures !OwnedByOther(before, key, policy.name)
    ensures var after := Reconciled(policy, slices, before);
            && key in after
            && (after[key] != before[key] <==> Generates(policy, slices, key))
            && (Generates(policy, slices, key) ==> Owner(after[key]) == policy.name)
  {
    var gs := GeneratedObjects(policy, slices);
    PutAllAt(before, gs, key);
    if Generates(policy, slices, key) {
      var g :| g in gs && g.key == key && PutAll(before, gs)[key] == g.body;
      GeneratedByPolicy(policy, slices, g);
    }
  }

  /** Writing the first objects does not change whether another policy owns the next one's name. */
  lemma StillOwnedByOther(policy: Policy, slices: seq<EndpointSlice>, before: Objects, i: nat)
    requires SlicesOfPolicy(policy, slices) && i < |GeneratedObjects(policy, slices)|
    requires forall j :: 0 <= j < i ==> !OwnedByOther(before, GeneratedObjects(policy, slices)[j].key, policy.name)
    ensures var gs := GeneratedObjects(policy, slices);
            OwnedByOther(PutAll(before, gs[..i]), gs[i].key, policy.name) <==>
            OwnedByOther(before, gs[i].key, policy.name)
  {
    PutAllRespects(policy, slices, before, i, GeneratedObjects(policy, slices)[i].key);
  }

  /**
   * What a complete reconcile deletes, exactly: EndpointSlices in the policy's namespace that carry both
   * of its labels, the policy's name and its Service's, and that it does not render.
   */
  lemma DeletedExactly(policy: Policy, slices: seq<EndpointSlice>, before: Objects, key: Key)
    requires SlicesOfPolicy(policy, slices)
    ensures key in before && key !in Reconciled(policy, slices, before) <==>
              && key in before && key.kind.EndpointSliceKind? && key.namespace == policy.namespace
              && Label(before[key].labels, "kreg.twr.dev/managed-by") == Some(policy.name)
              && Label(before[key].labels, "kubernetes.io/service-name") == Some(policy.name + "-kreg")
              && (forall s :: s in slices ==> s.name != key.name)
  {
    PutAllAt(before, GeneratedObjects(policy, slices), key);
  }

  /** The EndpointSlices of the policy that are stored describe exactly the candidates that its selector chooses. */
  lemma StoredDescribes(parse: Parser, policy: Policy, candidates: seq<Candidate>, objects: Objects, key: Key)
    requires RenderPolicy(parse, policy, candidates).Ok?
    requires SlicesAre(policy, objects, RenderPolicy(parse, policy, candidates).value)
    ensures key in objects && IsSliceOf(policy, key, objects[key]) <==>
            exists c :: c in candidates && Chosen(parse, c, policy.selector) == Ok(true) && KeyOf(policy, c) == key
    ensures key in objects && IsSliceOf(policy, key, objects[key]) ==>
              && objects[key].content.SliceContent?
              && objects[key].labels == objects[key].content.slice.labels
              && exists c :: c in candidates && Chosen(parse, c, policy.selector) == Ok(true)
                             && KeyOf(policy, c) == key && Describes(parse, policy, c, objects[key].content.slice)
  {
    var slices := RenderPolicy(parse, policy, candidates).value;
    assert SliceExactAt(policy, objects, slices, key);
    if key in objects && IsSliceOf(policy, key, objects[key]) {
      var u :| u in slices && u.name == key.name && objects[key] == GeneratedSlice(u).body;
      RenderedDescribes(parse, policy, candidates, u);
    }
    if c :| c in candidates && Chosen(parse, c, policy.selector) == Ok(true) && KeyOf(policy, c) == key {
      ChosenIsRendered(parse, policy, candidates, c);
    }
  }

  function KeyOf(policy: Policy, c: Candidate): Key {
    Key(EndpointSliceKind, policy.namespace, policy.name + "-kreg-" + c.clusterID + "-" + SanitizeForName(c.prefix))
  }

  lemma ChosenIsRendered(parse: Parser, policy: Policy, candidates: seq<Candidate>, c: Candidate)
    requires RenderPolicy(parse, policy, candidates).Ok?
    requires c in candidates && Chosen(parse, c, policy.selector) == Ok(true)
    ensures Rendered(policy, RenderPolicy(parse, policy, candidates).value, KeyOf(policy, c))
  {
    RendersExactly(parse, policy, candidates);
    SliceDescribes(parse, policy, c);
    RenderedDescribes(parse, policy, candidates, RenderSlice(parse, policy, c).value);
  }

  // ----- The reconciler

  datatype Outcome = Done | Refused | ApiFailed | RenderFailed(error: Error)

  /** The reconciler, against an API server that accepts so many writes and then fails. */
  class PolicyReconciler {
    var objects: Objects
    var accepts: nat

    constructor (objects: Objects, accepts: nat)
      ensures this.objects == objects && this.accepts == accepts
    {
      this.objects := objects;
      this.accepts := accepts;
    }

    method ApplyOwned(policyName: string, g: Generated) returns (r: Outcome)
      modifies this
      ensures !r.RenderFailed?
      ensures r.Refused? <==> OwnedByOther(old(objects), g.key, policyName)
      ensures r.ApiFailed? ==> old(accepts) == 0
      ensures r.Done? ==> old(accepts) > 0 && accepts == old(accepts) - 1
      ensures objects == if r.Done? then old(objects)[g.key := g.body] else old(objects)
    {
      if g.key in objects {
        var owner := Owner(objects[g.key]);
        if owner != "" && owner != policyName {
          return Refused;
        }
      }
      if accepts == 0 {
        return ApiFailed;
      }
      accepts := accepts - 1;
      objects := objects[g.key := g.body];
      return Done;
    }

    method ApplyGenerated(policy: Policy, slices: seq<EndpointSlice>, gs: seq<Generated>)
      returns (r: Outcome, ghost n: nat)
      requires SlicesOfPolicy(policy, slices) && gs == GeneratedObjects(policy, slices)
      modifies this
      ensures !r.RenderFailed?
      ensures n <= |gs| && (r.Done? ==> n == |gs|)
      ensures objects == PutAll(old(objects), gs[..n])
      ensures forall i :: 0 <= i < n ==> !OwnedByOther(old(objects), gs[i].key, policy.name)
      ensures r.Refused? ==> n < |gs| && OwnedByOther(old(objects), gs[n].key, policy.name)
      ensures r.ApiFailed? ==> old(accepts) < |gs|
      ensures r.Done? ==> accepts == old(accepts) - |gs|
    {
      n := 0;
      for i := 0 to |gs|
        invariant n == i
        invariant objects == PutAll(old(objects), gs[..i])
        invariant accepts == old(accepts) - i
        invariant forall j :: 0 <= j < i ==> !OwnedByOther(old(objects), gs[j].key, policy.name)
      {
        StillOwnedByOther(policy, slices, old(objects), i);
        assert gs[..i + 1] == gs[..i] + [gs[i]];
        r := ApplyOwned(policy.name, gs[i]);
        if !r.Done? {
          return;
        }
        n := i + 1;
      }
      r := Done;
    }

    method PruneStaleEndpointSlices(policy: Policy, slices: seq<EndpointSlice>)
      returns (ok: bool, ghost deleted: set<Key>)
      modifies this
      ensures deleted <= StaleSlices(policy, old(objects), SliceNames(slices))
      ensures ok ==> deleted == StaleSlices(policy, old(objects), SliceNames(slices))
      ensures objects == old(objects) - deleted
      ensures ok <==> |StaleSlices(policy, old(objects), SliceNames(slices))| <= old(accepts)
    {
      var desiredNames: set<string> := {};
      for i := 0 to |slices|
        invariant desiredNames == SliceNames(slices[..i])
      {
        assert slices[..i + 1] == slices[..i] + [slices[i]];
        desiredNames := desiredNames + {slices[i].name};
      }
      assert slices[..|slices|] == slices;
      ghost var stale := StaleSlices(policy, objects, desiredNames);
      var existing := set key | key in objects && IsSliceOf(policy, key, objects[key]);
      var left := existing;
      deleted := {};
      while left != {}
        invariant left <= existing
        invariant forall key :: key in deleted <==> key in stale && key !in left
        invariant objects == old(objects) - deleted
        invariant accepts == old(accepts) - |deleted|
      {
        var key :| key in left;
        if key.name !in desiredNames {
          OneMoreOf(deleted, key, stale);
          if accepts == 0 {
            return false, deleted;
          }
          accepts := accepts - 1;
          objects := objects - {key};
          deleted := deleted + {key};
        }
        left := left - {key};
      }
      return true, deleted;
    }

    /**
     * One reconcile, however far it gets, leaves alone whatever belongs to another policy, and if it
     * gets to the end the policy's EndpointSlices are exactly the rendered ones. It succeeds exactly
     * when no other policy owns one of its names and the API server accepts all its writes. Keys that
     * it does not generate, its own stale slices apart, are as they were in any case.
     */
    method Reconcile(parse: Parser, policy: Policy, candidates: seq<Candidate>) returns (r: Outcome)
      modifies this
      ensures Respects(policy, old(objects), objects)
      ensures Frames(policy, RenderedOrNone(parse, policy, candidates), old(objects), objects)
      ensures r.RenderFailed? <==> RenderPolicy(parse, policy, candidates).Err?
      ensures r.Done? ==>
                objects == Reconciled(policy, RenderPolicy(parse, policy, candidates).value, old(objects))
      ensures r.Done? ==> SlicesAre(policy, objects, RenderPolicy(parse, policy, candidates).value)
      ensures r.Done? ==> StoresService(policy, objects) && StoresRule(policy, objects)
      ensures !r.RenderFailed? ==>
                var slices := RenderPolicy(parse, policy, candidates).value;
                var gs := GeneratedObjects(policy, slices);
                && (r.Done? <==>
                     && (forall g :: g in gs ==> !OwnedByOther(old(objects), g.key, policy.name))
                     && |gs| + |StaleSlices(policy, old(objects), SliceNames(slices))| <= old(accepts))
                && (r.Refused? ==> exists g :: g in gs && OwnedByOther(old(objects), g.key, policy.name))
    {
      var rendered := RenderObjects(parse, policy, candidates);
      if rendered.Err? {
        return RenderFailed(rendered.error);
      }
      var slices := rendered.value;
      RenderedSlicesAreOfPolicy(parse, policy, candidates);
      var gs := GeneratedObjects(policy, slices);
      ghost var n;
      r, n := ApplyGenerated(policy, slices, gs);
      if !r.Done? {
        forall key ensures RespectsAt(policy, old(objects), objects, key) {
          PutAllRespects(policy, slices, old(objects), n, key);
        }
        WritesFrame(policy, slices, old(objects), n, {});
        assert objects - {} == objects;
        return;
      }
      assert gs[..|gs|] == gs;
      StaleKept(policy, slices, old(objects));
      var ok;
      ghost var deleted;
      ok, deleted := PruneStaleEndpointSlices(policy, slices);
      forall key ensures RespectsAt(policy, old(objects), objects, key) {
        PruneRespects(policy, slices, old(objects), deleted, key);
      }
      WritesFrame(policy, slices, old(objects), |gs|, deleted);
      PruneLeavesExactly(policy, slices, old(objects));
      FixedObjectsStored(policy, slices, old(objects), GeneratedService(policy), deleted);
      FixedObjectsStored(policy, slices, old(objects), GeneratedRule(policy), deleted);
      FixedObjectsAre(policy, objects);
      r := if ok then Done else ApiFailed;
    }
  }

  // ----- Any interleaving

  /** One policy's turn, with what it rendered. */
  datatype Turn = Turn(policy: Policy, slices: seq<EndpointSlice>)

  /** Reconciles of various policies, one after the other, each finished or not. */
  ghost predicate IsInterleaving(states: seq<Objects>, turns: seq<Turn>) {
    && |states| == |turns| + 1
    && forall i :: 0 <= i < |turns| ==> IsTurn(turns[i], states[i], states[i + 1])
  }

  /** What every reconcile, finished or not, does to the store. */
  ghost predicate IsTurn(t: Turn, before: Objects, after: Objects) {
    && SlicesOfPolicy(t.policy, t.slices)
    && Respects(t.policy, before, after)
    && Frames(t.policy, t.slices, before, after)
  }

  lemma TurnRespects(states: seq<Objects>, turns: seq<Turn>, i: nat, key: Key)
    requires IsInterleaving(states, turns) && i < |turns|
    ensures RespectsAt(turns[i].policy, states[i], states[i + 1], key)
  {
    assert IsTurn(turns[i], states[i], states[i + 1]);
  }

  predicate SamePolicy(p: Policy, q: Policy) {
    p.name == q.name && p.namespace == q.namespace
  }

  /** Ownership: while only other policies reconcile, an object of this one is neither written nor deleted. */
  lemma {:induction false} OwnObjectsAreSafe(states: seq<Objects>, turns: seq<Turn>, q: Policy, key: Key, a: nat,
                                             b: nat)
    requires IsInterleaving(states, turns) && a <= b <= |turns|
    requires q.name != "" && key.namespace == q.namespace && key in states[a] && Owner(states[a][key]) == q.name
    requires forall i :: a <= i < b ==> !SamePolicy(turns[i].policy, q)
    ensures key in states[b] && states[b][key] == states[a][key]
  {
    if a < b {
      OwnObjectsAreSafe(states, turns, q, key, a, b - 1);
      TurnRespects(states, turns, b - 1, key);
    }
  }

  /** One name is a slice of the policy in both stores or in neither, and the same one. */
  predicate SameSliceAt(q: Policy, before: Objects, after: Objects, key: Key) {
    && ((key in after && IsSliceOf(q, key, after[key])) <==> (key in before && IsSliceOf(q, key, before[key])))
    && (key in before && IsSliceOf(q, key, before[key]) ==> key in after && after[key] == before[key])
  }

  lemma OthersKeepSlices(p: Policy, q: Policy, before: Objects, after: Objects, key: Key)
    requires q.name != "" && !SamePolicy(p, q) && RespectsAt(p, before, after, key)
    ensures SameSliceAt(q, before, after, key)
  {
  }

  /** After a success, the policy's slices stay exactly the rendered ones until it reconciles again. */
  lemma {:induction false} SlicesStayExact(states: seq<Objects>, turns: seq<Turn>, q: Policy,
                                           slices: seq<EndpointSlice>, a: nat, b: nat)
    requires IsInterleaving(states, turns) && a <= b <= |turns|
    requires q.name != "" && SlicesAre(q, states[a], slices)
    requires forall i :: a <= i < b ==> !SamePolicy(turns[i].policy, q)
    ensures SlicesAre(q, states[b], slices)
  {
    if a < b {
      SlicesStayExact(states, turns, q, slices, a, b - 1);
      var p, before, after := turns[b - 1].policy, states[b - 1], states[b];
      forall key ensures SliceExactAt(q, after, slices, key) {
        TurnRespects(states, turns, b - 1, key);
        OthersKeepSlices(p, q, before, after, key);
        assert SliceExactAt(q, before, slices, key);
      }
    }
  }

  /** What nobody claims and nobody generates survives every interleaving as it was. */
  lemma {:induction false} UnclaimedIsSafe(states: seq<Objects>, turns: seq<Turn>, key: Key, a: nat, b: nat)
    requires IsInterleaving(states, turns) && a <= b <= |turns|
    requires key in states[a] && Owner(states[a][key]) == ""
    requires forall i :: a <= i < b ==>
               turns[i].policy.name != "" && !Generates(turns[i].policy, turns[i].slices, key)
    ensures key in states[b] && states[b][key] == states[a][key]
  {
    if a < b {
      UnclaimedIsSafe(states, turns, key, a, b - 1);
      var t, before, after := turns[b - 1], states[b - 1], states[b];
      assert IsTurn(t, before, after);
      assert Find(after, key) == Find(before, key);
    }
  }
}

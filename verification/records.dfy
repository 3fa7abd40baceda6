/**
 * The record store and one sweep over it: internal/controller/advertisedbackend_controller.go, with
 * the damping part of internal/snapshot/source.go. A sweep may stop at any write the API server refuses.
 */
module Records {
  import opened Types
  import opened Text
  import opened Damper
  import opened Report

  datatype Object = Object(labels: Labels, status: Status)

  type Store = map<string, Object>

  predicate Managed(o: Object) {
    Lookup(o.labels, MANAGED_BY_LABEL) == Some(MANAGED_BY_VALUE)
  }

  // ----- Applying one record

  predicate ReasonDrifts(state: State) {
    state.HoldDown? || state.Dampened?
  }

  /** A status without its bookkeeping: what an operator would call its condition. */
  function Condition(s: Status): Status {
    s.(firstSeen := None, lastChange := None,
       reason := if ReasonDrifts(s.state) then NoReason else s.reason,
       stability := s.stability.(lastObservedAt := None, dampeningPenalty := 0, flapCount24h := 0))
  }

  predicate StatusChanged(previous: Status, latest: Status) {
    Condition(previous) != Condition(latest)
  }

  function Applied(current: Option<Object>, d: Backend, at: Time): Object {
    match current
    case None => Object(d.labels, d.status.(firstSeen := Some(at), lastChange := Some(at)))
    case Some(o) =>
      Object(o.labels, d.status.(firstSeen := o.status.firstSeen,
                                 lastChange := if StatusChanged(o.status, d.status) then Some(at)
                                   else o.status.lastChange))
  }

  function Bare(d: Backend): Object {
    Object(d.labels, EMPTY_STATUS)
  }

  function ApplyAll(store: Store, desired: seq<Backend>, at: Time): Store {
    if desired == [] then store
    else
      var n := |desired| - 1;
      var s := ApplyAll(store, desired[..n], at);
      s[desired[n].name := Applied(Lookup(s, desired[n].name), desired[n], at)]
  }

  // ----- One sweep

  /**
   * Where a sweep stopped: nowhere, or after so many records (possibly having created the next one
   * without its status), or while pruning, having deleted only some of the stale records.
   */
  datatype Fault = NoFault | ApplyStops(done: nat, bare: bool) | PruneStops(deleted: set<string>)

  function NamesOf(desired: seq<Backend>): set<string> {
    set d | d in desired :: d.name
  }

  function Stale(store: Store, names: set<string>): set<string> {
    set k | k in store && Managed(store[k]) && k !in names
  }

  function Write(store: Store, desired: seq<Backend>, at: Time, fault: Fault): Store {
    match fault
    case NoFault =>
      var s := ApplyAll(store, desired, at);
      s - Stale(s, NamesOf(desired))
    case ApplyStops(done, bare) =>
      var n := if done < |desired| then done else |desired|;
      var s := ApplyAll(store, desired[..n], at);
      if bare && n < |desired| && desired[n].name !in s then s[desired[n].name := Bare(desired[n])] else s
    case PruneStops(deleted) =>
      var s := ApplyAll(store, desired, at);
      s - (Stale(s, NamesOf(desired)) * deleted)
  }

  predicate NeedsPriorState(cfg: StabilityConfig) {
    || (cfg.withdrawalGrace.Some? && cfg.withdrawalGrace.value > 0)
    || (cfg.additionDelay.Some? && cfg.additionDelay.value > 0)
    || Enabled(cfg.dampening)
  }

  /** What the labelled records remember. */
  function Memory(store: Store): map<string, PriorState> {
    map k | k in store && Managed(store[k]) && Remembered(store[k].status).Some? :: Remembered(store[k].status).value
  }

  function PriorFor(store: Store, cfg: StabilityConfig): map<string, PriorState> {
    if NeedsPriorState(cfg) then Memory(store) else map[]
  }

  datatype Env = Env(parse: Parser, halfPower: HalfPower)

  /** One sweep: the snapshot it saw at time now, the writes it made at time at, and where it stopped. */
  datatype Tick = Tick(
    now: Time,
    at: Time,
    candidates: seq<Candidate>,
    policies: seq<Policy>,
    cfg: StabilityConfig,
    order: seq<string>,
    fault: Fault)

  function Settled(env: Env, store: Store, t: Tick): seq<Candidate> {
    Evaluation(env.halfPower, t.now, t.candidates, PriorFor(store, t.cfg), t.cfg, t.order)
  }

  function Desired(env: Env, store: Store, t: Tick): seq<Backend> {
    BuildAll(env.parse, Settled(env, store, t), t.policies)
  }

  function Sweep(env: Env, store: Store, t: Tick): Store {
    Write(store, Desired(env, store, t), t.at, t.fault)
  }

  /** Normalize leaves the verdict to Damp, and the prior map is walked in some order. */
  ghost predicate Feasible(store: Store, t: Tick) {
    && 0 < t.now <= t.at
    && Enumerates(t.order, PriorFor(store, t.cfg).Keys)
    && (forall c :: c in t.candidates ==> c.damping.None?)
  }

  /** A listing of exactly these records. */
  ghost predicate Lists(items: seq<Item>, store: Store, keys: set<string>) {
    && (forall i :: 0 <= i < |items| ==>
         items[i].name in keys && items[i].name in store && items[i].status == store[items[i].name].status)
    && (forall k :: k in keys ==> exists i :: 0 <= i < |items| && items[i].name == k)
    && (forall i, j :: 0 <= i < j < |items| ==> items[i].name != items[j].name)
  }

  lemma ListsOneMore(items: seq<Item>, store: Store, keys: set<string>, k: string)
    requires Lists(items, store, keys) && k in store && k !in keys
    ensures Lists(items + [Item(k, store[k].status)], store, keys + {k})
  {
    var more := items + [Item(k, store[k].status)];
    forall q | q in keys + {k} ensures exists i :: 0 <= i < |more| && more[i].name == q {
      if q == k {
        assert more[|items|].name == q;
      } else {
        var i :| 0 <= i < |items| && items[i].name == q;
        assert more[i].name == q;
      }
    }
  }

  lemma ListedIsMemory(items: seq<Item>, store: Store, prior: map<string, PriorState>)
    requires Lists(items, store, set k | k in store && Managed(store[k]))
    requires forall i :: 0 <= i < |items| ==> Lookup(prior, items[i].name) == Remembered(items[i].status)
    requires forall k :: k in prior ==> exists i :: 0 <= i < |items| && items[i].name == k
    ensures prior == Memory(store)
  {
    forall k | k in prior ensures k in Memory(store) && prior[k] == Memory(store)[k] {
      var i :| 0 <= i < |items| && items[i].name == k;
      assert Lookup(prior, items[i].name) == Remembered(items[i].status);
    }
    var managed := set k | k in store && Managed(store[k]);
    forall k | k in Memory(store) ensures k in prior {
      assert k in managed;
      var i :| 0 <= i < |items| && items[i].name == k;
      assert Lookup(prior, items[i].name) == Remembered(items[i].status);
    }
  }

  /** Creating a record takes two writes, the object and its status; updating one takes the second only. */
  function WritesFor(store: Store, desired: seq<Backend>): nat {
    if desired == [] then 0
    else
      var n := |desired| - 1;
      var k := desired[n].name;
      WritesFor(store, desired[..n]) + if k in store || k in NamesOf(desired[..n]) then 1 else 2
  }

  lemma {:induction false} FewerWritesForPrefix(store: Store, desired: seq<Backend>, n: nat)
    requires n <= |desired|
    ensures WritesFor(store, desired[..n]) <= WritesFor(store, desired)
  {
    if n == |desired| {
      assert desired[..n] == desired;
    } else {
      FewerWritesForPrefix(store, desired[..|desired| - 1], n);
      assert desired[..|desired| - 1][..n] == desired[..n];
    }
  }

  /** One write for each record, and one more for each name that is not there yet. */
  lemma {:induction false} WritesCounted(store: Store, desired: seq<Backend>)
    ensures WritesFor(store, desired) == |desired| + |NamesOf(desired) - store.Keys|
  {
    if desired != [] {
      var n := |desired| - 1;
      WritesCounted(store, desired[..n]);
      NamesOfOneMore(desired);
      SizeOfOneMore(NamesOf(desired[..n]), desired[n].name, store.Keys);
    }
  }

  lemma NamesOfOneMore(desired: seq<Backend>)
    requires desired != []
    ensures var n := |desired| - 1; NamesOf(desired) == NamesOf(desired[..n]) + {desired[n].name}
  {
    var n := |desired| - 1;
    assert desired == desired[..n] + [desired[n]];
  }

  lemma SizeOfOneMore(names: set<string>, k: string, keys: set<string>)
    ensures |names + {k} - keys| == |names - keys| + if k in keys || k in names then 0 else 1
  {
    if k in keys || k in names {
      assert names + {k} - keys == names - keys;
    } else {
      assert names + {k} - keys == (names - keys) + {k};
    }
  }

  /** Applying records makes none of the others stale. */
  lemma StaleKept(store: Store, desired: seq<Backend>, at: Time)
    ensures Stale(ApplyAll(store, desired, at), NamesOf(desired)) == Stale(store, NamesOf(desired))
  {
    forall k | k !in NamesOf(desired) ensures Lookup(ApplyAll(store, desired, at), k) == Lookup(store, k) {
      ApplyAllAt(store, desired, at, k);
      var i := TouchedLast(Lookup(store, k), desired, k, at);
    }
    forall k
      ensures k in Stale(ApplyAll(store, desired, at), NamesOf(desired)) <==> k in Stale(store, NamesOf(desired)) {
      assert k !in NamesOf(desired) ==> Lookup(ApplyAll(store, desired, at), k) == Lookup(store, k);
    }
  }

  /** The first n records are applied, and these are the names so far. */
  ghost predicate AppliedSoFar(store: Store, desired: seq<Backend>, n: nat, at: Time, now: Store, names: set<string>)
    requires n <= |desired|
  {
    && now == ApplyAll(store, desired[..n], at)
    && names == NamesOf(desired[..n])
    && forall k :: k in now <==> k in store || k in names
  }

  lemma OneMoreApplied(store: Store, desired: seq<Backend>, n: nat, at: Time, now: Store, names: set<string>)
    requires n < |desired| && AppliedSoFar(store, desired, n, at, now, names)
    ensures var d := desired[n];
            AppliedSoFar(store, desired, n + 1, at, now[d.name := Applied(Lookup(now, d.name), d, at)],
                         names + {d.name})
  {
    var more := desired[..n + 1];
    assert more[..n] == desired[..n];
    NamesOfOneMore(more);
  }

  lemma OneMoreWrite(store: Store, desired: seq<Backend>, n: nat, at: Time, now: Store, names: set<string>)
    requires n < |desired| && AppliedSoFar(store, desired, n, at, now, names)
    ensures WritesFor(store, desired[..n + 1]) ==
            WritesFor(store, desired[..n]) + if desired[n].name in now then 1 else 2
    ensures WritesFor(store, desired[..n + 1]) <= WritesFor(store, desired)
  {
    assert desired[..n + 1][..n] == desired[..n];
    FewerWritesForPrefix(store, desired, n + 1);
  }

  /** Failing at a record leaves the store as it was before it, or with that record created and bare. */
  lemma StoppedAt(store: Store, desired: seq<Backend>, n: nat, at: Time, before: Store, after: Store)
    requires n < |desired| && before == ApplyAll(store, desired[..n], at)
    requires after == before || (desired[n].name !in before && after == before[desired[n].name := Bare(desired[n])])
    ensures after == Write(store, desired, at, ApplyStops(n, after != before))
  {
  }

  /** The reconciler, against an API server that accepts so many writes and then fails. */
  class BackendReconciler {
    var store: Store
    var accepts: nat

    constructor (store: Store, accepts: nat)
      ensures this.store == store && this.accepts == accepts
    {
      this.store := store;
      this.accepts := accepts;
    }

    method ApplyBackend(d: Backend, at: Time) returns (ok: bool)
      modifies this
      ensures ok ==> store == old(store)[d.name := Applied(Lookup(old(store), d.name), d, at)]
      ensures !ok ==> store == old(store) || (d.name !in old(store) && store == old(store)[d.name := Bare(d)])
      ensures var writes := if d.name in old(store) then 1 else 2;
              (ok <==> writes <= old(accepts)) && (ok ==> accepts == old(accepts) - writes)
    {
      var current := Lookup(store, d.name);
      if current.None? {
        if accepts == 0 {
          return false;
        }
        accepts := accepts - 1;
        store := store[d.name := Bare(d)];
      }
      if accepts == 0 {
        return false;
      }
      accepts := accepts - 1;
      store := store[d.name := Applied(current, d, at)];
      return true;
    }

    method PruneStaleBackends(desiredNames: set<string>) returns (ok: bool, ghost deleted: set<string>)
      modifies this
      ensures deleted <= Stale(old(store), desiredNames)
      ensures ok ==> deleted == Stale(old(store), desiredNames)
      ensures store == old(store) - deleted
      ensures ok <==> |Stale(old(store), desiredNames)| <= old(accepts)
    {
      ghost var stale := Stale(store, desiredNames);
      var existing := set k | k in store && Managed(store[k]);
      var left := existing;
      deleted := {};
      while left != {}
        invariant left <= existing
        invariant forall k :: k in deleted <==> k in stale && k !in left
        invariant store == old(store) - deleted
        invariant accepts == old(accepts) - |deleted|
      {
        var k :| k in left;
        if k !in desiredNames {
          OneMoreOf(deleted, k, stale);
          if accepts == 0 {
            return false, deleted;
          }
          accepts := accepts - 1;
          store := store - {k};
          deleted := deleted + {k};
        }
        left := left - {k};
      }
      return true, deleted;
    }

    method ApplyDesired(desired: seq<Backend>, at: Time) returns (ok: bool, names: set<string>, ghost fault: Fault)
      modifies this
      ensures ok ==> store == ApplyAll(old(store), desired, at) && names == NamesOf(desired)
      ensures !ok ==> fault.ApplyStops? && store == Write(old(store), desired, at, fault)
      ensures ok <==> WritesFor(old(store), desired) <= old(accepts)
      ensures ok ==> accepts == old(accepts) - WritesFor(old(store), desired)
    {
      names, fault := {}, NoFault;
      for n := 0 to |desired|
        invariant AppliedSoFar(old(store), desired, n, at, store, names)
        invariant accepts == old(accepts) - WritesFor(old(store), desired[..n])
      {
        ghost var before := store;
        OneMoreApplied(old(store), desired, n, at, store, names);
        OneMoreWrite(old(store), desired, n, at, store, names);
        ok := ApplyBackend(desired[n], at);
        if !ok {
          fault := ApplyStops(n, store != before);
          StoppedAt(old(store), desired, n, at, before, store);
          return;
        }
        names := names + {desired[n].name};
      }
      assert desired[..|desired|] == desired;
      ok := true;
    }

    /** Lists the labelled records, in any order. */
    method ListManaged() returns (items: seq<Item>)
      ensures Lists(items, store, set k | k in store && Managed(store[k]))
    {
      items := [];
      var existing := set k | k in store && Managed(store[k]);
      var left := existing;
      while left != {}
        invariant left <= existing
        invariant Lists(items, store, existing - left)
      {
        var k :| k in left;
        ListsOneMore(items, store, existing - left, k);
        items := items + [Item(k, store[k].status)];
        left := left - {k};
        assert existing - left == (existing - (left + {k})) + {k};
      }
      assert existing - {} == existing;
    }

    /** Reads back what the labelled records remember, if the configuration can make use of it. */
    method ReadPrior(cfg: StabilityConfig) returns (prior: map<string, PriorState>)
      ensures prior == PriorFor(store, cfg)
    {
      prior := map[];
      if NeedsPriorState(cfg) {
        var items := ListManaged();
        prior := PriorStateFromAdvertisedBackends(items);
        ListedIsMemory(items, store, prior);
      }
    }

    /** One global sweep is the sweep function at the fault where it stopped, if it stopped. */
    method Reconcile(env: Env, now: Time, at: Time, candidates: seq<Candidate>, policies: seq<Policy>,
                     cfg: StabilityConfig)
      returns (ok: bool, ghost tick: Tick)
      requires 0 < now <= at
      requires forall c :: c in candidates ==> c.damping.None?
      modifies this
      ensures tick == Tick(now, at, candidates, policies, cfg, tick.order, tick.fault)
      ensures Feasible(old(store), tick)
      ensures ok <==> tick.fault.NoFault?
      ensures store == Sweep(env, old(store), tick)
      ensures var desired := Desired(env, old(store), tick);
              ok <==> WritesFor(old(store), desired) + |Stale(old(store), NamesOf(desired))| <= old(accepts)
    {
      var prior := ReadPrior(cfg);
      var settled;
      ghost var order;
      settled, order := Evaluate(env.halfPower, now, candidates, prior, cfg);
      var desired := BuildAdvertisedBackends(env.parse, settled, policies);
      tick := Tick(now, at, candidates, policies, cfg, order, NoFault);
      assert desired == Desired(env, store, tick);
      var names;
      ghost var fault;
      ok, names, fault := ApplyDesired(desired, at);
      StaleKept(old(store), desired, at);
      if ok {
        ghost var deleted;
        ok, deleted := PruneStaleBackends(names);
        fault := if ok then NoFault else PruneStops(deleted);
        assert Stale(ApplyAll(old(store), desired, at), names) * deleted == deleted;
      }
      tick := tick.(fault := fault);
    }
  }

  // ----- A sweep seen from one name

  /** What happens to one name while the records are applied. */
  function Touched(current: Option<Object>, desired: seq<Backend>, k: string, at: Time): Option<Object> {
    if desired == [] then current
    else
      var n := |desired| - 1;
      var o := Touched(current, desired[..n], k, at);
      if desired[n].name == k then Some(Applied(o, desired[n], at)) else o
  }

  lemma {:induction false} ApplyAllAt(store: Store, desired: seq<Backend>, at: Time, k: string)
    ensures Lookup(ApplyAll(store, desired, at), k) == Touched(Lookup(store, k), desired, k, at)
  {
    if desired != [] {
      ApplyAllAt(store, desired[..|desired| - 1], at, k);
    }
  }

  /** Equal up to the two timestamps that applying a record manages. */
  predicate SameReport(s: Status, t: Status) {
    s == t.(firstSeen := s.firstSeen, lastChange := s.lastChange)
  }

  /** Whether desired[i] is the last record under its name. */
  ghost predicate LastNamed(desired: seq<Backend>, i: nat) {
    i < |desired| && forall j :: i < j < |desired| ==> desired[j].name != desired[i].name
  }

  /** The last record written under a name wins, and labels are never changed. */
  lemma {:induction false} TouchedLast(current: Option<Object>, desired: seq<Backend>, k: string, at: Time)
    returns (i: int)
    ensures i == -1 ==> (forall d :: d in desired ==> d.name != k) && Touched(current, desired, k, at) == current
    ensures i >= 0 ==> LastNamed(desired, i) && desired[i].name == k
    ensures i >= 0 ==> var o := Touched(current, desired, k, at);
                       && o.Some?
                       && SameReport(o.value.status, desired[i].status)
                       && (current.Some? ==> o.value.labels == current.value.labels)
                       && (current.None? ==> exists d :: d in desired && d.name == k && o.value.labels == d.labels)
    ensures -1 <= i < |desired|
  {
    if desired == [] {
      i := -1;
    } else {
      var n := |desired| - 1;
      i := TouchedLast(current, desired[..n], k, at);
      assert desired == desired[..n] + [desired[n]];
      if desired[n].name == k {
        i := n;
      } else if i >= 0 {
        assert desired[..n][i] == desired[i];
      }
    }
  }

  /** What a store says of one name after a sweep. */
  datatype Outcome = Unchanged | Created | Reported(index: nat) | Deleted

  ghost predicate HasOutcome(current: Option<Object>, next: Option<Object>, desired: seq<Backend>, k: string,
                             o: Outcome)
  {
    match o
    case Unchanged => next == current
    case Created => current.None? && next == Some(Object(BACKEND_LABELS, EMPTY_STATUS))
    case Deleted => next.None? && current.Some? && Managed(current.value) && k !in NamesOf(desired)
    case Reported(i) =>
      && i < |desired| && desired[i].name == k
      && next.Some? && SameReport(next.value.status, desired[i].status)
      && next.value.labels == (if current.Some? then current.value.labels else BACKEND_LABELS)
  }

  predicate Labelled(desired: seq<Backend>) {
    forall d :: d in desired ==> d.labels == BACKEND_LABELS
  }

  lemma PrefixOutcome(store: Store, desired: seq<Backend>, n: nat, at: Time, k: string) returns (o: Outcome)
    requires n <= |desired| && Labelled(desired)
    ensures o.Unchanged? || o.Reported?
    ensures HasOutcome(Lookup(store, k), Lookup(ApplyAll(store, desired[..n], at), k), desired, k, o)
  {
    ApplyAllAt(store, desired[..n], at, k);
    var i := TouchedLast(Lookup(store, k), desired[..n], k, at);
    o := if i == -1 then Unchanged else Reported(i);
    if i >= 0 {
      assert desired[..n][i] == desired[i];
    }
  }

  /** Wherever a sweep stops, each name is unchanged, created without status, reported on, or pruned as stale. */
  lemma WriteOutcome(store: Store, desired: seq<Backend>, at: Time, fault: Fault, k: string) returns (o: Outcome)
    requires Labelled(desired)
    ensures HasOutcome(Lookup(store, k), Lookup(Write(store, desired, at, fault), k), desired, k, o)
  {
    var n := if fault.ApplyStops? && fault.done < |desired| then fault.done else |desired|;
    o := PrefixOutcome(store, desired, n, at, k);
    assert desired[..|desired|] == desired;
    if !fault.ApplyStops? {
      var s := ApplyAll(store, desired, at);
      if k in Stale(s, NamesOf(desired)) && k !in Write(store, desired, at, fault) {
        o := Deleted;
      }
    } else if Lookup(Write(store, desired, at, fault), k) != Lookup(ApplyAll(store, desired[..n], at), k) {
      o := Created;
    }
  }

  /** A sweep that completes leaves under each name the last report on it, or what was not the sweep's to delete. */
  lemma CompleteOutcome(store: Store, desired: seq<Backend>, at: Time, k: string) returns (i: int)
    requires Labelled(desired)
    ensures -1 <= i < |desired|
    ensures var next := Lookup(Write(store, desired, at, NoFault), k);
            if i == -1 then
              && k !in NamesOf(desired)
              && next == (if k in store && !Managed(store[k]) then Some(store[k]) else None)
            else
              && LastNamed(desired, i) && desired[i].name == k
              && next == Touched(Lookup(store, k), desired, k, at)
              && next.Some? && SameReport(next.value.status, desired[i].status)
              && next.value.labels == (if k in store then store[k].labels else BACKEND_LABELS)
  {
    ApplyAllAt(store, desired, at, k);
    i := TouchedLast(Lookup(store, k), desired, k, at);
    if i >= 0 {
      assert desired[i] in desired;
    }
  }
}

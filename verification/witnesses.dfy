/**
 * Runs that show what the other files call possible: bounds that are attained, and places where the
 * records do not behave as one would expect.
 */
module Witnesses {
  import opened Types
  import opened Damper
  import opened Report
  import opened Records
  import opened Views
  import opened Paths
  import opened Runs
  import opened Bookkeeping

  // ----- Making runs longer

  lemma SomeOrder(keys: set<string>) returns (order: seq<string>)
    ensures Enumerates(order, keys)
  {
    if keys == {} {
      order := [];
    } else {
      var k :| k in keys;
      var rest := SomeOrder(keys - {k});
      order := rest + [k];
    }
  }

  /** A raw snapshot without repeated names. */
  ghost predicate IsSnapshot(candidates: seq<Candidate>) {
    DistinctNames(candidates) && forall c :: c in candidates ==> c.damping.None?
  }

  /** The run so far leaves off no later than this instant. */
  predicate EndsBy(ticks: seq<Tick>, now: Time) {
    0 < now && (ticks != [] ==> ticks[|ticks| - 1].at <= now)
  }

  lemma Extended(env: Env, h: seq<Store>, ticks: seq<Tick>, t: Tick)
    requires IsRun(env, h, ticks) && EndsBy(ticks, t.now) && Feasible(h[|ticks|], t)
    ensures IsRun(env, h + [Sweep(env, h[|ticks|], t)], ticks + [t])
  {
    var next := Sweep(env, h[|ticks|], t);
    ExtendedTo(env, h, ticks, t, h + [next], ticks + [t]);
  }

  lemma ExtendedTo(env: Env, h: seq<Store>, ticks: seq<Tick>, t: Tick, h': seq<Store>, ticks': seq<Tick>)
    requires IsRun(env, h, ticks) && EndsBy(ticks, t.now) && Feasible(h[|ticks|], t)
    requires h' == h + [Sweep(env, h[|ticks|], t)] && ticks' == ticks + [t]
    ensures IsRun(env, h', ticks')
  {
    forall i | 0 <= i < |ticks'| ensures Feasible(h'[i], ticks'[i]) && h'[i + 1] == Sweep(env, h'[i], ticks'[i]) {
      if i < |ticks| {
        LinkKept(env, h, ticks, h', ticks', i);
      }
    }
  }

  lemma LinkKept(env: Env, h: seq<Store>, ticks: seq<Tick>, h': seq<Store>, ticks': seq<Tick>, i: nat)
    requires IsRun(env, h, ticks) && i < |ticks| && h <= h' && ticks <= ticks'
    ensures Feasible(h'[i], ticks'[i]) && h'[i + 1] == Sweep(env, h'[i], ticks'[i])
  {
    assert h'[i] == h[i] && h'[i + 1] == h[i + 1] && ticks'[i] == ticks[i];
  }

  /** One more sweep, stopping where the fault says; the walk order is any. */
  lemma OneMore(env: Env, h: seq<Store>, ticks: seq<Tick>, now: Time, candidates: seq<Candidate>,
                policies: seq<Policy>, cfg: StabilityConfig, fault: Fault)
    returns (t: Tick)
    requires IsRun(env, h, ticks) && EndsBy(ticks, now) && IsSnapshot(candidates)
    ensures t == Tick(now, now, candidates, policies, cfg, t.order, fault)
    ensures Feasible(h[|ticks|], t) && StoreOk(h[|ticks|], t.now)
    ensures IsRun(env, h + [Sweep(env, h[|ticks|], t)], ticks + [t])
  {
    var order := SomeOrder(PriorFor(h[|ticks|], cfg).Keys);
    t := Tick(now, now, candidates, policies, cfg, order, fault);
    RunInvariant(env, h, ticks, |ticks|, now);
    Extended(env, h, ticks, t);
  }

  /** Without foreign objects, a sweep that completes takes the memory one step. */
  lemma OneMoreStep(env: Env, h: seq<Store>, ticks: seq<Tick>, t: Tick, k: string)
    requires IsRun(env, h, ticks) && k !in h[0] && Complete(t)
    requires Feasible(h[|ticks|], t) && StoreOk(h[|ticks|], t.now)
    ensures View(Sweep(env, h[|ticks|], t), k) == Step(env, t, k, View(h[|ticks|], k))
  {
    OwnedForever(env, h, ticks, |ticks|, k);
    CompleteSweepStepsView(env, h[|ticks|], t, k);
  }

  lemma {:induction false} FlapsSoFar(h: seq<Store>, ticks: seq<Tick>, store: Store, t: Tick, k: string, b: nat)
    requires |h| == |ticks| + 1 && b <= |ticks|
    ensures ObservedFlaps(h + [store], ticks + [t], k, 0, b) == ObservedFlaps(h, ticks, k, 0, b)
  {
    if b > 0 {
      FlapsSoFar(h, ticks, store, t, k, b - 1);
      assert MemoriesOf(h + [store], k)[b - 1] == MemoriesOf(h, k)[b - 1];
    }
  }

  lemma OneMoreFlap(h: seq<Store>, ticks: seq<Tick>, store: Store, t: Tick, k: string)
    requires |h| == |ticks| + 1
    ensures ObservedFlaps(h + [store], ticks + [t], k, 0, |ticks| + 1)
         == ObservedFlaps(h, ticks, k, 0, |ticks|) + if Flaps(t, k, View(h[|ticks|], k)) then 1 else 0
  {
    FlapsSoFar(h, ticks, store, t, k, |ticks|);
    assert MemoriesOf(h + [store], k)[|ticks|] == View(h[|ticks|], k);
  }

  // ----- The flap bound is attained

  /** Dampening is on with a threshold that an int32 can hold, routes are held down, and none has to settle. */
  predicate Flappable(cfg: StabilityConfig) {
    && GraceOf(cfg) > 0 && DelayOf(cfg) <= 0
    && Enabled(cfg.dampening) && 0 < SuppressThresholdOf(cfg.dampening.value) <= MAX_INT32
  }

  /** Remembered at this instant with so many flaps on the score, held down or not. */
  predicate Loaded(v: Option<Damping>, flaps: nat, now: Time, held: bool) {
    && v.Some? && v.value.score == (1000 * flaps) as real && v.value.lastObservedAt == now
    && v.value.state == (if held then HoldDown else Active)
    && v.value.withdrawnAt == (if held then Some(now) else None)
    && v.value.suppressedSince.None?
  }

  lemma LoadedAppears(env: Env, t: Tick, k: string)
    requires Flappable(t.cfg) && k in Seen(t.candidates)
    ensures Loaded(Step(env, t, k, None), 0, t.now, false)
  {
  }

  /** At one and the same instant nothing decays. */
  lemma ScoreAtOnce(pw: HalfPower, now: Time, prev: Damping, flapped: bool, dampening: Option<DampeningConfig>)
    requires prev.lastObservedAt == now
    ensures ScoreNow(pw, now, prev, flapped, dampening) == prev.score + if flapped then 1000.0 else 0.0
  {
  }

  lemma WholeScoreKept(d: Damping, n: nat)
    requires d.score == n as real && n <= MAX_INT32
    ensures Persisted(d).score == n as real
  {
    ClampMonotone(d.score, n);
  }

  /** Below the threshold a name that was not suppressed is not suppressed, and otherwise it is. */
  lemma VerdictAt(now: Time, score: real, dampening: Option<DampeningConfig>)
    requires Enabled(dampening)
    ensures var v := SuppressionState(now, score, None, dampening);
            if score < SuppressThresholdOf(dampening.value) as real
            then v == Verdict(Active, NoReason, score, None) else v.state.Dampened?
  {
  }

  lemma LoadedVanishes(env: Env, t: Tick, k: string, v: Option<Damping>, flaps: nat)
    requires Flappable(t.cfg) && k !in Seen(t.candidates)
    requires Loaded(v, flaps, t.now, false) && 1000 * flaps < SuppressThresholdOf(t.cfg.dampening.value)
    ensures Loaded(Step(env, t, k, v), flaps, t.now, true)
  {
    var score := (1000 * flaps) as real;
    ScoreAtOnce(env.halfPower, t.now, v.value, false, t.cfg.dampening);
    VerdictAt(t.now, score, t.cfg.dampening);
    var d := AbsentDamping(env.halfPower, t.now, v.value, GraceOf(t.cfg), t.cfg.dampening);
    assert d.Some? && d.value.score == score;
    WholeScoreKept(d.value, 1000 * flaps);
  }

  lemma LoadedReturns(env: Env, t: Tick, k: string, v: Option<Damping>, flaps: nat)
    requires Flappable(t.cfg) && k in Seen(t.candidates)
    requires Loaded(v, flaps, t.now, true)
    ensures if 1000 * (flaps + 1) < SuppressThresholdOf(t.cfg.dampening.value)
            then Loaded(Step(env, t, k, v), flaps + 1, t.now, false)
            else IsDampened(Step(env, t, k, v))
  {
    var score := (1000 * (flaps + 1)) as real;
    ScoreAtOnce(env.halfPower, t.now, v.value, true, t.cfg.dampening);
    VerdictAt(t.now, score, t.cfg.dampening);
    var d := EvaluatePresent(env.halfPower, t.now, v, DelayOf(t.cfg), t.cfg.dampening);
    if 1000 * (flaps + 1) < SuppressThresholdOf(t.cfg.dampening.value) {
      assert d.score == score;
      WholeScoreKept(d, 1000 * (flaps + 1));
    }
  }

  lemma LoadedFlaps(t: Tick, k: string, v: Option<Damping>, flaps: nat, held: bool)
    requires Flappable(t.cfg) && Loaded(v, flaps, t.now, held)
    ensures Flaps(t, k, v) <==> held && k in Seen(t.candidates)
  {
  }

  /** A run over one route at one instant, all its sweeps under one configuration. */
  ghost predicate OneRouteRun(env: Env, h: seq<Store>, ticks: seq<Tick>, c: Candidate, cfg: StabilityConfig) {
    && IsRun(env, h, ticks) && h[0] == map[] && EndsBy(ticks, 1)
    && forall t :: t in ticks ==> t.cfg == cfg && (t.candidates == [c] || t.candidates == [])
  }

  /** The route has flapped so often, and is present or held down. */
  ghost predicate FlapRun(env: Env, h: seq<Store>, ticks: seq<Tick>, c: Candidate, cfg: StabilityConfig, flaps: nat,
                          held: bool) {
    && OneRouteRun(env, h, ticks, c, cfg)
    && Loaded(View(h[|ticks|], NameOf(c)), flaps, 1, held)
    && ObservedFlaps(h, ticks, NameOf(c), 0, |ticks|) == flaps
  }

  /** The next sweep of such a run, with the route or without. */
  lemma NextSweep(env: Env, h: seq<Store>, ticks: seq<Tick>, c: Candidate, policies: seq<Policy>, cfg: StabilityConfig,
                  present: bool)
    returns (t: Tick)
    requires OneRouteRun(env, h, ticks, c, cfg) && c.damping.None?
    ensures t.now == 1 && t.cfg == cfg && t.candidates == (if present then [c] else [])
    ensures OneRouteRun(env, h + [Sweep(env, h[|ticks|], t)], ticks + [t], c, cfg)
    ensures View(Sweep(env, h[|ticks|], t), NameOf(c)) == Step(env, t, NameOf(c), View(h[|ticks|], NameOf(c)))
  {
    t := OneMore(env, h, ticks, 1, if present then [c] else [], policies, cfg, NoFault);
    OneMoreStep(env, h, ticks, t, NameOf(c));
  }

  lemma FlapStart(env: Env, c: Candidate, policies: seq<Policy>, cfg: StabilityConfig)
    returns (h: seq<Store>, ticks: seq<Tick>)
    requires !c.rejected && c.damping.None? && Flappable(cfg)
    ensures FlapRun(env, h, ticks, c, cfg, 0, false)
  {
    h, ticks := [map[]], [];
    var t := NextSweep(env, h, ticks, c, policies, cfg, true);
    var next := Sweep(env, h[0], t);
    LoadedAppears(env, t, NameOf(c));
    OneMoreFlap(h, ticks, next, t, NameOf(c));
    h, ticks := h + [next], ticks + [t];
  }

  /** The route goes. */
  lemma FlapDown(env: Env, h: seq<Store>, ticks: seq<Tick>, c: Candidate, policies: seq<Policy>, cfg: StabilityConfig,
                 flaps: nat)
    returns (h': seq<Store>, ticks': seq<Tick>)
    requires c.damping.None? && Flappable(cfg)
    requires FlapRun(env, h, ticks, c, cfg, flaps, false) && 1000 * flaps < SuppressThresholdOf(cfg.dampening.value)
    ensures FlapRun(env, h', ticks', c, cfg, flaps, true)
  {
    var t := NextSweep(env, h, ticks, c, policies, cfg, false);
    var v, next := View(h[|ticks|], NameOf(c)), Sweep(env, h[|ticks|], t);
    LoadedVanishes(env, t, NameOf(c), v, flaps);
    LoadedFlaps(t, NameOf(c), v, flaps, false);
    OneMoreFlap(h, ticks, next, t, NameOf(c));
    h', ticks' := h + [next], ticks + [t];
  }

  /** The route comes back. */
  lemma FlapUp(env: Env, h: seq<Store>, ticks: seq<Tick>, c: Candidate, policies: seq<Policy>, cfg: StabilityConfig,
               flaps: nat)
    returns (t: Tick)
    requires !c.rejected && c.damping.None? && Flappable(cfg)
    requires FlapRun(env, h, ticks, c, cfg, flaps, true)
    ensures var h', ticks' := h + [Sweep(env, h[|ticks|], t)], ticks + [t];
            && OneRouteRun(env, h', ticks', c, cfg)
            && ObservedFlaps(h', ticks', NameOf(c), 0, |ticks'|) == flaps + 1
            && if 1000 * (flaps + 1) < SuppressThresholdOf(cfg.dampening.value)
               then FlapRun(env, h', ticks', c, cfg, flaps + 1, false)
               else IsDampened(View(h'[|ticks'|], NameOf(c)))
  {
    t := NextSweep(env, h, ticks, c, policies, cfg, true);
    var v, next := View(h[|ticks|], NameOf(c)), Sweep(env, h[|ticks|], t);
    LoadedReturns(env, t, NameOf(c), v, flaps);
    LoadedFlaps(t, NameOf(c), v, flaps, true);
    OneMoreFlap(h, ticks, next, t, NameOf(c));
  }

  lemma OneFlapMore(env: Env, h: seq<Store>, ticks: seq<Tick>, c: Candidate, policies: seq<Policy>,
                    cfg: StabilityConfig, flaps: nat)
    returns (h': seq<Store>, ticks': seq<Tick>)
    requires !c.rejected && c.damping.None? && Flappable(cfg)
    requires FlapRun(env, h, ticks, c, cfg, flaps, true)
    requires 1000 * (flaps + 1) < SuppressThresholdOf(cfg.dampening.value)
    ensures FlapRun(env, h', ticks', c, cfg, flaps + 1, true)
  {
    var t := FlapUp(env, h, ticks, c, policies, cfg, flaps);
    h', ticks' := FlapDown(env, h + [Sweep(env, h[|ticks|], t)], ticks + [t], c, policies, cfg, flaps + 1);
  }

  lemma Flapping(env: Env, c: Candidate, policies: seq<Policy>, cfg: StabilityConfig, flaps: nat)
    returns (h: seq<Store>, ticks: seq<Tick>)
    requires !c.rejected && c.damping.None? && Flappable(cfg)
    requires 1000 * flaps < SuppressThresholdOf(cfg.dampening.value)
    ensures FlapRun(env, h, ticks, c, cfg, flaps, true)
  {
    var h0, ticks0 := FlapStart(env, c, policies, cfg);
    h, ticks := FlapDown(env, h0, ticks0, c, policies, cfg, 0);
    for n := 0 to flaps
      invariant FlapRun(env, h, ticks, c, cfg, n, true)
    {
      h, ticks := OneFlapMore(env, h, ticks, c, policies, cfg, n);
    }
  }

  /**
   * The flap bound is tight: whatever the thresholds and half-life, there is a run over one route that
   * is suppressed after exactly ceil(suppressThreshold / 1000) flaps.
   */
  lemma FlapBoundAttained(env: Env, c: Candidate, policies: seq<Policy>, cfg: StabilityConfig)
    returns (h: seq<Store>, ticks: seq<Tick>)
    requires !c.rejected && c.damping.None? && Flappable(cfg)
    ensures OneRouteRun(env, h, ticks, c, cfg) && ticks != []
    ensures !HasState(h[|ticks| - 1], NameOf(c), Dampened) && HasState(h[|ticks|], NameOf(c), Dampened)
    ensures ObservedFlaps(h, ticks, NameOf(c), 0, |ticks|)
         == (SuppressThresholdOf(cfg.dampening.value) + 999) / 1000
  {
    var flaps := (SuppressThresholdOf(cfg.dampening.value) - 1) / 1000;
    var h0, ticks0 := Flapping(env, c, policies, cfg, flaps);
    var t := FlapUp(env, h0, ticks0, c, policies, cfg, flaps);
    h, ticks := h0 + [Sweep(env, h0[|ticks0|], t)], ticks0 + [t];
    LastSuppresses(env, h, ticks, NameOf(c));
  }

  lemma LastSuppresses(env: Env, h: seq<Store>, ticks: seq<Tick>, k: string)
    requires IsRun(env, h, ticks) && ticks != []
    requires !IsDampened(View(h[|ticks| - 1], k)) && IsDampened(View(h[|ticks|], k))
    ensures !HasState(h[|ticks| - 1], k, Dampened) && HasState(h[|ticks|], k, Dampened)
  {
    RunRecordSays(env, h, ticks, |ticks| - 1, k);
    RunRecordSays(env, h, ticks, |ticks|, k);
  }

  // ----- lastChange moves although nothing changed

  /** Of a missing name it is the remembered candidate with a new verdict. */
  lemma HeldReport(env: Env, store: Store, t: Tick, k: string) returns (c: Candidate)
    requires Feasible(store, t) && StoreOk(store, t.now) && Complete(t)
    requires k !in Seen(t.candidates) && Step(env, t, k, View(store, k)).Some?
    ensures !c.rejected && c.damping.Some? && DampingOk(c.damping.value, t.now)
    ensures Step(env, t, k, View(store, k)) == Some(Persisted(c.damping.value))
    ensures k in Memory(store) && c == Memory(store)[k].candidate.(damping := c.damping)
    ensures k in Sweep(env, store, t)
    ensures SameReport(Sweep(env, store, t)[k].status, BuildStatus(env.parse, c, t.policies))
  {
    c := SettledReport(env, store, t, k);
    var settled := Settled(env, store, t);
    var i :| 0 <= i < |settled| && settled[i] == c;
    assert i >= |t.candidates| by {
      if i < |t.candidates| {
        PresentAt(env, store, t, i);
      }
    }
    SettledHeld(env, store, t, i);
    AbsentAt(env, store, t, c);
  }

  lemma MemoryHasNoReason(store: Store, k: string)
    requires k in Memory(store)
    ensures Memory(store)[k].candidate.reason == NoReason
  {
  }

  lemma MemoryOfReport(parse: Parser, next: Store, k: string, c: Candidate, policies: seq<Policy>, now: Time)
    requires !c.rejected && c.damping.Some? && DampingOk(c.damping.value, now)
    requires k in next && Managed(next[k]) && SameReport(next[k].status, BuildStatus(parse, c, policies))
    ensures k in Memory(next) && Memory(next)[k].candidate == c.(reason := NoReason, damping := None)
  {
    PersistRestore(parse, c, policies, now);
    SameReportOk(k, next[k].status, BuildStatus(parse, c, policies), now);
  }

  /** A missing name is reported on as it was, but for the verdict. */
  lemma HeldAgain(env: Env, store: Store, u: Tick, k: string, c: Candidate, now: Time) returns (d: Candidate)
    requires Feasible(store, u) && StoreOk(store, u.now) && Complete(u) && u.policies == []
    requires k !in Seen(u.candidates) && Step(env, u, k, View(store, k)).Some?
    requires !c.rejected && c.damping.Some? && DampingOk(c.damping.value, now) && c.reason == NoReason
    requires k in store && Managed(store[k]) && SameReport(store[k].status, BuildStatus(env.parse, c, []))
    ensures d.damping.Some? && d == c.(damping := d.damping)
    ensures Step(env, u, k, View(store, k)) == Some(Persisted(d.damping.value))
    ensures k in Sweep(env, store, u)
    ensures SameReport(Sweep(env, store, u)[k].status, BuildStatus(env.parse, d, []))
  {
    MemoryOfReport(env.parse, store, k, c, [], now);
    d := HeldReport(env, store, u, k);
  }

  /** Equal but for the verdict, both held down since the same instant and not suppressed. */
  lemma SameConditionHeld(parse: Parser, c: Candidate, d: Candidate)
    requires !c.rejected && c.damping.Some? && d.damping.Some? && d == c.(damping := d.damping)
    requires c.damping.value.state.HoldDown? && d.damping.value.state.HoldDown?
    requires c.damping.value.withdrawnAt == d.damping.value.withdrawnAt
    requires c.damping.value.suppressedSince.None? && d.damping.value.suppressedSince.None?
    requires c.damping.value.pendingSince.None? && d.damping.value.pendingSince.None?
    ensures Condition(BuildStatus(parse, c, [])) == Condition(BuildStatus(parse, d, []))
  {
  }

  lemma NotChanged(s: Status, u: Status, built: Status, rebuilt: Status)
    requires SameReport(s, built) && SameReport(u, rebuilt) && Condition(built) == Condition(rebuilt)
    ensures !StatusChanged(s, u)
  {
    SameCondition(s, built);
    SameCondition(u, rebuilt);
  }

  const HOLD_ONLY := StabilityConfig(Some(60), None, None)

  lemma HoldStep(env: Env, t: Tick, k: string, v: Option<Damping>)
    requires t.cfg == HOLD_ONLY && k !in Seen(t.candidates)
    requires v.Some? && !v.value.state.Pending? && v.value.pendingSince.None?
    requires t.now - OrElse(v.value.withdrawnAt, t.now) < 60
    ensures var v' := Step(env, t, k, v);
            && v'.Some? && v'.value.state.HoldDown? && v'.value.pendingSince.None? && v'.value.suppressedSince.None?
            && v'.value.withdrawnAt == Some(OrElse(v.value.withdrawnAt, t.now))
  {
  }

  lemma AppearStep(env: Env, t: Tick, k: string)
    requires t.cfg == HOLD_ONLY && k in Seen(t.candidates)
    ensures var v := Step(env, t, k, None);
            v.Some? && v.value.state.Active? && v.value.pendingSince.None? && v.value.withdrawnAt.None?
  {
  }

  /** A sweep that sees one route rejected while its name is held down, and what it leaves. */
  ghost predicate SharedSweep(env: Env, store: Store, t: Tick, r: Candidate) {
    && Feasible(store, t) && StoreOk(store, t.now) && Complete(t)
    && t.cfg == HOLD_ONLY && t.policies == [] && t.candidates == [r] && r.rejected
    && !Foreign(store, NameOf(r))
  }

  /** Held down both times, since the same instant. */
  predicate HeldAlike(v: Option<Damping>, v': Option<Damping>) {
    && v.Some? && v.value.state.HoldDown? && v.value.pendingSince.None? && v.value.suppressedSince.None?
    && v'.Some? && v'.value.state.HoldDown? && v'.value.pendingSince.None? && v'.value.suppressedSince.None?
    && v'.value.withdrawnAt == v.value.withdrawnAt
  }

  lemma SharedTwice(env: Env, store: Store, t: Tick, u: Tick, r: Candidate)
    requires SharedSweep(env, store, t, r) && SharedSweep(env, Sweep(env, store, t), u, r)
    requires var k := NameOf(r);
             HeldAlike(Step(env, t, k, View(store, k)), Step(env, u, k, View(Sweep(env, store, t), k)))
    ensures var k, next := NameOf(r), Sweep(env, store, t);
            && k in next && k in Sweep(env, next, u)
            && !StatusChanged(next[k].status, Sweep(env, next, u)[k].status)
  {
    var k, next := NameOf(r), Sweep(env, store, t);
    var c := HeldReport(env, store, t, k);
    MemoryHasNoReason(store, k);
    SweepKeepsOwned(env, store, t, k);
    var d := HeldAgain(env, next, u, k, c, t.now);
    SameConditionHeld(env.parse, c, d);
    NotChanged(next[k].status, Sweep(env, next, u)[k].status, BuildStatus(env.parse, c, []),
      BuildStatus(env.parse, d, []));
  }

  /** One more sweep that sees the route rejected. */
  lemma RejectedSweep(env: Env, h: seq<Store>, ticks: seq<Tick>, now: Time, r: Candidate) returns (t: Tick)
    requires IsRun(env, h, ticks) && EndsBy(ticks, now) && NameOf(r) !in h[0]
    requires r.rejected && r.damping.None?
    ensures t.now == t.at == now
    ensures SharedSweep(env, h[|ticks|], t, r)
    ensures IsRun(env, h + [Sweep(env, h[|ticks|], t)], ticks + [t])
  {
    t := OneMore(env, h, ticks, now, [r], [], HOLD_ONLY, NoFault);
    OwnedForever(env, h, ticks, |ticks|, NameOf(r));
  }

  /** A run of one sweep that sees the route accepted. */
  lemma AcceptedSweep(env: Env, now: Time, c: Candidate) returns (h: seq<Store>, ticks: seq<Tick>)
    requires 0 < now && !c.rejected && c.damping.None?
    ensures IsRun(env, h, ticks) && |ticks| == 1 && h[0] == map[] && EndsBy(ticks, now)
    ensures ticks[0].candidates == [c]
    ensures var v := View(h[1], NameOf(c));
            v.Some? && v.value.state.Active? && v.value.pendingSince.None? && v.value.withdrawnAt.None?
  {
    h, ticks := [map[]], [];
    var s := OneMore(env, h, ticks, now, [c], [], HOLD_ONLY, NoFault);
    OneMoreStep(env, h, ticks, s, NameOf(c));
    AppearStep(env, s, NameOf(c));
    h, ticks := h + [Sweep(env, h[0], s)], ticks + [s];
  }

  /** A route rejected twice while its name is held down: same condition, other lastChange. */
  lemma RejectedTwice(env: Env, store: Store, t: Tick, u: Tick, r: Candidate)
    requires SharedSweep(env, store, t, r) && SharedSweep(env, Sweep(env, store, t), u, r)
    requires t.at <= u.now && t.at < u.at && u.now - t.now < 60
    requires var v := View(store, NameOf(r));
             v.Some? && v.value.state.Active? && v.value.pendingSince.None? && v.value.withdrawnAt.None?
    ensures var k, next := NameOf(r), Sweep(env, store, t);
            && k in next && k in Sweep(env, next, u)
            && !StatusChanged(next[k].status, Sweep(env, next, u)[k].status)
            && next[k].status.lastChange == Some(t.at) && Sweep(env, next, u)[k].status.lastChange == Some(u.at)
  {
    var k, next := NameOf(r), Sweep(env, store, t);
    HeldBothTimes(env, store, t, u, r);
    SharedTwice(env, store, t, u, r);
    RejectionMovesLastChange(env, store, t, r);
    RejectionMovesLastChange(env, next, u, r);
  }

  lemma HeldBothTimes(env: Env, store: Store, t: Tick, u: Tick, r: Candidate)
    requires SharedSweep(env, store, t, r) && SharedSweep(env, Sweep(env, store, t), u, r)
    requires u.now - t.now < 60
    requires var v := View(store, NameOf(r));
             v.Some? && v.value.state.Active? && v.value.pendingSince.None? && v.value.withdrawnAt.None?
    ensures var k := NameOf(r);
            HeldAlike(Step(env, t, k, View(store, k)), Step(env, u, k, View(Sweep(env, store, t), k)))
  {
    var k, next := NameOf(r), Sweep(env, store, t);
    CompleteSweepStepsView(env, store, t, k);
    HoldStep(env, t, k, View(store, k));
    HoldStep(env, u, k, View(next, k));
  }

  lemma RejectionMovesLastChange(env: Env, store: Store, t: Tick, r: Candidate)
    requires SharedSweep(env, store, t, r) && Step(env, t, NameOf(r), View(store, NameOf(r))).Some?
    ensures NameOf(r) in Sweep(env, store, t)
    ensures Sweep(env, store, t)[NameOf(r)].status.lastChange == Some(t.at)
  {
    SharedNameBumpsLastChange(env, store, t, NameOf(r), 0);
  }

  /**
   * Any route will do: it is accepted, then rejected while its name is held down. The third sweep leaves
   * the record in the condition the second one left it in, and moves its lastChange.
   */
  lemma LastChangeMovesUnchanged(env: Env, c: Candidate, reason: Reason) returns (h: seq<Store>, ticks: seq<Tick>)
    requires !c.rejected && c.damping.None?
    ensures IsRun(env, h, ticks) && |ticks| == 3 && h[0] == map[]
    ensures ticks[0].candidates == [c]
    ensures ticks[1].candidates == ticks[2].candidates == [c.(rejected := true, reason := reason)]
    ensures var k := NameOf(c);
            && k in h[2] && k in h[3]
            && OnlyDrifts(h[2][k].status, h[3][k].status)
            && h[3][k].status.lastChange != h[2][k].status.lastChange
  {
    var r := c.(rejected := true, reason := reason);
    var h1, ticks1 := AcceptedSweep(env, 10, c);
    var t, u, second, third := TwoRejections(env, h1, ticks1, r);
    h, ticks := h1 + [second] + [third], ticks1 + [t] + [u];
  }

  /** Two rejecting sweeps after one that left the route in service. */
  lemma TwoRejections(env: Env, h: seq<Store>, ticks: seq<Tick>, r: Candidate)
    returns (t: Tick, u: Tick, second: Store, third: Store)
    requires IsRun(env, h, ticks) && EndsBy(ticks, 10) && NameOf(r) !in h[0]
    requires r.rejected && r.damping.None?
    requires var v := View(h[|ticks|], NameOf(r));
             v.Some? && v.value.state.Active? && v.value.pendingSince.None? && v.value.withdrawnAt.None?
    ensures IsRun(env, h + [second] + [third], ticks + [t] + [u])
    ensures t.candidates == u.candidates == [r]
    ensures var k := NameOf(r);
            && k in second && k in third
            && OnlyDrifts(second[k].status, third[k].status)
            && third[k].status.lastChange != second[k].status.lastChange
  {
    t := RejectedSweep(env, h, ticks, 20, r);
    second := Sweep(env, h[|ticks|], t);
    u := RejectedSweep(env, h + [second], ticks + [t], 30, r);
    third := Sweep(env, second, u);
    RejectedTwice(env, h[|ticks|], t, u, r);
    DriftIsNoChange(second[NameOf(r)].status, third[NameOf(r)].status);
  }

  // ----- A record that never learns when it was first seen

  lemma SeenSteps(env: Env, t: Tick, k: string, v: Option<Damping>)
    requires k in Seen(t.candidates)
    ensures Step(env, t, k, v).Some?
  {
  }

  lemma BareFirst(store: Store, desired: seq<Backend>, at: Time, k: string)
    requires desired != [] && desired[0].name == k && k !in store
    ensures k in Write(store, desired, at, ApplyStops(0, true))
    ensures LeftBare(desired, ApplyStops(0, true), k)
  {
  }

  lemma BareSweep(env: Env, c: Candidate, policies: seq<Policy>, cfg: StabilityConfig)
    returns (h: seq<Store>, ticks: seq<Tick>)
    requires !c.rejected && c.damping.None?
    ensures IsRun(env, h, ticks) && |ticks| == 1 && h[0] == map[] && EndsBy(ticks, 2)
    ensures ticks[0].candidates == [c] && NameOf(c) in h[1]
    ensures LeftBare(Desired(env, h[0], ticks[0]), ticks[0].fault, NameOf(c))
  {
    h, ticks := [map[]], [];
    var s := OneMore(env, h, ticks, 1, [c], policies, cfg, ApplyStops(0, true));
    SettledPresent(env, h[0], s, 0);
    DesiredName(env, h[0], s, 0);
    BareFirst(h[0], Desired(env, h[0], s), 1, NameOf(c));
    h, ticks := h + [Sweep(env, h[0], s)], ticks + [s];
  }

  /** One more sweep that sees the route and completes. */
  lemma WholeSweep(env: Env, h: seq<Store>, ticks: seq<Tick>, c: Candidate, policies: seq<Policy>, cfg: StabilityConfig)
    returns (t: Tick, next: Store)
    requires IsRun(env, h, ticks) && EndsBy(ticks, 2) && NameOf(c) !in h[0]
    requires !c.rejected && c.damping.None?
    ensures IsRun(env, h + [next], ticks + [t]) && t.candidates == [c] && t.fault.NoFault?
    ensures View(next, NameOf(c)).Some? && NameOf(c) in next
  {
    t := OneMore(env, h, ticks, 2, [c], policies, cfg, NoFault);
    OneMoreStep(env, h, ticks, t, NameOf(c));
    SeenSteps(env, t, NameOf(c), View(h[|ticks|], NameOf(c)));
    next := Sweep(env, h[|ticks|], t);
    ViewIsOfRecord(next, NameOf(c));
  }

  lemma ViewIsOfRecord(store: Store, k: string)
    requires View(store, k).Some?
    ensures k in store
  {
  }

  /** Any route will do: the sweep that creates its record stops before the status, and the next one completes. */
  lemma FirstSeenNeverSet(env: Env, c: Candidate, policies: seq<Policy>, cfg: StabilityConfig)
    returns (h: seq<Store>, ticks: seq<Tick>)
    requires !c.rejected && c.damping.None?
    ensures IsRun(env, h, ticks) && |ticks| == 2 && h[0] == map[]
    ensures ticks[0].candidates == ticks[1].candidates == [c] && ticks[1].fault.NoFault?
    ensures var k := NameOf(c);
            && k in h[2] && View(h[2], k).Some?
            && h[2][k].status.firstSeen.None?
  {
    var k := NameOf(c);
    var h1, ticks1 := BareSweep(env, c, policies, cfg);
    var t, next := WholeSweep(env, h1, ticks1, c, policies, cfg);
    h, ticks := h1 + [next], ticks1 + [t];
    assert h[0] == h1[0] && h[1] == h1[1] && ticks[0] == ticks1[0];
    FirstSeenSetIffCreatedWhole(env, h, ticks, k, 0, 2);
  }

  // ----- A foreign object that is overwritten

  /** The only output under the name of the only route is that route, evaluated now. */
  lemma OnlyOutput(env: Env, store: Store, t: Tick, c: Candidate, i: nat)
    requires Feasible(store, t) && StoreOk(store, t.now) && t.candidates == [c] && !c.rejected
    requires i < |Settled(env, store, t)| && NameOf(Settled(env, store, t)[i]) == NameOf(c)
    ensures var d := Settled(env, store, t)[i];
            d == c.(damping := d.damping) && d.damping.Some? && d.damping.value.lastObservedAt == t.now
  {
    assert c in t.candidates;
    if i > 0 {
      SettledHeld(env, store, t, i);
      AbsentAt(env, store, t, Settled(env, store, t)[i]);
    }
  }

  lemma ReportsOn(s: Status, parse: Parser, c: Candidate, policies: seq<Policy>)
    requires SameReport(s, BuildStatus(parse, c, policies)) && c.damping.Some? && c.damping.value.lastObservedAt > 0
    ensures s.prefix == c.prefix && s.clusterID == c.clusterID && s.peer == c.peer && s.locality == c.locality
    ensures s.stability.lastObservedAt == Some(c.damping.value.lastObservedAt)
  {
  }

  /**
   * Whatever a foreign object says, a complete sweep that sees just a route of its name makes it report
   * on that route.
   */
  lemma ForeignSpeaksOfRoute(env: Env, store: Store, t: Tick, c: Candidate)
    requires Feasible(store, t) && StoreOk(store, t.now) && t.candidates == [c] && !c.rejected
    requires t.fault.NoFault? && Foreign(store, NameOf(c))
    ensures NameOf(c) in Sweep(env, store, t)
    ensures var o, was := Sweep(env, store, t)[NameOf(c)], store[NameOf(c)];
            && o.labels == was.labels && o.status.firstSeen == was.status.firstSeen
            && o.status.prefix == c.prefix && o.status.clusterID == c.clusterID
            && o.status.peer == c.peer && o.status.locality == c.locality
            && o.status.stability.lastObservedAt == Some(t.now)
  {
    var k := NameOf(c);
    SeenSteps(env, t, k, View(store, k));
    var d := SettledReport(env, store, t, k);
    var settled := Settled(env, store, t);
    var i :| 0 <= i < |settled| && settled[i] == d;
    OnlyOutput(env, store, t, c, i);
    ReportsOn(Sweep(env, store, t)[k].status, env.parse, d, t.policies);
    var j := ForeignOverwrittenExactly(env, store, t, k);
  }

  /** And any foreign object under the name of any route will do for that. */
  lemma ForeignIsOverwritten(env: Env, c: Candidate, policies: seq<Policy>, cfg: StabilityConfig, foreign: Object)
    returns (h: seq<Store>, ticks: seq<Tick>)
    requires !c.rejected && c.damping.None? && !Managed(foreign)
    ensures IsRun(env, h, ticks) && |ticks| == 1 && h[0] == map[NameOf(c) := foreign]
    ensures ticks[0].candidates == [c] && ticks[0].fault.NoFault?
    ensures NameOf(c) in h[1]
    ensures var o := h[1][NameOf(c)];
            && o.labels == foreign.labels && o.status.firstSeen == foreign.status.firstSeen
            && o.status.prefix == c.prefix && o.status.stability.lastObservedAt == Some(ticks[0].now)
  {
    h, ticks := [map[NameOf(c) := foreign]], [];
    var t := OneMore(env, h, ticks, 1, [c], policies, cfg, NoFault);
    ForeignSpeaksOfRoute(env, h[0], t, c);
    h, ticks := h + [Sweep(env, h[0], t)], ticks + [t];
  }
}

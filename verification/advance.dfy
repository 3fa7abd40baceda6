/**
 * What one complete sweep makes of one record, field by field. The next record is defined here from the
 * last one and the configuration's own fields, without the Damp stage, and the sweep is shown to write it.
 */
module Advance {
  import opened Types
  import opened Damper
  import opened Report
  import opened Records
  import opened Views
  import opened Paths
  import opened Runs

  // ----- The next record

  function Setting(o: Option<int>, default: int): int {
    match o
    case None => default
    case Some(x) => x
  }

  /** Seconds of half-life: 90 unless the configuration says otherwise. */
  function HalfLife(cfg: StabilityConfig): Duration {
    match cfg.dampening
    case None => 90
    case Some(d) => Setting(d.halfLife, 90)
  }

  function Faded(env: Env, x: real, elapsed: Duration, halfLife: Duration): real {
    if elapsed > 0 && halfLife > 0 then x * env.halfPower(elapsed, halfLife) else x
  }

  /** Whether the name is back after a withdrawal. */
  predicate Returns(present: bool, s: Stability) {
    present && s.withdrawnAt.Some?
  }

  /** The stored penalty as it stands now: faded since the last observation, and 1000 more for a return. */
  function ScoreAt(env: Env, t: Tick, present: bool, s: Stability): real
    requires s.lastObservedAt.Some?
  {
    Faded(env, s.dampeningPenalty as real, t.now - s.lastObservedAt.value, HalfLife(t.cfg))
    + if Returns(present, s) then 1000.0 else 0.0
  }

  /** The flap count fades with a half-life of a day, 86400 seconds, and is rounded at every sweep. */
  function FadedCount(pw: HalfPower, n: int, elapsed: Duration): int {
    if elapsed > 0 then ToInt32(Round(n as real * pw(elapsed, 86400))) else n
  }

  function FlapsAt(env: Env, t: Tick, present: bool, s: Stability): int
    requires s.lastObservedAt.Some?
  {
    var left := FadedCount(env.halfPower, s.flapCount24h, t.now - s.lastObservedAt.value);
    if Returns(present, s) then ToInt32(left + 1) else left
  }

  predicate DampeningOn(cfg: StabilityConfig) {
    cfg.dampening.Some? && cfg.dampening.value.enabled
  }

  /** Suppressed for as long as the cap, half an hour unless the configuration says otherwise. */
  predicate CapRanOut(t: Tick, s: Stability) {
    && DampeningOn(t.cfg) && s.suppressedSince.Some?
    && t.now - s.suppressedSince.value >= Setting(t.cfg.dampening.value.maxSuppress, 30 * 60)
  }

  /** The threshold that applies: 750 for a suppressed name and 3000 for any other, unless configured. */
  function Threshold(d: DampeningConfig, s: Stability): int {
    if s.suppressedSince.Some? then Setting(d.reuseThreshold, 750) else Setting(d.suppressThreshold, 3000)
  }

  predicate Suppresses(env: Env, t: Tick, present: bool, s: Stability)
    requires s.lastObservedAt.Some?
  {
    && DampeningOn(t.cfg) && !CapRanOut(t, s)
    && ScoreAt(env, t, present, s) >= Threshold(t.cfg.dampening.value, s) as real
  }

  function Since(o: Option<Time>, now: Time): Time {
    if o.Some? then o.value else now
  }

  function Advanced(env: Env, t: Tick, present: bool, s: Stability): Stability
    requires s.lastObservedAt.Some?
  {
    Stability(
      FlapsAt(env, t, present, s),
      if CapRanOut(t, s) then 0 else ClampToInt32(ScoreAt(env, t, present, s)),
      Some(t.now),
      if present then None else Some(Since(s.withdrawnAt, t.now)),
      if Suppresses(env, t, present, s) then Some(Since(s.suppressedSince, t.now)) else None,
      None)
  }

  /** What the record then says: suppressed and why, or held down and how long, or nothing. */
  function ReasonAt(env: Env, t: Tick, present: bool, s: Stability): Reason
    requires s.lastObservedAt.Some?
  {
    if Suppresses(env, t, present, s) then
      var score, threshold := ScoreAt(env, t, present, s), Threshold(t.cfg.dampening.value, s);
      if s.suppressedSince.Some? then AboveReuse(score, threshold) else AboveSuppress(score, threshold)
    else if present then NoReason
    else WithdrawnFor(t.now - Since(s.withdrawnAt, t.now), Setting(t.cfg.withdrawalGrace, 0))
  }

  predicate StateAt(env: Env, t: Tick, present: bool, s: Stability, drain: bool, state: State)
    requires s.lastObservedAt.Some?
  {
    if Suppresses(env, t, present, s) then state == Dampened
    else if !present then state == HoldDown
    else state == if drain then Draining else Active
  }

  /** The record is still settling at this sweep. */
  predicate Settles(t: Tick, s: Status) {
    && s.state.Pending? && s.stability.pendingSince.Some?
    && t.now - s.stability.pendingSince.value < Setting(t.cfg.additionDelay, 0)
  }

  /** A missing name that the sweep goes on reporting: past settling and withdrawn for less than the grace. */
  predicate HeldOn(t: Tick, s: Status) {
    !s.state.Pending? && t.now - Since(s.stability.withdrawnAt, t.now) < Setting(t.cfg.withdrawalGrace, 0)
  }

  // ----- One step

  function StabilityOfMemory(v: Damping): Stability {
    Stability(v.flapCount, v.score.Floor, Some(v.lastObservedAt), v.withdrawnAt, v.suppressedSince, v.pendingSince)
  }

  lemma ScoreIs(env: Env, t: Tick, present: bool, v: Damping)
    requires v.score == v.score.Floor as real
    ensures ScoreNow(env.halfPower, t.now, v, present && v.withdrawnAt.Some?, t.cfg.dampening)
         == ScoreAt(env, t, present, StabilityOfMemory(v))
  {
  }

  lemma CountFades(pw: HalfPower, prev: int, elapsed: Duration)
    ensures DecayFlapCount(pw, prev, elapsed) == FadedCount(pw, prev, elapsed)
  {
  }

  lemma FlapsAre(env: Env, t: Tick, present: bool, v: Damping)
    ensures FlapsNow(env.halfPower, t.now, v, present && v.withdrawnAt.Some?)
         == FlapsAt(env, t, present, StabilityOfMemory(v))
  {
    CountFades(env.halfPower, v.flapCount, t.now - v.lastObservedAt);
  }

  lemma VerdictIs(env: Env, t: Tick, present: bool, v: Damping)
    requires v.score == v.score.Floor as real
    ensures var s := StabilityOfMemory(v);
            var score := ScoreAt(env, t, present, s);
            var verdict := SuppressionState(t.now, score, v.suppressedSince, t.cfg.dampening);
            && (verdict.state == if Suppresses(env, t, present, s) then Dampened else Active)
            && verdict.score == (if CapRanOut(t, s) then 0.0 else score)
            && verdict.suppressedSince
               == (if Suppresses(env, t, present, s) then Some(Since(s.suppressedSince, t.now)) else None)
            && (verdict.state.Dampened? ==> verdict.reason == ReasonAt(env, t, present, s))
            && (verdict.state.Active? ==> verdict.reason == NoReason)
  {
  }

  /** The memory after a step is the advanced one. */
  ghost predicate IsAdvanced(env: Env, t: Tick, present: bool, v: Damping, v': Damping) {
    var s := StabilityOfMemory(v);
    && StabilityOfMemory(v') == Advanced(env, t, present, s)
    && v'.reason == ReasonAt(env, t, present, s)
    && StateAt(env, t, present, s, false, v'.state)
  }

  lemma PresentAdvances(env: Env, t: Tick, v: Damping)
    requires DampingOk(v, t.now) && v.score == v.score.Floor as real
    requires !StillSettling(t.now, v, DelayOf(t.cfg))
    ensures IsAdvanced(env, t, true, v,
            Persisted(EvaluatePresent(env.halfPower, t.now, Some(v), DelayOf(t.cfg), t.cfg.dampening)))
  {
    ScoreIs(env, t, true, v);
    FlapsAre(env, t, true, v);
    VerdictIs(env, t, true, v);
  }

  lemma AbsentAdvances(env: Env, t: Tick, v: Damping)
    requires DampingOk(v, t.now) && v.score == v.score.Floor as real
    requires !v.state.Pending? && t.now - Since(v.withdrawnAt, t.now) < Setting(t.cfg.withdrawalGrace, 0)
    ensures var d := AbsentDamping(env.halfPower, t.now, v, GraceOf(t.cfg), t.cfg.dampening);
            d.Some? && IsAdvanced(env, t, false, v, Persisted(d.value))
  {
    ScoreIs(env, t, false, v);
    FlapsAre(env, t, false, v);
    VerdictIs(env, t, false, v);
  }

  // ----- One sweep of a run

  /** A labelled record that Damp has seen. */
  predicate Remembers(store: Store, k: string) {
    k in store && Managed(store[k]) && store[k].status.stability.lastObservedAt.Some?
  }

  lemma RecordIsMemory(store: Store, k: string, now: Time)
    requires StoreOk(store, now) && Remembers(store, k)
    ensures View(store, k).Some?
    ensures var s, v := store[k].status, View(store, k).value;
            && s.stability == StabilityOfMemory(v) && s.reason == v.reason
            && v.score == v.score.Floor as real
            && v.state == (if s.state.Draining? then Active else s.state)
            && (s.state.Active? ==> !s.attributes.drain) && (s.state.Draining? ==> s.attributes.drain)
  {
    RecordSays(store, k, now);
  }

  lemma MemoryHasRecord(store: Store, k: string)
    requires View(store, k).Some?
    ensures Remembers(store, k)
  {
  }

  /** The record of the name after a sweep is the advanced one. */
  ghost predicate RecordAdvanced(env: Env, t: Tick, present: bool, s: Status, s': Status)
    requires s.stability.lastObservedAt.Some?
  {
    && s'.stability == Advanced(env, t, present, s.stability)
    && s'.reason == ReasonAt(env, t, present, s.stability)
    && StateAt(env, t, present, s.stability, s'.attributes.drain, s'.state)
  }

  lemma AdvancedRecord(env: Env, t: Tick, present: bool, before: Store, after: Store, k: string, later: Time)
    requires StoreOk(before, t.now) && StoreOk(after, later) && Remembers(before, k)
    requires View(before, k).Some? && View(after, k).Some?
    requires IsAdvanced(env, t, present, View(before, k).value, View(after, k).value)
    ensures Remembers(after, k) && RecordAdvanced(env, t, present, before[k].status, after[k].status)
  {
    MemoryHasRecord(after, k);
    RecordIsMemory(before, k, t.now);
    RecordIsMemory(after, k, later);
  }

  lemma MemoryAdvances(env: Env, t: Tick, store: Store, k: string)
    requires StoreOk(store, t.now) && Remembers(store, k) && MemoryOk(View(store, k), t.now)
    requires NeedsPriorState(t.cfg)
    requires if k in Seen(t.candidates) then !Settles(t, store[k].status) else HeldOn(t, store[k].status)
    ensures View(store, k).Some? && Step(env, t, k, View(store, k)).Some?
    ensures IsAdvanced(env, t, k in Seen(t.candidates), View(store, k).value, Step(env, t, k, View(store, k)).value)
  {
    RecordIsMemory(store, k, t.now);
    var v := View(store, k).value;
    if k in Seen(t.candidates) {
      PresentAdvances(env, t, v);
    } else {
      AbsentAdvances(env, t, v);
    }
  }

  /**
   * The record after a complete sweep, exactly: for a name that is present and past settling, or missing
   * within its grace, the sweep writes the advanced record. Its penalty and flap count are those of the
   * last record, faded since the last observation, plus one flap for a return; it is observed now; it
   * is Dampened exactly if the score stands at the threshold that applies and the cap has not run out,
   * else HoldDown if missing, else Draining or Active.
   */
  lemma RecordAdvances(env: Env, h: seq<Store>, ticks: seq<Tick>, k: string, i: nat)
    requires IsRun(env, h, ticks) && i < |ticks| && k !in h[0]
    requires Complete(ticks[i]) && NeedsPriorState(ticks[i].cfg) && Remembers(h[i], k)
    requires if k in Seen(ticks[i].candidates) then !Settles(ticks[i], h[i][k].status)
             else HeldOn(ticks[i], h[i][k].status)
    ensures Remembers(h[i + 1], k)
    ensures RecordAdvanced(env, ticks[i], k in Seen(ticks[i].candidates), h[i][k].status, h[i + 1][k].status)
  {
    var t := ticks[i];
    RunSteps(env, h, ticks, i, k);
    MemoryAdvances(env, t, h[i], k);
    AdvancedRecord(env, t, k in Seen(t.candidates), h[i], h[i + 1], k, t.at);
  }

  /** A record that is still settling only moves its observation. */
  lemma RecordSettlesOn(env: Env, h: seq<Store>, ticks: seq<Tick>, k: string, i: nat)
    requires IsRun(env, h, ticks) && i < |ticks| && k !in h[0]
    requires Complete(ticks[i]) && NeedsPriorState(ticks[i].cfg) && Remembers(h[i], k)
    requires k in Seen(ticks[i].candidates) && Settles(ticks[i], h[i][k].status)
    ensures Remembers(h[i + 1], k)
    ensures var s, s', t := h[i][k].status, h[i + 1][k].status, ticks[i];
            && s'.state.Pending? && s'.reason == Settling(Setting(t.cfg.additionDelay, 0))
            && s'.stability == Stability(0, 0, Some(t.now), None, None, s.stability.pendingSince)
  {
    var t := ticks[i];
    RunSteps(env, h, ticks, i, k);
    RecordIsMemory(h[i], k, t.now);
    SettlingMemory(env, t, k, View(h[i], k).value);
    MemoryHasRecord(h[i + 1], k);
    RecordIsMemory(h[i + 1], k, t.at);
  }

  lemma SettlingMemory(env: Env, t: Tick, k: string, v: Damping)
    requires NeedsPriorState(t.cfg) && k in Seen(t.candidates)
    requires v.state.Pending? && v.pendingSince.Some?
    requires t.now - v.pendingSince.value < Setting(t.cfg.additionDelay, 0)
    ensures Step(env, t, k, Some(v)) == Some(Damping(Pending, Settling(Setting(t.cfg.additionDelay, 0)), 0.0, 0, t.now,
                                                     None, None, v.pendingSince))
  {
    assert ClampToInt32(0.0) == 0;
  }

  /** A settling memory without a start counts from its last observation. */
  lemma SettlingWithoutStart(pw: HalfPower, now: Time, v: Damping, delay: Duration, dampening: Option<DampeningConfig>)
    requires v.state.Pending? && v.pendingSince.None?
    ensures var d := EvaluatePresent(pw, now, Some(v), delay, dampening);
            if now - v.lastObservedAt < delay then d.state.Pending? && d.pendingSince == Some(v.lastObservedAt)
            else d.pendingSince.None?
  {
  }

  /** Every name that a complete sweep outputs unrejected has a record observed at that sweep. */
  lemma OutputIsObserved(env: Env, h: seq<Store>, ticks: seq<Tick>, k: string, i: nat)
    requires IsRun(env, h, ticks) && i < |ticks| && k !in h[0] && Complete(ticks[i])
    requires exists c :: c in Settled(env, h[i], ticks[i]) && !c.rejected && NameOf(c) == k
    ensures k in h[i + 1] && Managed(h[i + 1][k])
    ensures h[i + 1][k].status.stability.lastObservedAt == Some(ticks[i].now)
  {
    RunSteps(env, h, ticks, i, k);
    var c :| c in Settled(env, h[i], ticks[i]) && !c.rejected && NameOf(c) == k;
    SettledAt(env, h[i], ticks[i], c);
    StepObservesNow(env, ticks[i], k, View(h[i], k));
    MemoryHasRecord(h[i + 1], k);
    RecordIsMemory(h[i + 1], k, ticks[i].at);
  }

  // ----- What the record says of a present route

  /** The record carries the candidate's own data. */
  predicate Carries(s: Status, c: Candidate) {
    && s.prefix == c.prefix && s.clusterID == c.clusterID && s.peer == c.peer && s.locality == c.locality
    && s.attributes == Attributes(c.weight, c.tier, c.drain, c.serviceTag, c.med, c.asPath, c.largeCommunities)
  }

  lemma ReportCarries(parse: Parser, s: Status, c: Candidate, policies: seq<Policy>)
    requires SameReport(s, BuildStatus(parse, c, policies))
    ensures Carries(s, c)
  {
    RecordCarries(parse, c, policies);
  }

  lemma OnlyPresentOutput(env: Env, store: Store, t: Tick, c: Candidate, d: Candidate)
    requires Feasible(store, t) && StoreOk(store, t.now) && DistinctNames(t.candidates)
    requires c in t.candidates && !c.rejected
    requires d in Settled(env, store, t) && !d.rejected && NameOf(d) == NameOf(c)
    ensures d == c.(damping := d.damping)
  {
    var settled := Settled(env, store, t);
    var i :| 0 <= i < |settled| && settled[i] == d;
    var j :| 0 <= j < |t.candidates| && t.candidates[j] == c;
    if i < |t.candidates| {
      SettledPresent(env, store, t, i);
      assert i == j;
    } else {
      SettledHeld(env, store, t, i);
      AbsentAt(env, store, t, d);
    }
  }

  /**
   * The record of a route that is present carries the route's own data, and while the verdict is neither
   * Pending nor Dampened it is Draining or Active as the route drains or not.
   */
  lemma RecordOfPresent(env: Env, h: seq<Store>, ticks: seq<Tick>, i: nat, c: Candidate)
    requires IsRun(env, h, ticks) && i < |ticks| && NameOf(c) !in h[0] && Complete(ticks[i])
    requires c in ticks[i].candidates && !c.rejected
    ensures Remembers(h[i + 1], NameOf(c))
    ensures var s := h[i + 1][NameOf(c)].status;
            && Carries(s, c)
            && s.state in {Active, Draining, Pending, Dampened}
            && (s.state.Draining? ==> c.drain) && (s.state.Active? ==> !c.drain)
  {
    var t, k := ticks[i], NameOf(c);
    RunSteps(env, h, ticks, i, k);
    assert k in Seen(t.candidates);
    StepExactly(env, t, k, View(h[i], k));
    PresentStates(env, t, k, View(h[i], k));
    MemoryHasRecord(h[i + 1], k);
    RecordIsMemory(h[i + 1], k, t.at);
    assert Feasible(h[i], t);
    var d := SettledReport(env, h[i], t, k);
    OnlyPresentOutput(env, h[i], t, c, d);
    ReportCarries(env.parse, h[i + 1][k].status, d, t.policies);
  }

  lemma PresentStates(env: Env, t: Tick, k: string, v: Option<Damping>)
    requires k in Seen(t.candidates)
    ensures var v' := Step(env, t, k, v); v'.Some? && v'.value.state in {Active, Pending, Dampened}
  {
  }
}

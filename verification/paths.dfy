/**
 * The memory under one name, sweep by sweep. Runs.dfy shows that every name of every run follows such
 * a path; the results here hold for any configuration per sweep, any decay factors, any clock that does
 * not go backwards, and sweeps that stop part-way unless a result says otherwise.
 */
module Paths {
  import opened Types
  import opened Damper
  import opened Report
  import opened Records
  import opened Views

  type Memories = seq<Option<Damping>>

  /** A sweep that ran to its end over a snapshot without repeated names. */
  ghost predicate Complete(t: Tick) {
    t.fault.NoFault? && DistinctNames(t.candidates)
  }

  /** The integer that a remembered score is; a name that is not remembered has none. */
  function Penalty(v: Option<Damping>): int {
    if v.None? then 0 else v.value.score.Floor
  }

  predicate MemoryOk(v: Option<Damping>, now: Time) {
    v.Some? ==> DampingOk(v.value, now) && v.value.score == Penalty(v) as real
  }

  /** Under one name a sweep keeps the memory, loses it, or takes its step; if it completes, the step. */
  ghost predicate Move(env: Env, t: Tick, k: string, owned: bool, v: Option<Damping>, v': Option<Damping>) {
    && 0 < t.now
    && MemoryOk(v, t.now)
    && (v' == v || v' == None || v' == Step(env, t, k, v))
    && (owned && Complete(t) ==> v' == Step(env, t, k, v))
  }

  /** owned: no foreign object sits under the name. */
  ghost predicate IsPath(env: Env, ticks: seq<Tick>, k: string, owned: bool, vs: Memories) {
    && |vs| == |ticks| + 1
    && vs[0].None?
    && (forall i :: 0 <= i < |ticks| ==> Move(env, ticks[i], k, owned, vs[i], vs[i + 1]))
    && (forall i :: 0 < i < |ticks| ==> ticks[i - 1].now <= ticks[i].now)
  }

  lemma ClockMonotone(env: Env, ticks: seq<Tick>, k: string, owned: bool, vs: Memories, a: nat, b: nat)
    requires IsPath(env, ticks, k, owned, vs) && a <= b < |ticks|
    ensures ticks[a].now <= ticks[b].now
    decreases b
  {
    if a < b {
      ClockMonotone(env, ticks, k, owned, vs, a, b - 1);
    }
  }

  // ----- One step

  /** A candidate is back after its record was marked withdrawn: the event that costs a penalty. */
  predicate Flaps(t: Tick, k: string, v: Option<Damping>) {
    k in Seen(t.candidates) && Fed(t.cfg, v).Some? && v.value.withdrawnAt.Some?
  }

  function FlapCost(t: Tick, k: string, v: Option<Damping>): int {
    if Flaps(t, k, v) then 1000 else 0
  }

  /** The step before its score is rounded. */
  function Verdicts(env: Env, t: Tick, k: string, v: Option<Damping>): Option<Damping> {
    if k in Seen(t.candidates) then
      Some(EvaluatePresent(env.halfPower, t.now, Fed(t.cfg, v), DelayOf(t.cfg), t.cfg.dampening))
    else if Fed(t.cfg, v).None? then None
    else AbsentDamping(env.halfPower, t.now, v.value, GraceOf(t.cfg), t.cfg.dampening)
  }

  predicate IsDampened(v: Option<Damping>) {
    v.Some? && v.value.state.Dampened?
  }

  lemma StepOfVerdict(env: Env, t: Tick, k: string, v: Option<Damping>)
    ensures var d := Verdicts(env, t, k, v);
            Step(env, t, k, v) == if d.None? then None else Some(Persisted(d.value))
  {
  }

  /** The score moves up by at most one penalty, and only on a flap. */
  lemma VerdictRaisesBy(env: Env, t: Tick, k: string, v: Option<Damping>)
    requires MemoryOk(v, t.now)
    requires Verdicts(env, t, k, v).Some?
    ensures 0.0 <= Verdicts(env, t, k, v).value.score <= (Penalty(v) + FlapCost(t, k, v)) as real
  {
    if Fed(t.cfg, v).Some? {
      DecayBounds(env.halfPower, v.value.score, t.now - v.value.lastObservedAt, HalfLifeOf(t.cfg.dampening));
    }
  }

  lemma StepRaisesBy(env: Env, t: Tick, k: string, v: Option<Damping>)
    requires MemoryOk(v, t.now)
    ensures Penalty(Step(env, t, k, v)) <= Penalty(v) + FlapCost(t, k, v)
  {
    StepOfVerdict(env, t, k, v);
    var d := Verdicts(env, t, k, v);
    if d.Some? {
      VerdictRaisesBy(env, t, k, v);
      ClampMonotone(d.value.score, Penalty(v) + FlapCost(t, k, v));
    }
  }

  /** Entering suppression takes a score at the threshold, and the sweep signs with its own time. */
  lemma StepSuppresses(env: Env, t: Tick, k: string, v: Option<Damping>)
    requires MemoryOk(v, t.now)
    requires !IsDampened(v) && IsDampened(Step(env, t, k, v))
    ensures Enabled(t.cfg.dampening)
    ensures Step(env, t, k, v).value.suppressedSince == Some(t.now)
    ensures SuppressThresholdOf(t.cfg.dampening.value) <= Penalty(v) + FlapCost(t, k, v)
  {
    StepOfVerdict(env, t, k, v);
    VerdictRaisesBy(env, t, k, v);
  }

  /** Leaving suppression by the cap forgets the score; leaving it by decay keeps at most the reuse threshold. */
  lemma StepReleases(env: Env, t: Tick, k: string, v: Option<Damping>)
    requires MemoryOk(v, t.now)
    requires IsDampened(v) && Step(env, t, k, v).Some? && !IsDampened(Step(env, t, k, v))
    requires Enabled(t.cfg.dampening)
    ensures if Capped(t.now, v.value.suppressedSince, t.cfg.dampening)
            then Penalty(Step(env, t, k, v)) == 0
            else Penalty(Step(env, t, k, v)) <= ReuseThresholdOf(t.cfg.dampening.value)
  {
    StepOfVerdict(env, t, k, v);
    VerdictRaisesBy(env, t, k, v);
    var d := Verdicts(env, t, k, v).value;
    if !Capped(t.now, v.value.suppressedSince, t.cfg.dampening) {
      ClampMonotone(d.score, ReuseThresholdOf(t.cfg.dampening.value));
    }
  }

  /** Staying suppressed keeps the signature of the sweep that suppressed, and the cap has not run out. */
  lemma StepStaysSuppressed(env: Env, t: Tick, k: string, v: Option<Damping>)
    requires MemoryOk(v, t.now)
    requires IsDampened(Step(env, t, k, v))
    ensures Enabled(t.cfg.dampening)
    ensures var d := Step(env, t, k, v).value;
            && d.lastObservedAt == t.now
            && d.suppressedSince == (if IsDampened(v) then v.value.suppressedSince else Some(t.now))
            && (IsDampened(v) ==> t.now - d.suppressedSince.value < MaxSuppressOf(t.cfg.dampening.value))
  {
  }

  /** Every step observes now, whether the name is present, settling, held down or suppressed. */
  lemma StepObservesNow(env: Env, t: Tick, k: string, v: Option<Damping>)
    ensures Step(env, t, k, v).Some? ==> Step(env, t, k, v).value.lastObservedAt == t.now
  {
  }

  // ----- The score against the number of flaps

  ghost function FlapCount(ticks: seq<Tick>, k: string, vs: Memories, a: nat, b: nat): nat
    requires a <= b <= |ticks| && |vs| == |ticks| + 1
  {
    if a == b then 0 else FlapCount(ticks, k, vs, a, b - 1) + if Flaps(ticks[b - 1], k, vs[b - 1]) then 1 else 0
  }

  /**
   * Over any stretch the stored penalty grows by at most 1000 per flap, although it is rounded to an
   * integer at every sweep: rounding never manufactures score.
   */
  lemma {:induction false} PenaltyBoundedByFlaps(env: Env, ticks: seq<Tick>, k: string, owned: bool, vs: Memories,
                                                 a: nat, b: nat)
    requires IsPath(env, ticks, k, owned, vs) && a <= b <= |ticks|
    ensures Penalty(vs[b]) <= Penalty(vs[a]) + 1000 * FlapCount(ticks, k, vs, a, b)
  {
    if a < b {
      PenaltyBoundedByFlaps(env, ticks, k, owned, vs, a, b - 1);
      assert Move(env, ticks[b - 1], k, owned, vs[b - 1], vs[b]);
      StepRaisesBy(env, ticks[b - 1], k, vs[b - 1]);
      PenaltyNonNegative(vs[b - 1], ticks[b - 1].now);
    }
  }

  lemma PenaltyNonNegative(v: Option<Damping>, now: Time)
    requires MemoryOk(v, now)
    ensures 0 <= Penalty(v)
  {
  }

  /**
   * Minimum flaps: a name that starts a stretch without memory, or with a penalty of zero as after a
   * cap, is not suppressed before ceil(suppressThreshold / 1000) flaps.
   */
  lemma MinimumFlapsFromFresh(env: Env, ticks: seq<Tick>, k: string, owned: bool, vs: Memories, a: nat, i: nat)
    requires IsPath(env, ticks, k, owned, vs) && a <= i < |ticks|
    requires Penalty(vs[a]) == 0
    requires !IsDampened(vs[i]) && IsDampened(vs[i + 1])
    ensures Enabled(ticks[i].cfg.dampening)
    ensures SuppressThresholdOf(ticks[i].cfg.dampening.value) <= 1000 * FlapCount(ticks, k, vs, a, i + 1)
  {
    assert Move(env, ticks[i], k, owned, vs[i], vs[i + 1]);
    PenaltyBoundedByFlaps(env, ticks, k, owned, vs, a, i);
    StepSuppresses(env, ticks[i], k, vs[i]);
  }

  /**
   * Minimum flaps between suppressions: from one release to the next suppression there are at least
   * ceil(suppressThreshold / 1000) flaps if the cap released it, and at least
   * ceil((suppressThreshold - reuseThreshold) / 1000) if its score had decayed.
   */
  lemma MinimumFlapsBetweenSuppressions(env: Env, ticks: seq<Tick>, k: string, owned: bool, vs: Memories, r: nat,
                                        i: nat)
    requires IsPath(env, ticks, k, owned, vs) && r < i < |ticks|
    requires IsDampened(vs[r]) && vs[r + 1].Some? && !IsDampened(vs[r + 1]) && Enabled(ticks[r].cfg.dampening)
    requires !IsDampened(vs[i]) && IsDampened(vs[i + 1])
    ensures Enabled(ticks[i].cfg.dampening)
    ensures var capped := Capped(ticks[r].now, vs[r].value.suppressedSince, ticks[r].cfg.dampening);
            var left := if capped then 0 else ReuseThresholdOf(ticks[r].cfg.dampening.value);
            SuppressThresholdOf(ticks[i].cfg.dampening.value) - left <= 1000 * FlapCount(ticks, k, vs, r + 1, i + 1)
  {
    assert Move(env, ticks[r], k, owned, vs[r], vs[r + 1]);
    assert Move(env, ticks[i], k, owned, vs[i], vs[i + 1]);
    StepReleases(env, ticks[r], k, vs[r]);
    PenaltyBoundedByFlaps(env, ticks, k, owned, vs, r + 1, i);
    StepSuppresses(env, ticks[i], k, vs[i]);
  }

  // ----- The suppression cap

  /**
   * suppressedSince is the first sweep of the current unbroken Dampened stretch, however often the
   * route was withdrawn and announced again within it.
   */
  lemma {:induction false} SuppressedSinceStartOfStretch(env: Env, ticks: seq<Tick>, k: string, owned: bool,
                                                         vs: Memories, a: nat, b: nat)
    requires IsPath(env, ticks, k, owned, vs) && 0 < a <= b <= |ticks|
    requires !IsDampened(vs[a - 1])
    requires forall i :: a <= i <= b ==> IsDampened(vs[i])
    ensures IsDampened(vs[b]) && vs[b].value.suppressedSince == Some(ticks[a - 1].now)
  {
    assert Move(env, ticks[b - 1], k, owned, vs[b - 1], vs[b]);
    assert IsDampened(vs[b]);
    if a < b {
      SuppressedSinceStartOfStretch(env, ticks, k, owned, vs, a, b - 1);
    }
    MoveKeepsSignature(env, ticks[b - 1], k, owned, vs[b - 1], vs[b]);
  }

  lemma MoveKeepsSignature(env: Env, t: Tick, k: string, owned: bool, v: Option<Damping>, v': Option<Damping>)
    requires Move(env, t, k, owned, v, v') && IsDampened(v')
    ensures v'.value.suppressedSince == if IsDampened(v) then v.value.suppressedSince else Some(t.now)
  {
    if v' != v {
      StepStaysSuppressed(env, t, k, v);
    }
  }

  /** All sweeps of a run that suppress at all share one positive cap. */
  ghost predicate CappedBy(ticks: seq<Tick>, cap: Duration) {
    && 0 < cap
    && forall i :: 0 <= i < |ticks| && Enabled(ticks[i].cfg.dampening) ==>
         MaxSuppressOf(ticks[i].cfg.dampening.value) == cap
  }

  /** Suppression cap: nothing is ever seen Dampened for as long as the cap. */
  lemma {:induction false} SuppressionCap(env: Env, ticks: seq<Tick>, k: string, owned: bool, vs: Memories, i: nat,
                                          cap: Duration)
    requires IsPath(env, ticks, k, owned, vs) && i <= |ticks| && CappedBy(ticks, cap)
    requires IsDampened(vs[i])
    ensures var d := vs[i].value;
            d.suppressedSince.Some? && d.lastObservedAt - d.suppressedSince.value < cap
  {
    if i > 0 {
      var t, v := ticks[i - 1], vs[i - 1];
      assert Move(env, t, k, owned, v, vs[i]);
      if vs[i] == v {
        SuppressionCap(env, ticks, k, owned, vs, i - 1, cap);
      } else {
        StepStaysSuppressed(env, t, k, v);
      }
    }
  }

  /** The same as a bound on stretches: completed sweeps that find a name Dampened lie less than the cap apart. */
  lemma StretchShorterThanCap(env: Env, ticks: seq<Tick>, k: string, vs: Memories, a: nat, b: nat, cap: Duration)
    requires IsPath(env, ticks, k, true, vs) && 0 < a <= b <= |ticks| && CappedBy(ticks, cap)
    requires !IsDampened(vs[a - 1])
    requires forall i :: a <= i <= b ==> IsDampened(vs[i])
    requires Complete(ticks[b - 1])
    ensures ticks[b - 1].now - ticks[a - 1].now < cap
  {
    SuppressedSinceStartOfStretch(env, ticks, k, true, vs, a, b);
    SuppressionCap(env, ticks, k, true, vs, b, cap);
    assert Move(env, ticks[b - 1], k, true, vs[b - 1], vs[b]);
    StepStaysSuppressed(env, ticks[b - 1], k, vs[b - 1]);
  }

  // ----- Hold-down

  /** Sweeps a to b - 1 complete with one grace, none of them seeing the name unrejected. */
  ghost predicate AbsentThroughout(ticks: seq<Tick>, k: string, a: nat, b: nat, grace: Duration)
    requires b <= |ticks|
  {
    forall i :: a <= i < b ==>
      Complete(ticks[i]) && GraceOf(ticks[i].cfg) == grace && k !in Seen(ticks[i].candidates)
  }

  lemma StepAbsent(env: Env, t: Tick, k: string, v: Option<Damping>)
    requires MemoryOk(v, t.now) && v.Some? && !v.value.state.Pending?
    requires k !in Seen(t.candidates)
    ensures var since := OrElse(v.value.withdrawnAt, t.now);
            var v' := Step(env, t, k, v);
            && (v'.Some? <==> t.now - since < GraceOf(t.cfg) && NeedsPriorState(t.cfg))
            && (v'.Some? ==>
                 v'.value.withdrawnAt == Some(since) && (v'.value.state.HoldDown? || v'.value.state.Dampened?))
  {
  }

  lemma GraceNeedsPrior(cfg: StabilityConfig)
    requires GraceOf(cfg) > 0
    ensures NeedsPriorState(cfg)
  {
  }

  /**
   * Exact hold-down: a name that was present and not settling before sweep a, and is missing from
   * sweeps a to b, is still held after sweep b exactly when less than the grace has passed since a;
   * withdrawnAt stays the instant of sweep a throughout.
   */
  lemma {:induction false} ExactHoldDown(env: Env, ticks: seq<Tick>, k: string, vs: Memories, a: nat, b: nat,
                                         grace: Duration)
    requires IsPath(env, ticks, k, true, vs) && a <= b < |ticks|
    requires AbsentThroughout(ticks, k, a, b + 1, grace)
    requires vs[a].Some? && !vs[a].value.state.Pending? && vs[a].value.withdrawnAt.None?
    ensures vs[b + 1].Some? <==> ticks[b].now - ticks[a].now < grace
    ensures vs[b + 1].Some? ==>
              vs[b + 1].value.withdrawnAt == Some(ticks[a].now)
                && (vs[b + 1].value.state.HoldDown? || vs[b + 1].value.state.Dampened?)
  {
    assert Move(env, ticks[b], k, true, vs[b], vs[b + 1]);
    assert Complete(ticks[b]);
    if grace > 0 {
      GraceNeedsPrior(ticks[b].cfg);
    }
    if a == b {
      StepAbsent(env, ticks[b], k, vs[b]);
    } else {
      ClockMonotone(env, ticks, k, true, vs, a, b - 1);
      ClockMonotone(env, ticks, k, true, vs, b - 1, b);
      ExactHoldDown(env, ticks, k, vs, a, b - 1, grace);
      if vs[b].Some? {
        StepAbsent(env, ticks[b], k, vs[b]);
      }
    }
  }

  /** Sweeps a to b - 1 complete with one addition delay, all of them seeing the name. */
  ghost predicate PresentThroughout(ticks: seq<Tick>, k: string, a: nat, b: nat, delay: Duration)
    requires b <= |ticks|
  {
    forall i :: a <= i < b ==>
      Complete(ticks[i]) && DelayOf(ticks[i].cfg) == delay && k in Seen(ticks[i].candidates)
  }

  lemma StepPresent(env: Env, t: Tick, k: string, v: Option<Damping>)
    requires MemoryOk(v, t.now) && k in Seen(t.candidates)
    ensures var v' := Step(env, t, k, v);
            && v'.Some?
            && (v.None? && DelayOf(t.cfg) > 0 ==> v'.value.state.Pending? && v'.value.pendingSince == Some(t.now))
            && (DelayOf(t.cfg) <= 0 && (v.None? || !v.value.state.Pending?) ==> !v'.value.state.Pending?)
            && (v.Some? && DelayOf(t.cfg) > 0 ==>
                 && (v'.value.state.Pending? <==>
                    v.value.state.Pending? && t.now - v.value.pendingSince.value < DelayOf(t.cfg))
                 && (v'.value.state.Pending? ==> v'.value.pendingSince == v.value.pendingSince))
  {
  }

  /**
   * Exact settling, the counterpart of hold-down: a name without memory that appears at sweep a and
   * stays is Pending after sweep b exactly when less than the addition delay has passed since a, and
   * pendingSince stays the instant of sweep a.
   */
  lemma {:induction false} ExactSettling(env: Env, ticks: seq<Tick>, k: string, vs: Memories, a: nat, b: nat,
                                         delay: Duration)
    requires IsPath(env, ticks, k, true, vs) && a <= b < |ticks|
    requires PresentThroughout(ticks, k, a, b + 1, delay)
    requires vs[a].None?
    ensures vs[b + 1].Some?
    ensures vs[b + 1].value.state.Pending? <==> ticks[b].now - ticks[a].now < delay
    ensures vs[b + 1].value.state.Pending? ==> vs[b + 1].value.pendingSince == Some(ticks[a].now)
  {
    assert Move(env, ticks[b], k, true, vs[b], vs[b + 1]);
    assert Complete(ticks[b]);
    StepPresent(env, ticks[b], k, vs[b]);
    ClockMonotone(env, ticks, k, true, vs, a, b);
    if a < b {
      ClockMonotone(env, ticks, k, true, vs, b - 1, b);
      ClockMonotone(env, ticks, k, true, vs, a, b - 1);
      ExactSettling(env, ticks, k, vs, a, b - 1, delay);
    }
  }

  /** Once nothing is remembered nothing is held, and the next appearance is brand new with score 0. */
  lemma ForgottenStartsFresh(env: Env, t: Tick, k: string)
    ensures Step(env, t, k, None) ==
            if k in Seen(t.candidates) then Some(NewCandidateDamping(t.now, DelayOf(t.cfg))) else None
  {
    assert ClampToInt32(0.0) == 0;
  }

  // ----- What rounding costs

  /** The score that would be remembered if it were never rounded, starting from the one at a. */
  ghost function Unrounded(env: Env, ticks: seq<Tick>, k: string, vs: Memories, a: nat, b: nat): real
    requires a <= b <= |ticks| && |vs| == |ticks| + 1
  {
    if a == b then Penalty(vs[a]) as real
    else UnroundedMove(env, ticks[b - 1], k, vs[b - 1], vs[b], Unrounded(env, ticks, k, vs, a, b - 1))
  }

  /** A sweep that stopped before the name leaves the score; one that forgot the name leaves none. */
  function UnroundedMove(env: Env, t: Tick, k: string, v: Option<Damping>, v': Option<Damping>, e: real): real {
    if v' == v then e
    else if v'.None? then 0.0
    else UnroundedStep(env, t, k, v, e)
  }

  /** A brand-new name and one released by the cap start from nothing; any other decays and pays for a flap. */
  function UnroundedStep(env: Env, t: Tick, k: string, v: Option<Damping>, e: real): real {
    if Fed(t.cfg, v).None? || Capped(t.now, v.value.suppressedSince, t.cfg.dampening) then 0.0
    else
      DecayScore(env.halfPower, e, t.now - v.value.lastObservedAt, HalfLifeOf(t.cfg.dampening))
      + FlapCost(t, k, v) as real
  }

  /** The int32 clamp was not hit, and if the score decayed at all, then to at most f times what it was. */
  ghost predicate Counts(env: Env, t: Tick, v: Option<Damping>, v': Option<Damping>, f: real) {
    && Penalty(v') < MAX_INT32
    && (Fed(t.cfg, v).Some? ==>
         var elapsed, halfLife := t.now - v.value.lastObservedAt, HalfLifeOf(t.cfg.dampening);
         elapsed <= 0 || halfLife <= 0 || env.halfPower(elapsed, halfLife) <= f)
  }

  /** Half a unit of rounding on top of f times an error of 1/(2(1-f)) is again at most 1/(2(1-f)). */
  function ErrorBound(f: real): real
    requires f < 1.0
  {
    1.0 / (2.0 * (1.0 - f))
  }

  lemma ErrorBoundFixpoint(f: real)
    requires 0.0 <= f < 1.0
    ensures f * ErrorBound(f) + 0.5 == ErrorBound(f) && ErrorBound(f) > 0.0
  {
    var b := ErrorBound(f);
    assert b * (2.0 * (1.0 - f)) == 1.0;
    assert b * (2.0 * (1.0 - f)) == 2.0 * b - 2.0 * (f * b);
  }

  predicate Near(x: real, y: real, bound: real) {
    -bound <= x - y <= bound
  }

  lemma DecayKeepsNear(pw: HalfPower, x: real, y: real, elapsed: Duration, halfLife: Duration, f: real, bound: real)
    requires Near(x, y, bound) && 0.0 <= bound && 0.0 <= f
    requires elapsed > 0 && halfLife > 0 && pw(elapsed, halfLife) <= f
    ensures Near(DecayScore(pw, x, elapsed, halfLife), DecayScore(pw, y, elapsed, halfLife), f * bound)
  {
    var p := pw(elapsed, halfLife);
    assert x * p - y * p == (x - y) * p;
    ScaleBounds(x - y, p, f, bound);
  }

  lemma ScaleBounds(d: real, p: real, f: real, bound: real)
    requires -bound <= d <= bound && 0.0 <= p <= f
    ensures -(f * bound) <= d * p <= f * bound
  {
    assert (bound - d) * p >= 0.0 && (bound + d) * p >= 0.0;
    assert (f - p) * bound >= 0.0;
  }

  /** One step that reads the memory, seen as what it does to the score before rounding. */
  lemma CountedVerdict(env: Env, t: Tick, k: string, v: Option<Damping>)
    requires Fed(t.cfg, v).Some? && !v.value.state.Pending?
    requires !Capped(t.now, v.value.suppressedSince, t.cfg.dampening)
    requires Step(env, t, k, v).Some?
    ensures Verdicts(env, t, k, v).Some?
    ensures Verdicts(env, t, k, v).value.score
         == DecayScore(env.halfPower, v.value.score, t.now - v.value.lastObservedAt, HalfLifeOf(t.cfg.dampening))
            + FlapCost(t, k, v) as real
  {
  }

  lemma RoundingStep(env: Env, t: Tick, k: string, v: Option<Damping>, e: real, f: real)
    requires 0.0 <= f < 1.0
    requires MemoryOk(v, t.now) && Fed(t.cfg, v).Some? && !v.value.state.Pending?
    requires !Capped(t.now, v.value.suppressedSince, t.cfg.dampening)
    requires Step(env, t, k, v).Some? && Counts(env, t, v, Step(env, t, k, v), f)
    requires Near(Penalty(v) as real, e, ErrorBound(f))
    ensures Near(Penalty(Step(env, t, k, v)) as real, UnroundedStep(env, t, k, v, e), ErrorBound(f))
  {
    CountedVerdict(env, t, k, v);
    StepOfVerdict(env, t, k, v);
    var elapsed, halfLife := t.now - v.value.lastObservedAt, HalfLifeOf(t.cfg.dampening);
    RoundedScore(env.halfPower, Penalty(v), e, FlapCost(t, k, v), elapsed, halfLife, f);
  }

  /** Decay, a flap's cost and rounding, on numbers alone. */
  lemma RoundedScore(pw: HalfPower, n: int, e: real, cost: int, elapsed: Duration, halfLife: Duration, f: real)
    requires 0 <= n && 0 <= cost && 0.0 <= f < 1.0 && Near(n as real, e, ErrorBound(f))
    requires elapsed <= 0 || halfLife <= 0 || pw(elapsed, halfLife) <= f
    requires ClampToInt32(DecayScore(pw, n as real, elapsed, halfLife) + cost as real) < MAX_INT32
    ensures var score := DecayScore(pw, n as real, elapsed, halfLife) + cost as real;
            Near(ClampToInt32(score) as real, DecayScore(pw, e, elapsed, halfLife) + cost as real, ErrorBound(f))
  {
    ErrorBoundFixpoint(f);
    if elapsed <= 0 || halfLife <= 0 {
      ClampWhole(n as real + cost as real, n + cost);
    } else {
      DecayKeepsNear(pw, n as real, e, elapsed, halfLife, f, ErrorBound(f));
      DecayBounds(pw, n as real, elapsed, halfLife);
      var x, y := DecayScore(pw, n as real, elapsed, halfLife), DecayScore(pw, e, elapsed, halfLife);
      CostKeepsNear(x, y, cost, f * ErrorBound(f));
      NearOnceRounded(x + cost as real, y + cost as real, f * ErrorBound(f));
    }
  }

  lemma CostKeepsNear(x: real, y: real, cost: int, bound: real)
    requires Near(x, y, bound)
    ensures Near(x + cost as real, y + cost as real, bound)
  {
  }

  lemma NearOnceRounded(x: real, y: real, bound: real)
    requires 0.0 <= x && Near(x, y, bound) && ClampToInt32(x) < MAX_INT32
    ensures Near(ClampToInt32(x) as real, y, bound + 0.5)
  {
  }

  lemma ClampWhole(x: real, n: int)
    requires x == n as real && 0 <= n
    requires ClampToInt32(x) < MAX_INT32
    ensures ClampToInt32(x) == n
  {
  }

  /** A settling name has score 0, rounded or not. */
  lemma SettlingStep(env: Env, t: Tick, k: string, v: Option<Damping>)
    requires MemoryOk(v, t.now) && Fed(t.cfg, v).Some? && v.value.state.Pending?
    ensures Penalty(Step(env, t, k, v)) == 0
    ensures UnroundedStep(env, t, k, v, 0.0) == 0.0
  {
    var p := env.halfPower(t.now - v.value.lastObservedAt, HalfLifeOf(t.cfg.dampening));
    assert 0.0 * p == 0.0;
  }

  /** A name that is not read starts from nothing, and so does one that the cap releases. */
  lemma ResetStep(env: Env, t: Tick, k: string, v: Option<Damping>)
    requires MemoryOk(v, t.now)
    requires Fed(t.cfg, v).None? || Capped(t.now, v.value.suppressedSince, t.cfg.dampening)
    ensures Penalty(Step(env, t, k, v)) == 0
  {
  }

  lemma NeverSettlesAgain(env: Env, t: Tick, k: string, v: Option<Damping>)
    requires Fed(t.cfg, v).Some? && !v.value.state.Pending?
    ensures Step(env, t, k, v).Some? ==> !Step(env, t, k, v).value.state.Pending?
  {
  }

  predicate Tracks(v: Option<Damping>, e: real, f: real)
    requires f < 1.0
  {
    && Near(Penalty(v) as real, e, ErrorBound(f))
    && (v.Some? && v.value.state.Pending? ==> e == 0.0)
  }

  lemma TracksStep(env: Env, t: Tick, k: string, v: Option<Damping>, e: real, f: real)
    requires 0.0 <= f < 1.0 && MemoryOk(v, t.now)
    requires Step(env, t, k, v).Some? && Counts(env, t, v, Step(env, t, k, v), f)
    requires Tracks(v, e, f)
    ensures Tracks(Step(env, t, k, v), UnroundedStep(env, t, k, v, e), f)
  {
    ErrorBoundFixpoint(f);
    if Fed(t.cfg, v).None? || Capped(t.now, v.value.suppressedSince, t.cfg.dampening) {
      ResetStep(env, t, k, v);
    } else if v.value.state.Pending? {
      SettlingStep(env, t, k, v);
    } else {
      RoundingStep(env, t, k, v, e, f);
      NeverSettlesAgain(env, t, k, v);
    }
  }

  lemma TracksMove(env: Env, t: Tick, k: string, owned: bool, v: Option<Damping>, v': Option<Damping>, e: real, f: real)
    requires 0.0 <= f < 1.0 && Move(env, t, k, owned, v, v') && Counts(env, t, v, v', f)
    requires Tracks(v, e, f)
    ensures Tracks(v', UnroundedMove(env, t, k, v, v', e), f)
  {
    ErrorBoundFixpoint(f);
    if v' != v && v'.Some? {
      TracksStep(env, t, k, v, e, f);
    }
  }

  /**
   * Rounding bound: the stored integer stays within 1/(2(1-f)) of the score that was never rounded,
   * however many sweeps there are and wherever they stop. Sweeps without decay add no error at all.
   */
  lemma {:induction false} RoundingBound(env: Env, ticks: seq<Tick>, k: string, owned: bool, vs: Memories,
                                         a: nat, b: nat, f: real)
    requires IsPath(env, ticks, k, owned, vs) && a <= b <= |ticks| && 0.0 <= f < 1.0
    requires forall i :: a <= i < b ==> Counts(env, ticks[i], vs[i], vs[i + 1], f)
    ensures Near(Penalty(vs[b]) as real, Unrounded(env, ticks, k, vs, a, b), ErrorBound(f))
  {
    if a < |ticks| {
      ScoreTracked(env, ticks, k, owned, vs, a, b, f);
    } else {
      ErrorBoundFixpoint(f);
    }
  }

  lemma {:induction false} ScoreTracked(env: Env, ticks: seq<Tick>, k: string, owned: bool, vs: Memories,
                                        a: nat, b: nat, f: real)
    requires IsPath(env, ticks, k, owned, vs) && a <= b <= |ticks| && a < |ticks| && 0.0 <= f < 1.0
    requires forall i :: a <= i < b ==> Counts(env, ticks[i], vs[i], vs[i + 1], f)
    ensures Tracks(vs[b], Unrounded(env, ticks, k, vs, a, b), f)
  {
    if a == b {
      assert Move(env, ticks[a], k, owned, vs[a], vs[a + 1]);
      ErrorBoundFixpoint(f);
    } else {
      ScoreTracked(env, ticks, k, owned, vs, a, b - 1, f);
      var t, v, v' := ticks[b - 1], vs[b - 1], vs[b];
      assert Move(env, t, k, owned, v, v');
      assert Counts(env, t, v, v', f);
      TracksMove(env, t, k, owned, v, v', Unrounded(env, ticks, k, vs, a, b - 1), f);
    }
  }

  // ----- Without a grace, dampening never starts

  predicate Quiet(v: Option<Damping>) {
    v.Some? ==>
      && !v.value.state.Dampened? && !v.value.state.HoldDown?
      && v.value.withdrawnAt.None? && v.value.flapCount == 0 && v.value.score == 0.0
  }

  lemma QuietStep(env: Env, t: Tick, k: string, v: Option<Damping>)
    requires MemoryOk(v, t.now) && Quiet(v)
    requires GraceOf(t.cfg) <= 0
    requires Enabled(t.cfg.dampening) ==> SuppressThresholdOf(t.cfg.dampening.value) > 0
    ensures Quiet(Step(env, t, k, v))
  {
    if v.Some? {
      var elapsed := t.now - v.value.lastObservedAt;
      var p := env.halfPower(elapsed, HalfLifeOf(t.cfg.dampening));
      var q := env.halfPower(elapsed, FLAP_COUNT_HALF_LIFE);
      assert 0.0 * p == 0.0 && 0.0 * q == 0.0;
      assert ScoreNow(env.halfPower, t.now, v.value, false, t.cfg.dampening) == 0.0;
      assert FlapsNow(env.halfPower, t.now, v.value, false) == 0;
    }
  }

  /**
   * Without a positive grace dampening is inert: no sweep ever remembers a withdrawal, a flap, a
   * penalty or a suppression.
   */
  lemma {:induction false} NoGraceNoDampening(env: Env, ticks: seq<Tick>, k: string, owned: bool, vs: Memories, i: nat)
    requires IsPath(env, ticks, k, owned, vs) && i <= |ticks|
    requires forall j :: 0 <= j < |ticks| ==> GraceOf(ticks[j].cfg) <= 0
    requires forall j :: 0 <= j < |ticks| && Enabled(ticks[j].cfg.dampening) ==>
               SuppressThresholdOf(ticks[j].cfg.dampening.value) > 0
    ensures Quiet(vs[i])
  {
    if i > 0 {
      NoGraceNoDampening(env, ticks, k, owned, vs, i - 1);
      assert Move(env, ticks[i - 1], k, owned, vs[i - 1], vs[i]);
      QuietStep(env, ticks[i - 1], k, vs[i - 1]);
    }
  }
}

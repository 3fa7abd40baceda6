/**
 * The Damp stage: internal/damp/ewma/ewma.go. The power of one half is a parameter, so that every
 * result holds for whatever decay factor between 0 and 1 the floating-point library returns.
 */
module Damper {
  import opened Types
  import opened Names

  /** 0.5 to the power elapsed/halfLife: any function into [0, 1]. */
  type HalfPower = f: (int, int) -> real | forall e, h :: 0.0 <= f(e, h) <= 1.0
    ghost witness (e, h) => 1.0

  const FLAP_PENALTY := 1000.0
  const DEFAULT_HALF_LIFE := 90
  const DEFAULT_SUPPRESS_THRESHOLD := 3000
  const DEFAULT_REUSE_THRESHOLD := 750
  const DEFAULT_MAX_SUPPRESS := 1800
  const FLAP_COUNT_HALF_LIFE := 86400

  function OrElse<T>(o: Option<T>, default: T): T {
    match o
    case None => default
    case Some(v) => v
  }

  function HalfLifeOf(d: Option<DampeningConfig>): Duration {
    if d.Some? then OrElse(d.value.halfLife, DEFAULT_HALF_LIFE) else DEFAULT_HALF_LIFE
  }

  function SuppressThresholdOf(d: DampeningConfig): int {
    OrElse(d.suppressThreshold, DEFAULT_SUPPRESS_THRESHOLD)
  }

  function ReuseThresholdOf(d: DampeningConfig): int {
    OrElse(d.reuseThreshold, DEFAULT_REUSE_THRESHOLD)
  }

  function MaxSuppressOf(d: DampeningConfig): Duration {
    OrElse(d.maxSuppress, DEFAULT_MAX_SUPPRESS)
  }

  function GraceOf(cfg: StabilityConfig): Duration {
    OrElse(cfg.withdrawalGrace, 0)
  }

  function DelayOf(cfg: StabilityConfig): Duration {
    OrElse(cfg.additionDelay, 0)
  }

  predicate Enabled(d: Option<DampeningConfig>) {
    d.Some? && d.value.enabled
  }

  /** math.Round: to the nearest integer, halves away from zero. */
  function Round(x: real): (n: int)
    ensures x - 0.5 <= n as real <= x + 0.5
    ensures 0.0 <= x ==> x - 0.5 < n as real
    ensures x <= 0.0 ==> n as real < x + 0.5
  {
    if x >= 0.0 then (x + 0.5).Floor else -((0.5 - x).Floor)
  }

  function DecayScore(pw: HalfPower, prev: real, elapsed: Duration, halfLife: Duration): real {
    if elapsed <= 0 || halfLife <= 0 then prev else prev * pw(elapsed, halfLife)
  }

  function DecayFlapCount(pw: HalfPower, prev: int, elapsed: Duration): int {
    if elapsed <= 0 then prev else ToInt32(Round(prev as real * pw(elapsed, FLAP_COUNT_HALF_LIFE)))
  }

  datatype Verdict = Verdict(state: State, reason: Reason, score: real, suppressedSince: Option<Time>)

  /** Whether the hard cap on suppression has run out. */
  predicate Capped(now: Time, suppressedSince: Option<Time>, dampening: Option<DampeningConfig>) {
    && Enabled(dampening)
    && suppressedSince.Some?
    && now - suppressedSince.value >= MaxSuppressOf(dampening.value)
  }

  function SuppressionState(now: Time, score: real, suppressedSince: Option<Time>,
                            dampening: Option<DampeningConfig>): Verdict
  {
    if !Enabled(dampening) then
      Verdict(Active, NoReason, score, None)
    else if Capped(now, suppressedSince, dampening) then
      Verdict(Active, NoReason, 0.0, None)
    else if suppressedSince.Some? then
      var reuse := ReuseThresholdOf(dampening.value);
      if score < reuse as real then
        Verdict(Active, NoReason, score, None)
      else
        Verdict(Dampened, AboveReuse(score, reuse), score, suppressedSince)
    else
      var suppress := SuppressThresholdOf(dampening.value);
      if score >= suppress as real then
        Verdict(Dampened, AboveSuppress(score, suppress), score, Some(now))
      else
        Verdict(Active, NoReason, score, None)
  }

  function NewCandidateDamping(now: Time, additionDelay: Duration): Damping {
    if additionDelay <= 0 then
      Damping(Active, NoReason, 0.0, 0, now, None, None, None)
    else
      Damping(Pending, Settling(additionDelay), 0.0, 0, now, None, None, Some(now))
  }

  function PendingStart(prev: Damping): Time {
    OrElse(prev.pendingSince, prev.lastObservedAt)
  }

  predicate StillSettling(now: Time, prev: Damping, additionDelay: Duration) {
    prev.state.Pending? && now - PendingStart(prev) < additionDelay
  }

  /** The score as it stands after decay and, for a candidate that came back, one more flap. */
  function ScoreNow(pw: HalfPower, now: Time, prev: Damping, flapped: bool, dampening: Option<DampeningConfig>): real {
    DecayScore(pw, prev.score, now - prev.lastObservedAt, HalfLifeOf(dampening)) + if flapped then FLAP_PENALTY else 0.0
  }

  function FlapsNow(pw: HalfPower, now: Time, prev: Damping, flapped: bool): int {
    var decayed := DecayFlapCount(pw, prev.flapCount, now - prev.lastObservedAt);
    if flapped then ToInt32(decayed + 1) else decayed
  }

  function EvaluatePresent(pw: HalfPower, now: Time, prior: Option<Damping>, additionDelay: Duration,
                           dampening: Option<DampeningConfig>): Damping
  {
    if prior.None? then
      NewCandidateDamping(now, additionDelay)
    else
      var prev := prior.value;
      if StillSettling(now, prev, additionDelay) then
        Damping(Pending, Settling(additionDelay), 0.0, 0, now, None, None, Some(PendingStart(prev)))
      else
        var flapped := prev.withdrawnAt.Some?;
        var v := SuppressionState(now, ScoreNow(pw, now, prev, flapped, dampening), prev.suppressedSince, dampening);
        Damping(v.state, v.reason, v.score, FlapsNow(pw, now, prev, flapped), now, None, v.suppressedSince, None)
  }

  /** What a missing candidate's hold-down says, or nothing once the grace has run out. */
  function AbsentDamping(pw: HalfPower, now: Time, prev: Damping, withdrawalGrace: Duration,
                         dampening: Option<DampeningConfig>): Option<Damping>
  {
    var withdrawnAt := OrElse(prev.withdrawnAt, now);
    if prev.state.Pending? || now - withdrawnAt >= withdrawalGrace then
      None
    else
      var v := SuppressionState(now, ScoreNow(pw, now, prev, false, dampening), prev.suppressedSince, dampening);
      var held := if v.state.Dampened? then v
                  else v.(state := HoldDown, reason := WithdrawnFor(now - withdrawnAt, withdrawalGrace));
      Some(Damping(held.state, held.reason, held.score, FlapsNow(pw, now, prev, false), now,
                   Some(withdrawnAt), held.suppressedSince, None))
  }

  function EvaluateAbsent(pw: HalfPower, now: Time, p: PriorState, withdrawalGrace: Duration,
                          dampening: Option<DampeningConfig>): Option<Candidate>
  {
    match AbsentDamping(pw, now, p.damping, withdrawalGrace, dampening)
    case None => None
    case Some(d) => Some(p.candidate.(damping := Some(d)))
  }

  // ----- Evaluate over a whole snapshot

  function NameOf(c: Candidate): string {
    BackendObjectName(c.prefix, c.clusterID)
  }

  function Lookup<T>(m: map<string, T>, k: string): Option<T> {
    if k in m then Some(m[k]) else None
  }

  /** The names of the candidates that take part in damping: all but the rejected ones. */
  function Seen(candidates: seq<Candidate>): set<string> {
    set c | c in candidates && !c.rejected :: NameOf(c)
  }

  function DampingOf(p: Option<PriorState>): Option<Damping> {
    if p.Some? then Some(p.value.damping) else None
  }

  function Damped(pw: HalfPower, now: Time, c: Candidate, prior: map<string, PriorState>,
                  cfg: StabilityConfig): Candidate
  {
    if c.rejected then c
    else c.(damping := Some(EvaluatePresent(pw, now, DampingOf(Lookup(prior, NameOf(c))), DelayOf(cfg), cfg.dampening)))
  }

  function Presents(pw: HalfPower, now: Time, candidates: seq<Candidate>, prior: map<string, PriorState>,
                    cfg: StabilityConfig): (r: seq<Candidate>)
    ensures |r| == |candidates|
  {
    seq(|candidates|, i requires 0 <= i < |candidates| => Damped(pw, now, candidates[i], prior, cfg))
  }

  /** The held-down candidates, in the order in which the prior map happened to be walked. */
  function Absents(pw: HalfPower, now: Time, seen: set<string>, prior: map<string, PriorState>,
                   cfg: StabilityConfig, order: seq<string>): seq<Candidate>
  {
    if order == [] then [] else
      var k := order[|order| - 1];
      Absents(pw, now, seen, prior, cfg, order[..|order| - 1]) +
      if k !in prior || k in seen then []
      else
        match EvaluateAbsent(pw, now, prior[k], GraceOf(cfg), cfg.dampening)
        case None => []
        case Some(c) => [c]
  }

  function Evaluation(pw: HalfPower, now: Time, candidates: seq<Candidate>, prior: map<string, PriorState>,
                      cfg: StabilityConfig, order: seq<string>): seq<Candidate>
  {
    Presents(pw, now, candidates, prior, cfg) + Absents(pw, now, Seen(candidates), prior, cfg, order)
  }

  ghost predicate Enumerates(order: seq<string>, keys: set<string>) {
    && (forall i, j :: 0 <= i < j < |order| ==> order[i] != order[j])
    && (forall k :: k in order <==> k in keys)
  }

  method Evaluate(pw: HalfPower, now: Time, candidates: seq<Candidate>, prior: map<string, PriorState>,
                  cfg: StabilityConfig)
    returns (out: seq<Candidate>, ghost order: seq<string>)
    ensures |out| >= |candidates| && out[..|candidates|] == Presents(pw, now, candidates, prior, cfg)
    ensures Enumerates(order, prior.Keys)
    ensures out == Evaluation(pw, now, candidates, prior, cfg, order)
  {
    var seen: set<string> := {};
    out := [];
    for n := 0 to |candidates|
      invariant seen == Seen(candidates[..n])
      invariant out == Presents(pw, now, candidates[..n], prior, cfg)
    {
      var c := candidates[n];
      assert candidates[..n + 1] == candidates[..n] + [c];
      if c.rejected {
        out := out + [c];
      } else {
        var key := NameOf(c);
        seen := seen + {key};
        var p := Lookup(prior, key);
        out := out + [c.(damping := Some(EvaluatePresent(pw, now, DampingOf(p), DelayOf(cfg), cfg.dampening)))];
      }
    }
    assert candidates[..|candidates|] == candidates;

    order := [];
    var left := prior.Keys;
    while left != {}
      invariant left <= prior.Keys
      invariant Enumerates(order, prior.Keys - left)
      invariant out == Presents(pw, now, candidates, prior, cfg)
                     + Absents(pw, now, Seen(candidates), prior, cfg, order)
    {
      var key :| key in left;
      ghost var order' := order + [key];
      assert order'[..|order|] == order;
      if key !in seen {
        match EvaluateAbsent(pw, now, prior[key], GraceOf(cfg), cfg.dampening) {
          case None =>
          case Some(c) => out := out + [c];
        }
      }
      order := order';
      left := left - {key};
    }
  }

  /** Every output is a present candidate or a held-down one, and says which prior it came from. */
  lemma {:induction false} AbsentsMembers(pw: HalfPower, now: Time, seen: set<string>, prior: map<string, PriorState>,
                                          cfg: StabilityConfig, order: seq<string>, c: Candidate)
    ensures c in Absents(pw, now, seen, prior, cfg, order) <==>
            exists k :: k in order && k in prior && k !in seen
                        && EvaluateAbsent(pw, now, prior[k], GraceOf(cfg), cfg.dampening) == Some(c)
  {
    if order != [] {
      var n := |order| - 1;
      AbsentsMembers(pw, now, seen, prior, cfg, order[..n], c);
      assert order == order[..n] + [order[n]];
    }
  }

  // ----- What every verdict keeps

  /** The shape of a damping verdict at time now. */
  predicate DampingOk(d: Damping, now: Time) {
    && (d.state.Active? || d.state.Pending? || d.state.HoldDown? || d.state.Dampened?)
    && (d.state.Active? ==> d.reason == NoReason)
    && (d.state.Dampened? <==> d.suppressedSince.Some?)
    && (d.state.Pending? <==> d.pendingSince.Some?)
    && (d.state.HoldDown? ==> d.withdrawnAt.Some?)
    && (d.state.Active? || d.state.Pending? ==> d.withdrawnAt.None?)
    && 0 < d.lastObservedAt <= now
    && Within(d.withdrawnAt, d.lastObservedAt)
    && Within(d.suppressedSince, d.lastObservedAt)
    && Within(d.pendingSince, d.lastObservedAt)
    && 0.0 <= d.score
    && (d.state.Pending? ==> d.score == 0.0)
  }

  predicate Within(t: Option<Time>, bound: Time) {
    t.Some? ==> 0 < t.value <= bound
  }

  lemma DecayBounds(pw: HalfPower, prev: real, elapsed: Duration, halfLife: Duration)
    requires 0.0 <= prev
    ensures 0.0 <= DecayScore(pw, prev, elapsed, halfLife) <= prev
  {
    var f := pw(elapsed, halfLife);
    assert 0.0 <= prev * f;
    assert prev * f <= prev * 1.0 by {
      assert prev * (1.0 - f) >= 0.0;
    }
  }

  lemma PresentOk(pw: HalfPower, now: Time, prior: Option<Damping>, delay: Duration, dampening: Option<DampeningConfig>)
    requires 0 < now
    requires prior.Some? ==> DampingOk(prior.value, now)
    ensures DampingOk(EvaluatePresent(pw, now, prior, delay, dampening), now)
  {
    if prior.Some? {
      DecayBounds(pw, prior.value.score, now - prior.value.lastObservedAt, HalfLifeOf(dampening));
    }
  }

  lemma AbsentOk(pw: HalfPower, now: Time, prev: Damping, grace: Duration, dampening: Option<DampeningConfig>)
    requires 0 < now
    requires DampingOk(prev, now)
    ensures var d := AbsentDamping(pw, now, prev, grace, dampening); d.Some? ==> DampingOk(d.value, now)
  {
    DecayBounds(pw, prev.score, now - prev.lastObservedAt, HalfLifeOf(dampening));
  }
}

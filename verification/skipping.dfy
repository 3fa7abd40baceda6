/** Skipping the read of prior state is sound: needsPriorState in internal/snapshot/source.go. */
module Skipping {
  import opened Types
  import opened Text
  import opened Damper
  import opened Render
  import opened Report
  import opened Records

  /** Equal but for the score and the flap count. */
  predicate SameVerdict(c: Candidate, d: Candidate) {
    match (c.damping, d.damping)
    case (Some(x), Some(y)) => c == d.(damping := Some(y.(score := x.score, flapCount := x.flapCount)))
    case _ => c == d
  }

  ghost predicate Indistinguishable(cs: seq<Candidate>, ds: seq<Candidate>) {
    |cs| == |ds| && forall i :: 0 <= i < |cs| ==> SameVerdict(cs[i], ds[i])
  }

  /** Nothing remembered is still on hold, and nothing remembered is still settling. */
  ghost predicate NothingLingers(now: Time, candidates: seq<Candidate>, prior: map<string, PriorState>,
                                 cfg: StabilityConfig)
  {
    forall k :: k in prior ==>
      if k in Seen(candidates) then !StillSettling(now, prior[k].damping, DelayOf(cfg))
      else prior[k].damping.state.Pending? || now - OrElse(prior[k].damping.withdrawnAt, now) >= GraceOf(cfg)
  }

  lemma NoHolds(pw: HalfPower, now: Time, candidates: seq<Candidate>, prior: map<string, PriorState>,
                cfg: StabilityConfig, order: seq<string>)
    requires Enumerates(order, prior.Keys)
    ensures Absents(pw, now, Seen(candidates), prior, cfg, order) == [] <==>
            forall k :: k in prior && k !in Seen(candidates) ==>
                AbsentDamping(pw, now, prior[k].damping, GraceOf(cfg), cfg.dampening).None?
  {
    var held := Absents(pw, now, Seen(candidates), prior, cfg, order);
    if held != [] {
      AbsentsMembers(pw, now, Seen(candidates), prior, cfg, order, held[0]);
      assert held[0] in held;
    } else {
      forall k | k in prior && k !in Seen(candidates)
        ensures AbsentDamping(pw, now, prior[k].damping, GraceOf(cfg), cfg.dampening).None? {
        if AbsentDamping(pw, now, prior[k].damping, GraceOf(cfg), cfg.dampening).Some? {
          AbsentsMembers(pw, now, Seen(candidates), prior, cfg, order,
            EvaluateAbsent(pw, now, prior[k], GraceOf(cfg), cfg.dampening).value);
        }
      }
    }
  }

  /** With dampening off and no delay, a remembered candidate looks like a new one unless it is still settling. */
  lemma PresentLooksNew(pw: HalfPower, now: Time, c: Candidate, prior: map<string, PriorState>, cfg: StabilityConfig)
    requires !NeedsPriorState(cfg) && !c.rejected
    ensures SameVerdict(Damped(pw, now, c, prior, cfg), Damped(pw, now, c, map[], cfg)) <==>
            (NameOf(c) in prior ==> !StillSettling(now, prior[NameOf(c)].damping, DelayOf(cfg)))
  {
  }

  /**
   * Skipping the prior read is sound exactly when nothing lingers: for a configuration that does not
   * need prior state, evaluating with what the records remember and evaluating without it then differ
   * in scores and flap counts only.
   */
  lemma SkippingIsSoundIff(pw: HalfPower, now: Time, candidates: seq<Candidate>, prior: map<string, PriorState>,
                           cfg: StabilityConfig, order: seq<string>)
    requires !NeedsPriorState(cfg) && Enumerates(order, prior.Keys)
    ensures Indistinguishable(Evaluation(pw, now, candidates, prior, cfg, order),
            Evaluation(pw, now, candidates, map[], cfg, []))
            <==> NothingLingers(now, candidates, prior, cfg)
  {
    var read := Evaluation(pw, now, candidates, prior, cfg, order);
    var skipped := Evaluation(pw, now, candidates, map[], cfg, []);
    NoHolds(pw, now, candidates, prior, cfg, order);
    if NothingLingers(now, candidates, prior, cfg) {
      forall i | 0 <= i < |candidates| ensures SameVerdict(read[i], skipped[i]) {
        if !candidates[i].rejected {
          assert candidates[i] in candidates;
          PresentLooksNew(pw, now, candidates[i], prior, cfg);
        }
      }
    }
    if Indistinguishable(read, skipped) {
      forall k | k in prior && k in Seen(candidates) ensures !StillSettling(now, prior[k].damping, DelayOf(cfg)) {
        var c :| c in candidates && !c.rejected && NameOf(c) == k;
        var i :| 0 <= i < |candidates| && candidates[i] == c;
        assert SameVerdict(read[i], skipped[i]);
        PresentLooksNew(pw, now, c, prior, cfg);
      }
    }
  }

  predicate NotAfter(d: Damping, now: Time) {
    && d.lastObservedAt <= now
    && (d.withdrawnAt.Some? ==> d.withdrawnAt.value <= now)
    && (d.pendingSince.Some? ==> d.pendingSince.value <= now)
  }

  /** With a clock that does not go backwards nothing lingers, so the read may be skipped. */
  lemma ForwardClockMaySkip(now: Time, candidates: seq<Candidate>, prior: map<string, PriorState>, cfg: StabilityConfig)
    requires !NeedsPriorState(cfg)
    requires forall k :: k in prior ==> NotAfter(prior[k].damping, now)
    ensures NothingLingers(now, candidates, prior, cfg)
  {
  }

  /** With a clock that went backwards it may not: a withdrawal recorded one second ahead is still held down. */
  lemma BackwardClockMayNot(now: Time, c: Candidate)
    ensures var prior :=
              map[NameOf(c) := PriorState(c, Damping(HoldDown, NoReason, 0.0, 0, now, Some(now + 1), None, None))];
            !NothingLingers(now, [], prior, StabilityConfig(None, None, None))
  {
    var prior := map[NameOf(c) := PriorState(c, Damping(HoldDown, NoReason, 0.0, 0, now, Some(now + 1), None, None))];
    assert NameOf(c) in prior;
  }

  // ----- Which configurations need the read

  /** Evaluating one name's memory against a snapshot, read or not, makes a difference beyond score and count. */
  ghost predicate Matters(pw: HalfPower, now: Time, candidates: seq<Candidate>, p: PriorState, cfg: StabilityConfig) {
    var k := NameOf(p.candidate);
    !Indistinguishable(Evaluation(pw, now, candidates, map[k := p], cfg, [k]),
                       Evaluation(pw, now, candidates, map[], cfg, []))
  }

  function InService(now: Time, score: real): Damping {
    Damping(Active, NoReason, score, 0, now, None, None, None)
  }

  lemma SnapshotOfOne(pw: HalfPower, now: Time, c: Candidate, prior: map<string, PriorState>, cfg: StabilityConfig,
                      order: seq<string>)
    requires !c.rejected && forall k :: k in order ==> k == NameOf(c)
    ensures Evaluation(pw, now, [c], prior, cfg, order) == [Damped(pw, now, c, prior, cfg)]
  {
    assert c in [c];
    NothingHeld(pw, now, Seen([c]), prior, cfg, order);
  }

  lemma {:induction false} NothingHeld(pw: HalfPower, now: Time, seen: set<string>, prior: map<string, PriorState>,
                                       cfg: StabilityConfig, order: seq<string>)
    requires forall k :: k in order ==> k in seen
    ensures Absents(pw, now, seen, prior, cfg, order) == []
  {
    if order != [] {
      assert order[|order| - 1] in order;
      NothingHeld(pw, now, seen, prior, cfg, order[..|order| - 1]);
    }
  }

  /** With a grace, a name that was in service and is missing is held. */
  lemma GraceMatters(pw: HalfPower, now: Time, c: Candidate, cfg: StabilityConfig)
    requires cfg.withdrawalGrace.Some? && cfg.withdrawalGrace.value > 0
    ensures Matters(pw, now, [], PriorState(c, InService(now, 0.0)), cfg)
  {
    var k, p := NameOf(c), PriorState(c, InService(now, 0.0));
    var held := EvaluateAbsent(pw, now, p, GraceOf(cfg), cfg.dampening);
    assert held.Some?;
    assert [k][..0] == [];
    assert Absents(pw, now, Seen([]), map[k := p], cfg, [k]) == [held.value];
  }

  /** With an addition delay, a name that was in service would settle again; with dampening, it may be suppressed. */
  lemma MemoryOfPresentMatters(pw: HalfPower, now: Time, c: Candidate, cfg: StabilityConfig)
    requires !c.rejected
    requires (cfg.additionDelay.Some? && cfg.additionDelay.value > 0)
             || (cfg.dampening.Some? && cfg.dampening.value.enabled)
    ensures var score := if cfg.dampening.Some? then HighScore(cfg.dampening.value) else 0.0;
            Matters(pw, now, [c], PriorState(c, InService(now, score)), cfg)
  {
    var score := if cfg.dampening.Some? then HighScore(cfg.dampening.value) else 0.0;
    var k, p := NameOf(c), PriorState(c, InService(now, score));
    SnapshotOfOne(pw, now, c, map[k := p], cfg, [k]);
    SnapshotOfOne(pw, now, c, map[], cfg, []);
    var read, skipped := Damped(pw, now, c, map[k := p], cfg), Damped(pw, now, c, map[], cfg);
    assert read.damping.value.state != skipped.damping.value.state;
    assert !SameVerdict([read][0], [skipped][0]);
  }

  function HighScore(d: DampeningConfig): real {
    if SuppressThresholdOf(d) > 0 then SuppressThresholdOf(d) as real else 0.0
  }

  /**
   * The read is needed exactly if the configuration can make use of it: with a positive grace, a positive
   * delay or dampening on there is a memory, well-formed and observed now, that changes what becomes of a
   * snapshot; with none of them no memory does that is not from the future.
   */
  lemma ReadNeededIff(pw: HalfPower, now: Time, c: Candidate, cfg: StabilityConfig)
    requires !c.rejected && 0 < now
    ensures NeedsPriorState(cfg) <==>
            exists candidates: seq<Candidate>, d: Damping ::
              DampingOk(d, now) && Matters(pw, now, candidates, PriorState(c, d), cfg)
  {
    if NeedsPriorState(cfg) {
      if cfg.withdrawalGrace.Some? && cfg.withdrawalGrace.value > 0 {
        GraceMatters(pw, now, c, cfg);
        assert DampingOk(InService(now, 0.0), now);
      } else {
        MemoryOfPresentMatters(pw, now, c, cfg);
        var score := if cfg.dampening.Some? then HighScore(cfg.dampening.value) else 0.0;
        assert DampingOk(InService(now, score), now);
      }
    } else {
      forall candidates: seq<Candidate>, d: Damping | DampingOk(d, now)
        ensures !Matters(pw, now, candidates, PriorState(c, d), cfg)
      {
        var k := NameOf(c);
        ForwardClockMaySkip(now, candidates, map[k := PriorState(c, d)], cfg);
        SkippingIsSoundIff(pw, now, candidates, map[k := PriorState(c, d)], cfg, [k]);
      }
    }
  }

  // ----- Nobody downstream can tell

  lemma SameVerdictSameFate(parse: Parser, c: Candidate, d: Candidate, policy: Policy)
    requires SameVerdict(c, d)
    ensures Chosen(parse, c, policy.selector) == Chosen(parse, d, policy.selector)
    ensures RenderSlice(parse, policy, c) == RenderSlice(parse, policy, d)
    ensures c.prefix == d.prefix
  {
  }

  lemma {:induction false} SameSelection(parse: Parser, cs: seq<Candidate>, ds: seq<Candidate>, policy: Policy)
    requires Indistinguishable(cs, ds)
    ensures var x, y := Select(parse, cs, policy.selector), Select(parse, ds, policy.selector);
            if x.Err? || y.Err? then x == y else Indistinguishable(x.value, y.value)
  {
    if cs != [] {
      var n := |cs| - 1;
      SameSelection(parse, cs[..n], ds[..n], policy);
      SameVerdictSameFate(parse, cs[n], ds[n], policy);
    }
  }

  lemma {:induction false} SameSlices(parse: Parser, cs: seq<Candidate>, ds: seq<Candidate>, policy: Policy)
    requires Indistinguishable(cs, ds)
    ensures RenderSlices(parse, policy, cs) == RenderSlices(parse, policy, ds)
  {
    if cs != [] {
      var n := |cs| - 1;
      SameSlices(parse, cs[..n], ds[..n], policy);
      SameVerdictSameFate(parse, cs[n], ds[n], policy);
    }
  }

  /** Render cannot tell: it produces the same EndpointSlices, or the same error. */
  lemma RenderCannotTell(parse: Parser, cs: seq<Candidate>, ds: seq<Candidate>, policy: Policy)
    requires Indistinguishable(cs, ds)
    ensures RenderPolicy(parse, policy, cs) == RenderPolicy(parse, policy, ds)
  {
    SameSelection(parse, cs, ds, policy);
    var x, y := Select(parse, cs, policy.selector), Select(parse, ds, policy.selector);
    if x.Ok? && y.Ok? {
      SameSlices(parse, x.value, y.value, policy);
    }
  }

  lemma {:induction false} SameBindings(parse: Parser, c: Candidate, d: Candidate, policies: seq<Policy>)
    requires SameVerdict(c, d)
    ensures BindingPolicies(parse, c, policies) == BindingPolicies(parse, d, policies)
  {
    if policies != [] {
      var n := |policies| - 1;
      SameBindings(parse, c, d, policies[..n]);
      SameVerdictSameFate(parse, c, d, policies[n]);
    }
  }

  /** The records cannot tell either: they differ in penalty and flap count, which statusChanged ignores. */
  lemma RecordsCannotTell(parse: Parser, c: Candidate, d: Candidate, policies: seq<Policy>)
    requires SameVerdict(c, d)
    ensures NameOf(c) == NameOf(d)
    ensures var s, u := BuildStatus(parse, c, policies), BuildStatus(parse, d, policies);
            && !StatusChanged(s, u)
            && s ==
               u.(stability :=
                   u.stability.(flapCount24h := s.stability.flapCount24h,
                     dampeningPenalty := s.stability.dampeningPenalty))
  {
    SameBindings(parse, c, d, policies);
    var bound := BindingPolicies(parse, c, policies);
    assert Mapped(ResourceKeyFor(c), bound) == Mapped(ResourceKeyFor(d), bound);
    SameStatus(c, d, BoundPolicies(parse, c, policies), GeneratedResources(parse, c, policies));
  }

  lemma SameStatus(c: Candidate, d: Candidate, bound: seq<string>, generated: seq<string>)
    requires SameVerdict(c, d)
    ensures var s, u := StatusWith(c, bound, generated), StatusWith(d, bound, generated);
            && !StatusChanged(s, u)
            && s ==
               u.(stability :=
                   u.stability.(flapCount24h := s.stability.flapCount24h,
                     dampeningPenalty := s.stability.dampeningPenalty))
  {
  }
}

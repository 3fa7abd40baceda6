/**
 * Runs of the damping loop over the record store. Every name of every run follows a path of the
 * machine in paths.dfy, so what is proved there holds of the records; the corollaries here say so in
 * the records' own fields.
 */
module Runs {
  import opened Types
  import opened Names
  import opened Damper
  import opened Records
  import opened Views
  import opened Paths

  /**
   * A history of stores, one more than the sweeps between them. It starts without labelled records;
   * foreign objects of the kind may be there.
   */
  ghost predicate IsRun(env: Env, h: seq<Store>, ticks: seq<Tick>) {
    && |h| == |ticks| + 1
    && (forall k :: k in h[0] ==> !Managed(h[0][k]))
    && (forall i :: 0 <= i < |ticks| ==> Feasible(h[i], ticks[i]) && h[i + 1] == Sweep(env, h[i], ticks[i]))
    && (forall i :: 0 < i < |ticks| ==> ticks[i - 1].at <= ticks[i].now)
  }

  lemma StoreOkLater(store: Store, now: Time, later: Time)
    requires StoreOk(store, now) && now <= later
    ensures StoreOk(store, later)
  {
  }

  /**
   * Run invariant: in every store of every run, each labelled record has the shape RecordOk. Dampened
   * means suppressed since some sweep, Pending means settling since some sweep, HoldDown means
   * withdrawn at some sweep, and no Active, Draining or Pending record is withdrawn; no timestamp lies
   * after the last observation, nor that one after now; the penalty is a non-negative int32.
   */
  lemma {:induction false} RunInvariant(env: Env, h: seq<Store>, ticks: seq<Tick>, i: nat, now: Time)
    requires IsRun(env, h, ticks) && i <= |ticks|
    requires i == 0 || ticks[i - 1].at <= now
    ensures StoreOk(h[i], now)
  {
    if i > 0 {
      var t := ticks[i - 1];
      assert Feasible(h[i - 1], t);
      RunInvariant(env, h, ticks, i - 1, t.now);
      SweepKeepsRecordsOk(env, h[i - 1], t);
      StoreOkLater(h[i], t.at, now);
    }
  }

  /** Sweeps create only labelled records and never change labels, so a name stays owned. */
  lemma {:induction false} OwnedForever(env: Env, h: seq<Store>, ticks: seq<Tick>, i: nat, k: string)
    requires IsRun(env, h, ticks) && i <= |ticks|
    requires k !in h[0]
    ensures !Foreign(h[i], k)
  {
    if i > 0 {
      OwnedForever(env, h, ticks, i - 1, k);
      SweepKeepsOwned(env, h[i - 1], ticks[i - 1], k);
    }
  }

  /** What is remembered under one name, store by store. */
  ghost function MemoriesOf(h: seq<Store>, k: string): (vs: Memories)
    ensures |vs| == |h|
    ensures forall i :: 0 <= i < |h| ==> vs[i] == View(h[i], k)
  {
    seq(|h|, i requires 0 <= i < |h| => View(h[i], k))
  }

  lemma RunMoves(env: Env, h: seq<Store>, ticks: seq<Tick>, i: nat, k: string, owned: bool)
    requires IsRun(env, h, ticks) && i < |ticks|
    requires owned ==> k !in h[0]
    ensures Move(env, ticks[i], k, owned, View(h[i], k), View(h[i + 1], k))
  {
    var t := ticks[i];
    assert Feasible(h[i], t);
    RunInvariant(env, h, ticks, i, t.now);
    SweepMovesView(env, h[i], t, k);
    if View(h[i], k).Some? {
      ViewOk(h[i], k, t.now);
    }
    if owned && Complete(t) {
      OwnedForever(env, h, ticks, i, k);
      CompleteSweepStepsView(env, h[i], t, k);
    }
  }

  /** Refinement: whatever the snapshots and wherever sweeps stop, each name of a run follows a path. */
  lemma RunIsPath(env: Env, h: seq<Store>, ticks: seq<Tick>, k: string, owned: bool)
    requires IsRun(env, h, ticks)
    requires owned ==> k !in h[0]
    ensures IsPath(env, ticks, k, owned, MemoriesOf(h, k))
  {
    forall i | 0 <= i < |ticks| ensures Move(env, ticks[i], k, owned, View(h[i], k), View(h[i + 1], k)) {
      RunMoves(env, h, ticks, i, k, owned);
    }
    forall i | 0 < i < |ticks| ensures ticks[i - 1].now <= ticks[i].now {
      assert Feasible(h[i - 1], ticks[i - 1]);
    }
  }

  // ----- In the records' own fields

  /** What is remembered is what the record says, Draining counting as Active. */
  lemma RecordSays(store: Store, k: string, now: Time)
    requires StoreOk(store, now) && k in store && Managed(store[k])
    ensures var s, v := store[k].status, View(store, k);
            && (v.Some? <==> s.stability.lastObservedAt.Some?)
            && (v.None? <==> s.state.Rejected? || s.state.Unset?)
            && (v.Some? ==>
                 && v.value.state == (if s.state.Draining? then Active else s.state)
                 && s.stability.lastObservedAt == Some(v.value.lastObservedAt)
                 && v.value.reason == s.reason
                 && s.stability.withdrawnAt == v.value.withdrawnAt
                 && s.stability.suppressedSince == v.value.suppressedSince
                 && s.stability.pendingSince == v.value.pendingSince
                 && s.stability.flapCount24h == v.value.flapCount)
            && s.stability.dampeningPenalty == Penalty(v)
  {
  }

  predicate HasState(store: Store, k: string, state: State) {
    k in store && Managed(store[k]) && store[k].status.state == state
  }

  lemma DampenedRecord(store: Store, k: string, now: Time)
    requires StoreOk(store, now)
    ensures HasState(store, k, Dampened) <==> IsDampened(View(store, k))
  {
  }

  lemma RunRecordSays(env: Env, h: seq<Store>, ticks: seq<Tick>, i: nat, k: string)
    requires IsRun(env, h, ticks) && i <= |ticks|
    ensures HasState(h[i], k, Dampened) <==> IsDampened(MemoriesOf(h, k)[i])
    ensures k in h[i] && Managed(h[i][k]) ==>
              var s, v := h[i][k].status, MemoriesOf(h, k)[i];
              && s.stability.dampeningPenalty == Penalty(v)
              && (v.None? <==> s.state.Rejected? || s.state.Unset?)
              && (v.Some? ==> s.stability.suppressedSince == v.value.suppressedSince)
  {
    var now := if i == 0 then 0 else ticks[i - 1].at;
    RunInvariant(env, h, ticks, i, now);
    DampenedRecord(h[i], k, now);
    if k in h[i] && Managed(h[i][k]) {
      RecordSays(h[i], k, now);
    }
  }

  /** The flaps observed under a name from sweep a up to, but not including, sweep b. */
  ghost function ObservedFlaps(h: seq<Store>, ticks: seq<Tick>, k: string, a: nat, b: nat): nat
    requires a <= b <= |ticks| && |h| == |ticks| + 1
  {
    FlapCount(ticks, k, MemoriesOf(h, k), a, b)
  }

  /** The penalty stored under a name; a name without a labelled record has none. */
  function StoredPenalty(store: Store, k: string): int {
    if k in store && Managed(store[k]) then store[k].status.stability.dampeningPenalty else 0
  }

  lemma StoredIsRemembered(env: Env, h: seq<Store>, ticks: seq<Tick>, i: nat, k: string)
    requires IsRun(env, h, ticks) && i <= |ticks|
    ensures StoredPenalty(h[i], k) == Penalty(MemoriesOf(h, k)[i])
  {
    RunRecordSays(env, h, ticks, i, k);
  }

  /**
   * No run suppresses a name before ceil(suppressThreshold / 1000) flaps since it had no record, or one
   * whose penalty was 0.
   */
  lemma FreshRecordNeedsFlaps(env: Env, h: seq<Store>, ticks: seq<Tick>, k: string, a: nat, i: nat)
    requires IsRun(env, h, ticks) && a <= i < |ticks|
    requires StoredPenalty(h[a], k) == 0
    requires !HasState(h[i], k, Dampened) && HasState(h[i + 1], k, Dampened)
    ensures Enabled(ticks[i].cfg.dampening)
    ensures SuppressThresholdOf(ticks[i].cfg.dampening.value) <= 1000 * ObservedFlaps(h, ticks, k, a, i + 1)
  {
    RunIsPath(env, h, ticks, k, false);
    StoredIsRemembered(env, h, ticks, a, k);
    RunRecordSays(env, h, ticks, i, k);
    RunRecordSays(env, h, ticks, i + 1, k);
    MinimumFlapsFromFresh(env, ticks, k, false, MemoriesOf(h, k), a, i);
  }

  /** Between any two stores of a run the stored penalty grows by at most 1000 per flap. */
  lemma PenaltyNeedsFlaps(env: Env, h: seq<Store>, ticks: seq<Tick>, k: string, a: nat, b: nat)
    requires IsRun(env, h, ticks) && a <= b <= |ticks|
    ensures StoredPenalty(h[b], k) <= StoredPenalty(h[a], k) + 1000 * ObservedFlaps(h, ticks, k, a, b)
  {
    RunIsPath(env, h, ticks, k, false);
    StoredIsRemembered(env, h, ticks, a, k);
    StoredIsRemembered(env, h, ticks, b, k);
    PenaltyBoundedByFlaps(env, ticks, k, false, MemoriesOf(h, k), a, b);
  }

  /**
   * From a release by decay or by the cap to the next suppression, a run observes at least
   * ceil((suppressThreshold - r) / 1000) flaps, r being the reuse threshold at the release and 0
   * after a cap.
   */
  lemma RecordNeedsFlapsAgain(env: Env, h: seq<Store>, ticks: seq<Tick>, k: string, r: nat, i: nat)
    requires IsRun(env, h, ticks) && r < i < |ticks| && Enabled(ticks[r].cfg.dampening)
    requires HasState(h[r], k, Dampened)
    requires HasState(h[r + 1], k, Active) || HasState(h[r + 1], k, Draining) || HasState(h[r + 1], k, HoldDown)
    requires !HasState(h[i], k, Dampened) && HasState(h[i + 1], k, Dampened)
    ensures Enabled(ticks[i].cfg.dampening)
    ensures var capped := Capped(ticks[r].now, h[r][k].status.stability.suppressedSince, ticks[r].cfg.dampening);
            var left := if capped then 0 else ReuseThresholdOf(ticks[r].cfg.dampening.value);
            SuppressThresholdOf(ticks[i].cfg.dampening.value) - left <= 1000 * ObservedFlaps(h, ticks, k, r + 1, i + 1)
  {
    RunIsPath(env, h, ticks, k, false);
    RunRecordSays(env, h, ticks, r, k);
    RunRecordSays(env, h, ticks, r + 1, k);
    RunRecordSays(env, h, ticks, i, k);
    RunRecordSays(env, h, ticks, i + 1, k);
    MinimumFlapsBetweenSuppressions(env, ticks, k, false, MemoriesOf(h, k), r, i);
  }

  /** The suppressedSince of a record is the sweep that began its unbroken stretch of Dampened. */
  lemma RecordSuppressedSince(env: Env, h: seq<Store>, ticks: seq<Tick>, k: string, a: nat, b: nat)
    requires IsRun(env, h, ticks) && 0 < a <= b <= |ticks|
    requires !HasState(h[a - 1], k, Dampened)
    requires forall i :: a <= i <= b ==> HasState(h[i], k, Dampened)
    ensures HasState(h[b], k, Dampened) && h[b][k].status.stability.suppressedSince == Some(ticks[a - 1].now)
  {
    RunIsPath(env, h, ticks, k, false);
    RunRecordSays(env, h, ticks, a - 1, k);
    forall i | a <= i <= b ensures IsDampened(MemoriesOf(h, k)[i]) {
      RunRecordSays(env, h, ticks, i, k);
    }
    SuppressedSinceStartOfStretch(env, ticks, k, false, MemoriesOf(h, k), a, b);
    RunRecordSays(env, h, ticks, b, k);
  }

  /** The stored penalty stays within 1/(2(1-f)) of the score that would never have been rounded. */
  lemma RecordNearUnrounded(env: Env, h: seq<Store>, ticks: seq<Tick>, k: string, a: nat, b: nat, f: real)
    requires IsRun(env, h, ticks) && a <= b <= |ticks| && 0.0 <= f < 1.0
    requires forall i :: a <= i < b ==> Counts(env, ticks[i], MemoriesOf(h, k)[i], MemoriesOf(h, k)[i + 1], f)
    ensures Near(StoredPenalty(h[b], k) as real, Unrounded(env, ticks, k, MemoriesOf(h, k), a, b), ErrorBound(f))
  {
    RunIsPath(env, h, ticks, k, false);
    StoredIsRemembered(env, h, ticks, b, k);
    RoundingBound(env, ticks, k, false, MemoriesOf(h, k), a, b, f);
  }

  /** Every record of every run that says Dampened has been so, when last observed, for less than the cap. */
  lemma NoRecordOutlivesCap(env: Env, h: seq<Store>, ticks: seq<Tick>, k: string, i: nat, cap: Duration)
    requires IsRun(env, h, ticks) && i <= |ticks| && CappedBy(ticks, cap)
    requires HasState(h[i], k, Dampened)
    ensures var s := h[i][k].status.stability;
            && s.lastObservedAt.Some? && s.suppressedSince.Some?
            && s.lastObservedAt.value - s.suppressedSince.value < cap
  {
    RunIsPath(env, h, ticks, k, false);
    RunRecordSays(env, h, ticks, i, k);
    var now := if i == 0 then 0 else ticks[i - 1].at;
    RunInvariant(env, h, ticks, i, now);
    RecordSays(h[i], k, now);
    SuppressionCap(env, ticks, k, false, MemoriesOf(h, k), i, cap);
  }

  /** A record of a name that was there when last observed, suppressed or not, and past settling. */
  predicate WasPresent(store: Store, k: string) {
    && (HasState(store, k, Active) || HasState(store, k, Draining) || HasState(store, k, Dampened))
    && store[k].status.stability.withdrawnAt.None?
  }

  /**
   * The record of a name missing since sweep a is there to be served from, or suppressed, within the
   * grace and no longer.
   */
  lemma RecordHeldExactly(env: Env, h: seq<Store>, ticks: seq<Tick>, k: string, a: nat, b: nat, grace: Duration)
    requires IsRun(env, h, ticks) && a <= b < |ticks|
    requires WasPresent(h[a], k)
    requires k !in h[0] && AbsentThroughout(ticks, k, a, b + 1, grace)
    ensures HasState(h[b + 1], k, HoldDown) || HasState(h[b + 1], k, Dampened) <==>
            ticks[b].now - ticks[a].now < grace
    ensures ticks[b].now - ticks[a].now < grace ==>
              h[b + 1][k].status.stability.withdrawnAt == Some(ticks[a].now)
    ensures ticks[b].now - ticks[a].now >= grace ==>
              k !in h[b + 1] || HasState(h[b + 1], k, Rejected) || HasState(h[b + 1], k, Unset)
  {
    MemoryHeldExactly(env, h, ticks, k, a, b, grace);
    RunInvariant(env, h, ticks, b + 1, ticks[b].at);
    OwnedForever(env, h, ticks, b + 1, k);
    HeldRecord(h[b + 1], k, ticks[b].at, MemoriesOf(h, k)[b + 1]);
  }

  lemma MemoryHeldExactly(env: Env, h: seq<Store>, ticks: seq<Tick>, k: string, a: nat, b: nat, grace: Duration)
    requires IsRun(env, h, ticks) && a <= b < |ticks|
    requires WasPresent(h[a], k)
    requires k !in h[0] && AbsentThroughout(ticks, k, a, b + 1, grace)
    ensures var v := MemoriesOf(h, k)[b + 1];
            && (v.Some? <==> ticks[b].now - ticks[a].now < grace)
            && (v.Some? ==>
                 && v.value.withdrawnAt == Some(ticks[a].now)
                 && (v.value.state.HoldDown? || v.value.state.Dampened?))
  {
    RunIsPath(env, h, ticks, k, true);
    RunInvariant(env, h, ticks, a, ticks[a].now);
    PresentMemory(h[a], k, ticks[a].now);
    ExactHoldDown(env, ticks, k, MemoriesOf(h, k), a, b, grace);
  }

  lemma PresentMemory(store: Store, k: string, now: Time)
    requires StoreOk(store, now) && WasPresent(store, k)
    ensures var v := View(store, k); v.Some? && !v.value.state.Pending? && v.value.withdrawnAt.None?
  {
    RecordSays(store, k, now);
  }

  lemma HeldRecord(store: Store, k: string, now: Time, v: Option<Damping>)
    requires StoreOk(store, now) && !Foreign(store, k) && v == View(store, k)
    requires v.Some? ==> v.value.state.HoldDown? || v.value.state.Dampened?
    ensures v.Some? <==> HasState(store, k, HoldDown) || HasState(store, k, Dampened)
    ensures v.Some? ==> store[k].status.stability.withdrawnAt == v.value.withdrawnAt
    ensures v.None? ==> k !in store || HasState(store, k, Rejected) || HasState(store, k, Unset)
  {
  }

  /** Nothing is remembered under the name: no labelled record, or one that Damp has not seen. */
  predicate Forgotten(store: Store, k: string) {
    !(k in store && Managed(store[k])) || HasState(store, k, Rejected) || HasState(store, k, Unset)
  }

  /** The record of a name that was first seen at this instant. */
  predicate FreshRecord(store: Store, k: string, now: Time, delay: Duration) {
    && k in store && Managed(store[k])
    && store[k].status.reason == (if delay > 0 then Settling(delay) else NoReason)
    && store[k].status.stability == Stability(0, 0, Some(now), None, None, if delay > 0 then Some(now) else None)
    && (if delay > 0 then HasState(store, k, Pending) else HasState(store, k, Active) || HasState(store, k, Draining))
  }

  lemma FreshRecordSays(store: Store, k: string, now: Time, delay: Duration, later: Time)
    requires StoreOk(store, later) && View(store, k) == Some(NewCandidateDamping(now, delay))
    ensures FreshRecord(store, k, now, delay)
  {
    RecordSays(store, k, later);
  }

  lemma ForgottenHasNoView(store: Store, k: string, now: Time)
    requires StoreOk(store, now)
    ensures Forgotten(store, k) <==> View(store, k).None?
  {
  }

  /** A sweep of a run that completes takes the memory under an owned name one step. */
  lemma RunSteps(env: Env, h: seq<Store>, ticks: seq<Tick>, i: nat, k: string)
    requires IsRun(env, h, ticks) && i < |ticks| && k !in h[0] && Complete(ticks[i])
    ensures StoreOk(h[i], ticks[i].now) && StoreOk(h[i + 1], ticks[i].at)
    ensures View(h[i + 1], k) == Step(env, ticks[i], k, View(h[i], k))
    ensures MemoryOk(View(h[i], k), ticks[i].now)
  {
    assert Feasible(h[i], ticks[i]);
    RunInvariant(env, h, ticks, i, ticks[i].now);
    RunInvariant(env, h, ticks, i + 1, ticks[i].at);
    RunMoves(env, h, ticks, i, k, true);
  }

  /**
   * Once forgotten, or under a configuration that reads no memory, a name starts over: the sweep in
   * which it next appears leaves a record without
   * penalty, flaps, withdrawal or suppression, settling since that sweep if there is an addition delay
   * and in service otherwise.
   */
  lemma ReappearsFresh(env: Env, h: seq<Store>, ticks: seq<Tick>, k: string, i: nat)
    requires IsRun(env, h, ticks) && i < |ticks| && k !in h[0]
    requires Complete(ticks[i]) && k in Seen(ticks[i].candidates)
    requires Forgotten(h[i], k) || !NeedsPriorState(ticks[i].cfg)
    ensures FreshRecord(h[i + 1], k, ticks[i].now, OrElse(ticks[i].cfg.additionDelay, 0))
  {
    RunSteps(env, h, ticks, i, k);
    ForgottenHasNoView(h[i], k, ticks[i].now);
    ForgottenStartsFresh(env, ticks[i], k);
    assert Step(env, ticks[i], k, View(h[i], k)) == Step(env, ticks[i], k, None);
    FreshRecordSays(h[i + 1], k, ticks[i].now, DelayOf(ticks[i].cfg), ticks[i].at);
  }

  /** In particular after its grace has run out: the return costs nothing and remembers nothing. */
  lemma ReturnsFreshAfterGrace(env: Env, h: seq<Store>, ticks: seq<Tick>, k: string, a: nat, b: nat, grace: Duration)
    requires IsRun(env, h, ticks) && a <= b && b + 1 < |ticks| && k !in h[0]
    requires WasPresent(h[a], k) && AbsentThroughout(ticks, k, a, b + 1, grace)
    requires ticks[b].now - ticks[a].now >= grace
    requires Complete(ticks[b + 1]) && k in Seen(ticks[b + 1].candidates)
    ensures FreshRecord(h[b + 2], k, ticks[b + 1].now, OrElse(ticks[b + 1].cfg.additionDelay, 0))
  {
    RecordHeldExactly(env, h, ticks, k, a, b, grace);
    ReappearsFresh(env, h, ticks, k, b + 1);
  }

  /** Without a positive grace in any sweep, no record of the run shows a trace of dampening. */
  lemma NoGraceNoTrace(env: Env, h: seq<Store>, ticks: seq<Tick>, k: string, i: nat)
    requires IsRun(env, h, ticks) && i <= |ticks|
    requires forall j :: 0 <= j < |ticks| ==> GraceOf(ticks[j].cfg) <= 0
    requires forall j :: 0 <= j < |ticks| && Enabled(ticks[j].cfg.dampening) ==>
               SuppressThresholdOf(ticks[j].cfg.dampening.value) > 0
    requires k in h[i] && Managed(h[i][k])
    ensures var s := h[i][k].status;
            && !s.state.Dampened? && !s.state.HoldDown?
            && s.stability.withdrawnAt.None? && s.stability.suppressedSince.None?
            && s.stability.dampeningPenalty == 0 && s.stability.flapCount24h == 0
  {
    RunIsPath(env, h, ticks, k, false);
    NoGraceNoDampening(env, ticks, k, false, MemoriesOf(h, k), i);
    var now := if i == 0 then 0 else ticks[i - 1].at;
    RunInvariant(env, h, ticks, i, now);
    RecordSays(h[i], k, now);
  }

  // ----- What a sweep outputs

  /** Whether a sweep holds down a missing name: it is remembered, past settling, and within its grace. */
  predicate HeldBy(t: Tick, v: Option<Damping>) {
    && NeedsPriorState(t.cfg)
    && v.Some? && !v.value.state.Pending?
    && t.now - OrElse(v.value.withdrawnAt, t.now) < GraceOf(t.cfg)
  }

  lemma StepExactly(env: Env, t: Tick, k: string, v: Option<Damping>)
    ensures Step(env, t, k, v).Some? <==> k in Seen(t.candidates) || HeldBy(t, v)
  {
  }

  /** A name is output unrejected exactly when the snapshot has it unrejected or the sweep holds it down. */
  lemma OutputsExactly(env: Env, h: seq<Store>, ticks: seq<Tick>, i: nat, k: string)
    requires IsRun(env, h, ticks) && i < |ticks|
    ensures (exists c :: c in Settled(env, h[i], ticks[i]) && !c.rejected && NameOf(c) == k) <==>
            (exists c :: c in ticks[i].candidates && !c.rejected && NameOf(c) == k) || HeldBy(ticks[i], View(h[i], k))
  {
    var t := ticks[i];
    assert Feasible(h[i], t);
    RunInvariant(env, h, ticks, i, t.now);
    StepExactly(env, t, k, View(h[i], k));
    if Step(env, t, k, View(h[i], k)).Some? {
      OutputFor(env, h[i], t, k);
    }
    if c :| c in Settled(env, h[i], t) && !c.rejected && NameOf(c) == k {
      SettledAt(env, h[i], t, c);
    }
  }

  lemma OutputFor(env: Env, store: Store, t: Tick, k: string)
    requires Feasible(store, t) && StoreOk(store, t.now)
    requires Step(env, t, k, View(store, k)).Some?
    ensures exists c :: c in Settled(env, store, t) && !c.rejected && NameOf(c) == k
  {
    var settled := Settled(env, store, t);
    var n: nat;
    if k in Seen(t.candidates) {
      var raw :| raw in t.candidates && !raw.rejected && NameOf(raw) == k;
      n :| 0 <= n < |t.candidates| && t.candidates[n] == raw;
      PresentAt(env, store, t, n);
      assert settled[n] == Damped(env.halfPower, t.now, raw, PriorFor(store, t.cfg), t.cfg);
    } else {
      n := HeldDown(env, store, t, k);
      AbsentAt(env, store, t, settled[n]);
    }
    assert settled[n] in settled;
  }

  /** Snapshots over distinct IPv4 prefixes never repeat a name. */
  lemma DistinctPrefixesDistinctNames(candidates: seq<Candidate>)
    requires forall i :: 0 <= i < |candidates| ==> IsIpv4Cidr(candidates[i].prefix)
    requires forall i, j :: 0 <= i < j < |candidates| ==> candidates[i].prefix != candidates[j].prefix
    ensures DistinctNames(candidates)
  {
    forall i, j | 0 <= i < j < |candidates| ensures NameOf(candidates[i]) != NameOf(candidates[j]) {
      BackendObjectNameInjective(candidates[i].prefix, candidates[i].clusterID, candidates[j].prefix,
        candidates[j].clusterID);
    }
  }
}

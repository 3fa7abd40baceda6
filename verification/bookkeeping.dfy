/** What sweeps do to the records' own bookkeeping: firstSeen, lastChange, labels and membership. */
module Bookkeeping {
  import opened Types
  import opened Damper
  import opened Report
  import opened Records
  import opened Views
  import opened Runs

  // ----- Timestamps

  predicate TimesOk(s: Status, now: Time) {
    && (s.lastChange.Some? ==> s.lastChange.value <= now)
    && (s.firstSeen.Some? ==> s.lastChange.Some? && s.firstSeen.value <= s.lastChange.value)
  }

  /** Applying any number of records under a name keeps its firstSeen, or sets it if there was no record. */
  lemma {:induction false} TouchedTimes(current: Option<Object>, desired: seq<Backend>, k: string, at: Time)
    requires current.Some? ==> TimesOk(current.value.status, at)
    ensures var o := Touched(current, desired, k, at);
            && (current.Some? ==> o.Some?)
            && (o.Some? ==> TimesOk(o.value.status, at))
            && (o.Some? ==>
                 o.value.status.firstSeen == if current.Some? then current.value.status.firstSeen else Some(at))
  {
    if desired != [] {
      TouchedTimes(current, desired[..|desired| - 1], k, at);
    }
  }

  /**
   * Across one sweep, wherever it stops, a surviving record keeps its firstSeen; a new one is first
   * seen now, unless the sweep stopped between creating it and writing its status.
   */
  lemma SweepKeepsFirstSeen(env: Env, store: Store, t: Tick, k: string)
    requires k in store ==> TimesOk(store[k].status, t.at)
    requires k in Sweep(env, store, t)
    ensures var s := Sweep(env, store, t)[k].status;
            && TimesOk(s, t.at)
            && (k in store ==> s.firstSeen == store[k].status.firstSeen)
            && (k !in store ==> s.firstSeen == Some(t.at) || s == EMPTY_STATUS)
  {
    var desired := Desired(env, store, t);
    var n := if t.fault.ApplyStops? && t.fault.done < |desired| then t.fault.done else |desired|;
    assert desired[..|desired|] == desired;
    ApplyAllAt(store, desired[..n], t.at, k);
    TouchedTimes(Lookup(store, k), desired[..n], k, t.at);
  }

  /** The bookkeeping of every record in every run is in order. */
  lemma {:induction false} RunKeepsTimes(env: Env, h: seq<Store>, ticks: seq<Tick>, i: nat, k: string, now: Time)
    requires IsRun(env, h, ticks) && i <= |ticks| && k !in h[0]
    requires i == 0 || ticks[i - 1].at <= now
    requires k in h[i]
    ensures TimesOk(h[i][k].status, now)
  {
    if i > 0 {
      var t := ticks[i - 1];
      assert Feasible(h[i - 1], t) && h[i] == Sweep(env, h[i - 1], t);
      if k in h[i - 1] {
        RunKeepsTimes(env, h, ticks, i - 1, k, t.now);
      }
      SweepKeepsFirstSeen(env, h[i - 1], t, k);
    }
  }

  /** firstSeen never changes while a record lives. */
  lemma {:induction false} FirstSeenIsFixed(env: Env, h: seq<Store>, ticks: seq<Tick>, k: string, a: nat, b: nat)
    requires IsRun(env, h, ticks) && a <= b <= |ticks| && k !in h[0]
    requires forall i :: a <= i <= b ==> k in h[i]
    ensures k in h[a] && k in h[b] && h[b][k].status.firstSeen == h[a][k].status.firstSeen
  {
    if a < b {
      FirstSeenIsFixed(env, h, ticks, k, a, b - 1);
      var t := ticks[b - 1];
      assert Feasible(h[b - 1], t) && h[b] == Sweep(env, h[b - 1], t);
      RunKeepsTimes(env, h, ticks, b - 1, k, t.now);
      SweepKeepsFirstSeen(env, h[b - 1], t, k);
    }
  }

  /** The sweep stopped between creating the record of this name and writing its status. */
  ghost predicate LeftBare(desired: seq<Backend>, fault: Fault, k: string) {
    && fault.ApplyStops? && fault.bare && fault.done < |desired|
    && desired[fault.done].name == k && k !in NamesOf(desired[..fault.done])
  }

  /** A new record has no firstSeen exactly if its sweep stopped between creating it and writing its status. */
  lemma NewRecordBareIff(store: Store, desired: seq<Backend>, at: Time, fault: Fault, k: string)
    requires k !in store && k in Write(store, desired, at, fault)
    ensures var firstSeen := Write(store, desired, at, fault)[k].status.firstSeen;
            && (firstSeen.None? <==> LeftBare(desired, fault, k))
            && (firstSeen.Some? ==> firstSeen == Some(at))
  {
    var n := if fault.ApplyStops? && fault.done < |desired| then fault.done else |desired|;
    assert desired[..|desired|] == desired;
    ApplyAllAt(store, desired[..n], at, k);
    TouchedTimes(None, desired[..n], k, at);
    var i := TouchedLast(None, desired[..n], k, at);
    if i >= 0 {
      assert desired[..n][i] in desired[..n];
    }
  }

  /**
   * A record that its creating sweep left bare is never given a firstSeen: later sweeps find a record
   * and copy the empty field. So a record has a firstSeen, the time of its creation, exactly if the
   * sweep that created it did not stop between the creation and the status write.
   */
  lemma FirstSeenSetIffCreatedWhole(env: Env, h: seq<Store>, ticks: seq<Tick>, k: string, a: nat, b: nat)
    requires IsRun(env, h, ticks) && a < b <= |ticks| && k !in h[0]
    requires k !in h[a] && forall i :: a < i <= b ==> k in h[i]
    ensures k in h[b]
    ensures h[b][k].status.firstSeen
         == if LeftBare(Desired(env, h[a], ticks[a]), ticks[a].fault, k) then None else Some(ticks[a].at)
  {
    FirstSeenIsFixed(env, h, ticks, k, a + 1, b);
    assert h[a + 1] == Sweep(env, h[a], ticks[a]);
    NewRecordBareIff(h[a], Desired(env, h[a], ticks[a]), ticks[a].at, ticks[a].fault, k);
  }

  // ----- lastChange

  /** How often a name is written in one sweep. */
  function Mentions(desired: seq<Backend>, k: string): nat {
    if desired == [] then 0
    else Mentions(desired[..|desired| - 1], k) + if desired[|desired| - 1].name == k then 1 else 0
  }

  lemma {:induction false} MentionsZero(desired: seq<Backend>, k: string)
    ensures Mentions(desired, k) == 0 <==> k !in NamesOf(desired)
  {
    if desired != [] {
      var n := |desired| - 1;
      MentionsZero(desired[..n], k);
      assert desired == desired[..n] + [desired[n]];
      assert desired[n] in desired;
    }
  }

  lemma {:induction false} UntouchedUnmentioned(current: Option<Object>, desired: seq<Backend>, k: string, at: Time)
    requires Mentions(desired, k) == 0
    ensures Touched(current, desired, k, at) == current
  {
    if desired != [] {
      UntouchedUnmentioned(current, desired[..|desired| - 1], k, at);
    }
  }

  /** A name written once is applied to what was there before the sweep. */
  lemma {:induction false} TouchedOnce(current: Option<Object>, desired: seq<Backend>, k: string, at: Time, i: nat)
    requires i < |desired| && desired[i].name == k && Mentions(desired, k) == 1
    ensures Touched(current, desired, k, at) == Some(Applied(current, desired[i], at))
  {
    var n := |desired| - 1;
    if i == n {
      UntouchedUnmentioned(current, desired[..n], k, at);
    } else {
      MentionedAt(desired[..n], k, i);
      TouchedOnce(current, desired[..n], k, at, i);
    }
  }

  lemma {:induction false} MentionedAt(desired: seq<Backend>, k: string, i: nat)
    requires i < |desired| && desired[i].name == k
    ensures Mentions(desired, k) >= 1
  {
    if i < |desired| - 1 {
      MentionedAt(desired[..|desired| - 1], k, i);
    }
  }

  /**
   * Two statuses that differ in nothing but what drifts from sweep to sweep: the observation time, the
   * penalty and the flap count, the two managed timestamps, and the reason of a held-down or suppressed
   * record.
   */
  predicate OnlyDrifts(s: Status, u: Status) {
    && s.prefix == u.prefix && s.clusterID == u.clusterID && s.peer == u.peer && s.locality == u.locality
    && s.attributes == u.attributes && s.state == u.state
    && (s.reason == u.reason || s.state in {HoldDown, Dampened})
    && s.stability.withdrawnAt == u.stability.withdrawnAt
    && s.stability.suppressedSince == u.stability.suppressedSince
    && s.stability.pendingSince == u.stability.pendingSince
    && s.boundPolicies == u.boundPolicies && s.generatedResources == u.generatedResources
  }

  lemma DriftIsNoChange(s: Status, u: Status)
    ensures OnlyDrifts(s, u) <==> !StatusChanged(s, u)
  {
  }

  lemma SameCondition(s: Status, d: Status)
    requires SameReport(s, d)
    ensures Condition(s) == Condition(d)
  {
  }

  lemma WrittenOnce(store: Store, desired: seq<Backend>, at: Time, k: string)
    requires Labelled(desired) && Mentions(desired, k) == 1
    ensures k in Write(store, desired, at, NoFault)
    ensures var s := Write(store, desired, at, NoFault)[k].status;
            s.lastChange == if k in store && !StatusChanged(store[k].status, s) then store[k].status.lastChange
              else Some(at)
  {
    MentionsZero(desired, k);
    var i := CompleteOutcome(store, desired, at, k);
    TouchedOnce(Lookup(store, k), desired, k, at, i);
    SameCondition(Write(store, desired, at, NoFault)[k].status, desired[i].status);
  }

  lemma {:induction false} TouchedTwice(current: Option<Object>, desired: seq<Backend>, k: string, at: Time, i: nat,
                                        j: nat)
    requires i < j < |desired| && desired[i].name == k && desired[j].name == k
    requires forall m :: i < m < |desired| && m != j ==> desired[m].name != k
    ensures exists o: Object :: SameReport(o.status, desired[i].status)
                        && Touched(current, desired, k, at) == Some(Applied(Some(o), desired[j], at))
  {
    var n := |desired| - 1;
    if j == n {
      var l := TouchedLast(current, desired[..n], k, at);
      assert desired[..n][i].name == k && desired[..n][i] in desired[..n];
      assert l == i;
    } else {
      TouchedTwice(current, desired[..n], k, at, i, j);
    }
  }

  /**
   * When a rejected route and the held-down memory of the same name meet in one sweep, both are
   * written to the one record, and lastChange is bumped at every such sweep although the record ends
   * up in the same condition.
   */
  lemma SharedNameBumpsLastChange(env: Env, store: Store, t: Tick, k: string, i: nat)
    requires Feasible(store, t) && StoreOk(store, t.now)
    requires t.fault.NoFault? && DistinctNames(t.candidates)
    requires i < |t.candidates| && t.candidates[i].rejected && NameOf(t.candidates[i]) == k
    requires Step(env, t, k, View(store, k)).Some?
    ensures k in Sweep(env, store, t) && Sweep(env, store, t)[k].status.lastChange == Some(t.at)
  {
    var desired, settled := Desired(env, store, t), Settled(env, store, t);
    assert settled[i] == t.candidates[i];
    RejectedUnseen(env, store, t, i);
    var j := HeldDown(env, store, t, k);
    DesiredName(env, store, t, j);
    AbsentAt(env, store, t, settled[j]);
    forall m | i < m < |desired| && m != j ensures desired[m].name != k {
      OnlyTwice(env, store, t, k, i, j, m);
    }
    ApplyAllAt(store, desired, t.at, k);
    TouchedTwice(Lookup(store, k), desired, k, t.at, i, j);
    assert desired[i].status.state.Rejected? && !desired[j].status.state.Rejected?;
    assert desired[j] in desired;
  }

  lemma OnlyTwice(env: Env, store: Store, t: Tick, k: string, i: nat, j: nat, m: nat)
    requires Feasible(store, t) && StoreOk(store, t.now) && DistinctNames(t.candidates)
    requires i < |t.candidates| <= j < |Settled(env, store, t)|
    requires NameOf(t.candidates[i]) == k && NameOf(Settled(env, store, t)[j]) == k
    requires i < m < |Settled(env, store, t)| && m != j
    ensures NameOf(Settled(env, store, t)[m]) != k
  {
    if m < |t.candidates| {
      SettledPresent(env, store, t, m);
    } else {
      HeldNamesDistinct(env, store, t, m, j);
    }
  }

  lemma HeldNamesDistinct(env: Env, store: Store, t: Tick, m: nat, j: nat)
    requires Feasible(store, t) && StoreOk(store, t.now)
    requires |t.candidates| <= m < |Settled(env, store, t)| && |t.candidates| <= j < |Settled(env, store, t)| && m != j
    ensures NameOf(Settled(env, store, t)[m]) != NameOf(Settled(env, store, t)[j])
  {
    SettledHeld(env, store, t, m);
    SettledHeld(env, store, t, j);
    HeldDistinct(env, store, t, m - |t.candidates|, j - |t.candidates|);
  }

  lemma HeldDistinct(env: Env, store: Store, t: Tick, i: nat, j: nat)
    requires Feasible(store, t) && StoreOk(store, t.now)
    requires i < |Held(env, store, t)| && j < |Held(env, store, t)| && i != j
    ensures NameOf(Held(env, store, t)[i]) != NameOf(Held(env, store, t)[j])
  {
    MemoryIsNamed(store, t.now);
    AbsentNamesDistinct(env, t, PriorFor(store, t.cfg), i, j);
  }

  /** Every remembered candidate is filed under its own name. */
  ghost predicate Named(prior: map<string, PriorState>) {
    forall k :: k in prior ==> NameOf(prior[k].candidate) == k
  }

  lemma MemoryIsNamed(store: Store, now: Time)
    requires StoreOk(store, now)
    ensures Named(Memory(store))
  {
    forall k | k in Memory(store) ensures NameOf(Memory(store)[k].candidate) == k {
      ViewOk(store, k, now);
    }
  }

  /** No two held-down candidates share a name. */
  lemma AbsentNamesDistinct(env: Env, t: Tick, prior: map<string, PriorState>, i: nat, j: nat)
    requires Named(prior) && Enumerates(t.order, prior.Keys)
    requires var held := Absents(env.halfPower, t.now, Seen(t.candidates), prior, t.cfg, t.order);
             i < |held| && j < |held| && i != j
    ensures var held := Absents(env.halfPower, t.now, Seen(t.candidates), prior, t.cfg, t.order);
            NameOf(held[i]) != NameOf(held[j])
  {
    var a, b := AbsentOrigins(env, t, prior, t.order, i, j);
  }

  /** Held-down candidates come from different places in the walk. */
  lemma {:induction false} AbsentOrigins(env: Env, t: Tick, prior: map<string, PriorState>, order: seq<string>, i: nat,
                                         j: nat)
    returns (a: nat, b: nat)
    requires Named(prior)
    requires var held := Absents(env.halfPower, t.now, Seen(t.candidates), prior, t.cfg, order);
             i < |held| && j < |held| && i != j
    ensures a < |order| && b < |order| && a != b
    ensures var held := Absents(env.halfPower, t.now, Seen(t.candidates), prior, t.cfg, order);
            NameOf(held[i]) == order[a] && NameOf(held[j]) == order[b]
  {
    var n := |order| - 1;
    var held := Absents(env.halfPower, t.now, Seen(t.candidates), prior, t.cfg, order);
    var front := Absents(env.halfPower, t.now, Seen(t.candidates), prior, t.cfg, order[..n]);
    if i < |front| && j < |front| {
      a, b := AbsentOrigins(env, t, prior, order[..n], i, j);
    } else if i < |front| {
      a := AbsentOrigin(env, t, prior, order[..n], i);
      b := n;
    } else {
      a := n;
      b := AbsentOrigin(env, t, prior, order[..n], j);
    }
  }

  lemma {:induction false} AbsentOrigin(env: Env, t: Tick, prior: map<string, PriorState>, order: seq<string>, i: nat)
    returns (a: nat)
    requires Named(prior)
    requires i < |Absents(env.halfPower, t.now, Seen(t.candidates), prior, t.cfg, order)|
    ensures a < |order| && NameOf(Absents(env.halfPower, t.now, Seen(t.candidates), prior, t.cfg, order)[i]) == order[a]
  {
    var n := |order| - 1;
    if i < |Absents(env.halfPower, t.now, Seen(t.candidates), prior, t.cfg, order[..n])| {
      a := AbsentOrigin(env, t, prior, order[..n], i);
    } else {
      a := n;
    }
  }

  /** A rejected route of the snapshot and the held-down memory of a name meet under that name. */
  ghost predicate Shared(env: Env, store: Store, t: Tick, k: string) {
    && (exists c :: c in t.candidates && c.rejected && NameOf(c) == k)
    && Step(env, t, k, View(store, k)).Some?
  }

  /** Unless a name is shared, only one output of the sweep bears it. */
  lemma UnsharedOnce(env: Env, store: Store, t: Tick, k: string, i: nat, j: nat)
    requires Feasible(store, t) && StoreOk(store, t.now) && DistinctNames(t.candidates)
    requires !Shared(env, store, t, k)
    requires i < j < |Settled(env, store, t)| && NameOf(Settled(env, store, t)[i]) == k
    ensures NameOf(Settled(env, store, t)[j]) != k
  {
    var n := |t.candidates|;
    if j < n {
      SettledPresent(env, store, t, i);
      SettledPresent(env, store, t, j);
    } else if n <= i {
      HeldNamesDistinct(env, store, t, i, j);
    } else {
      UnsharedHeld(env, store, t, k, i, j);
    }
  }

  lemma UnsharedHeld(env: Env, store: Store, t: Tick, k: string, i: nat, j: nat)
    requires Feasible(store, t) && StoreOk(store, t.now) && DistinctNames(t.candidates)
    requires !Shared(env, store, t, k)
    requires i < |t.candidates| <= j < |Settled(env, store, t)| && NameOf(t.candidates[i]) == k
    ensures NameOf(Settled(env, store, t)[j]) != k
  {
    SettledHeld(env, store, t, j);
    AbsentAt(env, store, t, Settled(env, store, t)[j]);
    assert t.candidates[i] in t.candidates;
  }

  lemma {:induction false} NamedOnce(desired: seq<Backend>, k: string, i: nat)
    requires i < |desired| && desired[i].name == k
    requires forall j :: 0 <= j < |desired| && j != i ==> desired[j].name != k
    ensures Mentions(desired, k) == 1
  {
    var n := |desired| - 1;
    if i == n {
      MentionsZero(desired[..n], k);
    } else {
      NamedOnce(desired[..n], k, i);
    }
  }

  lemma UnsharedMentions(env: Env, store: Store, t: Tick, k: string)
    requires Feasible(store, t) && StoreOk(store, t.now) && DistinctNames(t.candidates)
    requires !Shared(env, store, t, k) && k in NamesOf(Desired(env, store, t))
    ensures Mentions(Desired(env, store, t), k) == 1
  {
    var desired := Desired(env, store, t);
    var d :| d in desired && d.name == k;
    var i :| 0 <= i < |desired| && desired[i] == d;
    DesiredName(env, store, t, i);
    forall j | 0 <= j < |desired| && j != i ensures desired[j].name != k {
      DesiredName(env, store, t, j);
      if i < j {
        UnsharedOnce(env, store, t, k, i, j);
      } else if desired[j].name == k {
        UnsharedOnce(env, store, t, k, j, i);
      }
    }
    NamedOnce(desired, k, i);
  }

  /**
   * lastChange, exactly: a complete sweep keeps a record's lastChange if and only if nothing outside
   * the drifting fields changed and the name is not shared by a rejected route and a held-down memory;
   * otherwise it becomes the time of the sweep.
   */
  lemma LastChangeExactly(env: Env, store: Store, t: Tick, k: string)
    requires Feasible(store, t) && StoreOk(store, t.now)
    requires t.fault.NoFault? && DistinctNames(t.candidates)
    requires k in NamesOf(Desired(env, store, t))
    ensures k in Sweep(env, store, t)
    ensures var s := Sweep(env, store, t)[k].status;
            s.lastChange ==
            if k in store && OnlyDrifts(store[k].status, s) && !Shared(env, store, t, k)
            then store[k].status.lastChange else Some(t.at)
  {
    if Shared(env, store, t, k) {
      SharedLastChange(env, store, t, k);
    } else {
      UnsharedLastChange(env, store, t, k);
      if k in store {
        DriftIsNoChange(store[k].status, Sweep(env, store, t)[k].status);
      }
    }
  }

  lemma SharedLastChange(env: Env, store: Store, t: Tick, k: string)
    requires Feasible(store, t) && StoreOk(store, t.now)
    requires t.fault.NoFault? && DistinctNames(t.candidates) && Shared(env, store, t, k)
    ensures k in Sweep(env, store, t) && Sweep(env, store, t)[k].status.lastChange == Some(t.at)
  {
    var c :| c in t.candidates && c.rejected && NameOf(c) == k;
    var i :| 0 <= i < |t.candidates| && t.candidates[i] == c;
    SharedNameBumpsLastChange(env, store, t, k, i);
  }

  lemma UnsharedLastChange(env: Env, store: Store, t: Tick, k: string)
    requires Feasible(store, t) && StoreOk(store, t.now)
    requires t.fault.NoFault? && DistinctNames(t.candidates) && !Shared(env, store, t, k)
    requires k in NamesOf(Desired(env, store, t))
    ensures k in Sweep(env, store, t)
    ensures var s := Sweep(env, store, t)[k].status;
            s.lastChange ==
            if k in store && !StatusChanged(store[k].status, s) then store[k].status.lastChange else Some(t.at)
  {
    UnsharedMentions(env, store, t, k);
    SweptOnce(env, store, t, k);
  }

  lemma SweptOnce(env: Env, store: Store, t: Tick, k: string)
    requires t.fault.NoFault? && Mentions(Desired(env, store, t), k) == 1
    ensures k in Sweep(env, store, t)
    ensures var s := Sweep(env, store, t)[k].status;
            s.lastChange ==
            if k in store && !StatusChanged(store[k].status, s) then store[k].status.lastChange else Some(t.at)
  {
    WrittenOnce(store, Desired(env, store, t), t.at, k);
  }

  /** The unrejected outputs of a sweep have distinct names, if the snapshot has. */
  lemma UnrejectedNamesDistinct(env: Env, store: Store, t: Tick, i: nat, j: nat)
    requires Feasible(store, t) && StoreOk(store, t.now) && DistinctNames(t.candidates)
    requires i < j < |Settled(env, store, t)|
    requires !Settled(env, store, t)[i].rejected && !Settled(env, store, t)[j].rejected
    ensures NameOf(Settled(env, store, t)[i]) != NameOf(Settled(env, store, t)[j])
  {
    var n := |t.candidates|;
    if j < n {
      SettledPresent(env, store, t, i);
      SettledPresent(env, store, t, j);
    } else if i < n {
      PresentAt(env, store, t, i);
      SettledHeld(env, store, t, j);
      AbsentAt(env, store, t, Settled(env, store, t)[j]);
    } else {
      HeldNamesDistinct(env, store, t, i, j);
    }
  }

  // ----- Membership and ownership

  /** Who an object says manages it. */
  function ManagedBy(o: Object): Option<string> {
    Lookup(o.labels, "kreg.twr.dev/managed-by")
  }

  lemma ManagedExactly(o: Object)
    ensures Managed(o) <==> ManagedBy(o) == Some("advertisedbackend")
  {
  }

  /**
   * After a completed sweep the records labelled as the sweep's own are exactly the desired ones, apart
   * from names under which an object stood that did not carry that label. New records carry no other label.
   */
  lemma LabelledAreDesired(env: Env, store: Store, t: Tick, k: string)
    requires t.fault.NoFault?
    ensures var next := Sweep(env, store, t);
            && ((k in next && ManagedBy(next[k]) == Some("advertisedbackend")) <==>
                 && k in NamesOf(Desired(env, store, t))
                 && (k in store ==> ManagedBy(store[k]) == Some("advertisedbackend")))
            && (k in next && k !in store ==> next[k].labels == map["kreg.twr.dev/managed-by" := "advertisedbackend"])
  {
    LabelledAreWanted(env, store, t, k);
    if k in store {
      ManagedExactly(store[k]);
    }
    if k in Sweep(env, store, t) {
      ManagedExactly(Sweep(env, store, t)[k]);
    }
  }

  lemma LabelledAreWanted(env: Env, store: Store, t: Tick, k: string)
    requires t.fault.NoFault?
    ensures var next := Sweep(env, store, t);
            && ((k in next && Managed(next[k])) <==> (k in NamesOf(Desired(env, store, t)) && !Foreign(store, k)))
            && (k in next && k !in store ==> next[k].labels == BACKEND_LABELS)
  {
    var desired := Desired(env, store, t);
    var i := CompleteOutcome(store, desired, t.at, k);
    if i >= 0 {
      assert desired[i] in desired;
    }
  }

  /** No sweep, complete or not, deletes or relabels a foreign object, or touches one it does not report on. */
  lemma ForeignSurvives(env: Env, store: Store, t: Tick, k: string)
    requires Foreign(store, k)
    ensures Foreign(Sweep(env, store, t), k)
    ensures Sweep(env, store, t)[k].labels == store[k].labels
    ensures k !in NamesOf(Desired(env, store, t)) ==> Sweep(env, store, t)[k] == store[k]
  {
    var o := SweepOutcome(env, store, t, k);
    if o.Reported? {
      assert Desired(env, store, t)[o.index] in Desired(env, store, t);
    }
  }

  /**
   * A complete sweep does overwrite a foreign object, exactly if it wants a record of that name: the
   * status is then the one last desired under the name, the first sighting of the object kept.
   */
  lemma ForeignOverwrittenExactly(env: Env, store: Store, t: Tick, k: string) returns (i: int)
    requires t.fault.NoFault? && Foreign(store, k)
    ensures -1 <= i < |Desired(env, store, t)|
    ensures i == -1 <==> k !in NamesOf(Desired(env, store, t))
    ensures k in Sweep(env, store, t)
    ensures var o, ds := Sweep(env, store, t)[k], Desired(env, store, t);
            if i == -1 then o == store[k]
            else
              && LastNamed(ds, i) && ds[i].name == k
              && SameReport(o.status, ds[i].status) && o.labels == store[k].labels
              && o.status.firstSeen == store[k].status.firstSeen
  {
    var desired := Desired(env, store, t);
    i := CompleteOutcome(store, desired, t.at, k);
    if i >= 0 {
      assert desired[i] in desired;
      TouchedKeepsFirstSeen(store[k], desired, k, t.at);
    }
  }

  lemma {:induction false} TouchedKeepsFirstSeen(current: Object, desired: seq<Backend>, k: string, at: Time)
    ensures var o := Touched(Some(current), desired, k, at);
            o.Some? && o.value.status.firstSeen == current.status.firstSeen
  {
    if desired != [] {
      TouchedKeepsFirstSeen(current, desired[..|desired| - 1], k, at);
    }
  }

  // ----- Applying the same records again

  ghost predicate DistinctBackends(desired: seq<Backend>) {
    forall i, j :: 0 <= i < j < |desired| ==> desired[i].name != desired[j].name
  }

  lemma {:induction false} DistinctMentions(desired: seq<Backend>, i: nat)
    requires DistinctBackends(desired) && i < |desired|
    ensures Mentions(desired, desired[i].name) == 1
  {
    var n := |desired| - 1;
    if i == n {
      MentionsZero(desired[..n], desired[i].name);
    } else {
      DistinctMentions(desired[..n], i);
    }
  }

  /** Writing the same records again, at any later time, changes nothing at all: neither timestamp moves. */
  lemma ReapplyingChangesNothing(store: Store, desired: seq<Backend>, at: Time, later: Time)
    requires DistinctBackends(desired) && Labelled(desired)
    ensures var once := Write(store, desired, at, NoFault);
            Write(once, desired, later, NoFault) == once
  {
    var once := Write(store, desired, at, NoFault);
    var twice := Write(once, desired, later, NoFault);
    forall k ensures Lookup(twice, k) == Lookup(once, k) {
      ReapplyingAt(store, desired, at, later, k);
    }
    assert forall k :: k in twice <==> k in once by {
      forall k ensures k in twice <==> k in once {
        assert Lookup(twice, k) == Lookup(once, k);
      }
    }
    forall k | k in once ensures twice[k] == once[k] {
      assert Lookup(twice, k) == Lookup(once, k);
    }
  }

  lemma ReapplyingAt(store: Store, desired: seq<Backend>, at: Time, later: Time, k: string)
    requires DistinctBackends(desired) && Labelled(desired)
    ensures var once := Write(store, desired, at, NoFault);
            Lookup(Write(once, desired, later, NoFault), k) == Lookup(once, k)
  {
    var once := Write(store, desired, at, NoFault);
    var i := CompleteOutcome(store, desired, at, k);
    var j := CompleteOutcome(once, desired, later, k);
    if i >= 0 {
      assert desired[i] in desired;
      assert j == i;
      DistinctMentions(desired, i);
      TouchedOnce(Lookup(once, k), desired, k, later, i);
      SameCondition(once[k].status, desired[i].status);
    }
  }
}

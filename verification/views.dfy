/**
 * A sweep projected onto one name. Every sweep, complete or not, moves the memory under a name by one
 * step of a small machine; the theorems about runs are then about that machine.
 */
module Views {
  import opened Types
  import opened Names
  import opened Damper
  import opened Report
  import opened Records

  // ----- The shape of records

  predicate RecordOk(k: string, s: Status, now: Time) {
    if s.stability.lastObservedAt.None? then
      s.stability == NO_STABILITY && (s.state.Rejected? || s.state.Unset?)
    else
      var last := s.stability.lastObservedAt.value;
      && BackendObjectName(s.prefix, s.clusterID) == k
      && (s.state.Active? || s.state.Draining? || s.state.Pending? || s.state.HoldDown? || s.state.Dampened?)
      && (s.state.Dampened? <==> s.stability.suppressedSince.Some?)
      && (s.state.Pending? <==> s.stability.pendingSince.Some?)
      && (s.state.HoldDown? ==> s.stability.withdrawnAt.Some?)
      && (s.state.Active? || s.state.Draining? || s.state.Pending? ==> s.stability.withdrawnAt.None?)
      && (s.state.Active? ==> !s.attributes.drain) && (s.state.Draining? ==> s.attributes.drain)
      && (s.state.Active? || s.state.Draining? ==> s.reason == NoReason)
      && 0 < last <= now
      && Within(s.stability.withdrawnAt, last)
      && Within(s.stability.suppressedSince, last)
      && Within(s.stability.pendingSince, last)
      && 0 <= s.stability.dampeningPenalty <= MAX_INT32
      && (s.state.Pending? ==> s.stability.dampeningPenalty == 0)
  }

  ghost predicate StoreOk(store: Store, now: Time) {
    forall k :: k in store && Managed(store[k]) ==> RecordOk(k, store[k].status, now)
  }

  lemma BuiltOk(parse: Parser, c: Candidate, policies: seq<Policy>, now: Time)
    requires c.rejected ==> c.damping.None?
    requires !c.rejected ==> c.damping.Some? && DampingOk(c.damping.value, now)
    ensures RecordOk(NameOf(c), BuildStatus(parse, c, policies), now)
  {
  }

  // ----- The memory under one name

  /** What a sweep would read back under this name. */
  function View(store: Store, k: string): Option<Damping> {
    DampingOf(Lookup(Memory(store), k))
  }

  /** The memory a sweep feeds to Damp: none when its configuration cannot make use of it. */
  function Fed(cfg: StabilityConfig, v: Option<Damping>): Option<Damping> {
    if NeedsPriorState(cfg) then v else None
  }

  /** One step of the memory under a name, present in the snapshot or not. */
  function NextView(pw: HalfPower, t: Tick, present: bool, v: Option<Damping>): Option<Damping> {
    if present then
      Some(Persisted(EvaluatePresent(pw, t.now, v, DelayOf(t.cfg), t.cfg.dampening)))
    else if v.None? then
      None
    else
      match AbsentDamping(pw, t.now, v.value, GraceOf(t.cfg), t.cfg.dampening)
      case None => None
      case Some(d) => Some(Persisted(d))
  }

  function Step(env: Env, t: Tick, k: string, v: Option<Damping>): Option<Damping> {
    NextView(env.halfPower, t, k in Seen(t.candidates), Fed(t.cfg, v))
  }

  lemma ViewOk(store: Store, k: string, now: Time)
    requires StoreOk(store, now)
    requires View(store, k).Some?
    ensures DampingOk(View(store, k).value, now)
    ensures k in Memory(store) && NameOf(Memory(store)[k].candidate) == k && !Memory(store)[k].candidate.rejected
  {
  }

  /** The candidates held down in an evaluated snapshot. */
  function Held(env: Env, store: Store, t: Tick): seq<Candidate> {
    Absents(env.halfPower, t.now, Seen(t.candidates), PriorFor(store, t.cfg), t.cfg, t.order)
  }

  /** What the evaluated snapshot says under a name is the step of that name's memory, or a rejection. */
  lemma SettledAt(env: Env, store: Store, t: Tick, c: Candidate)
    requires Feasible(store, t) && StoreOk(store, t.now)
    requires c in Settled(env, store, t)
    ensures c.rejected ==> c in t.candidates && c.damping.None?
    ensures !c.rejected ==>
              && c.damping.Some? && DampingOk(c.damping.value, t.now)
              && Some(Persisted(c.damping.value)) == Step(env, t, NameOf(c), View(store, NameOf(c)))
  {
    var prior := PriorFor(store, t.cfg);
    var presents := Presents(env.halfPower, t.now, t.candidates, prior, t.cfg);
    if c in presents {
      var i :| 0 <= i < |presents| && presents[i] == c;
      PresentAt(env, store, t, i);
    } else {
      AbsentAt(env, store, t, c);
    }
  }

  lemma PresentAt(env: Env, store: Store, t: Tick, i: nat)
    requires Feasible(store, t) && StoreOk(store, t.now)
    requires i < |t.candidates|
    ensures var c := Damped(env.halfPower, t.now, t.candidates[i], PriorFor(store, t.cfg), t.cfg);
            && NameOf(c) == NameOf(t.candidates[i])
            && c.rejected == t.candidates[i].rejected
            && (c.rejected ==> c == t.candidates[i])
            && (!c.rejected ==>
                 && c.damping.Some? && DampingOk(c.damping.value, t.now)
                 && NameOf(c) in Seen(t.candidates)
                 && Some(Persisted(c.damping.value)) == Step(env, t, NameOf(c), View(store, NameOf(c))))
  {
    var raw := t.candidates[i];
    assert raw in t.candidates;
    if !raw.rejected {
      var k := NameOf(raw);
      var v := Fed(t.cfg, View(store, k));
      if v.Some? {
        ViewOk(store, k, t.now);
      }
      PresentOk(env.halfPower, t.now, v, DelayOf(t.cfg), t.cfg.dampening);
      assert DampingOf(Lookup(PriorFor(store, t.cfg), k)) == v;
    }
  }

  lemma AbsentAt(env: Env, store: Store, t: Tick, c: Candidate)
    requires Feasible(store, t) && StoreOk(store, t.now)
    requires c in Held(env, store, t)
    ensures !c.rejected && c.damping.Some? && DampingOk(c.damping.value, t.now)
    ensures NameOf(c) !in Seen(t.candidates)
    ensures Some(Persisted(c.damping.value)) == Step(env, t, NameOf(c), View(store, NameOf(c)))
    ensures NameOf(c) in Memory(store) && c == Memory(store)[NameOf(c)].candidate.(damping := c.damping)
  {
    var prior := PriorFor(store, t.cfg);
    AbsentsMembers(env.halfPower, t.now, Seen(t.candidates), prior, t.cfg, t.order, c);
    var k :| k in t.order && k in prior && k !in Seen(t.candidates)
             && EvaluateAbsent(env.halfPower, t.now, prior[k], GraceOf(t.cfg), t.cfg.dampening) == Some(c);
    ViewOk(store, k, t.now);
    AbsentOk(env.halfPower, t.now, prior[k].damping, GraceOf(t.cfg), t.cfg.dampening);
    assert NameOf(c) == k;
  }

  /** A name that is remembered, missing and within its grace is held down under that same name. */
  lemma HeldDown(env: Env, store: Store, t: Tick, k: string) returns (i: nat)
    requires Feasible(store, t) && StoreOk(store, t.now)
    requires k !in Seen(t.candidates) && Step(env, t, k, View(store, k)).Some?
    ensures |t.candidates| <= i < |Settled(env, store, t)|
    ensures NameOf(Settled(env, store, t)[i]) == k
  {
    var c := Synthesized(env, store, t, k);
    i := HeldPlace(env, store, t, c);
  }

  lemma HeldPlace(env: Env, store: Store, t: Tick, c: Candidate) returns (i: nat)
    requires c in Held(env, store, t)
    ensures |t.candidates| <= i < |Settled(env, store, t)|
    ensures Settled(env, store, t)[i] == c
  {
    var held := Held(env, store, t);
    var j :| 0 <= j < |held| && held[j] == c;
    i := |t.candidates| + j;
  }

  lemma SettledPresent(env: Env, store: Store, t: Tick, m: nat)
    requires m < |t.candidates|
    ensures NameOf(Settled(env, store, t)[m]) == NameOf(t.candidates[m])
    ensures Settled(env, store, t)[m].rejected == t.candidates[m].rejected
  {
  }

  lemma SettledHeld(env: Env, store: Store, t: Tick, m: nat)
    requires |t.candidates| <= m < |Settled(env, store, t)|
    ensures m - |t.candidates| < |Held(env, store, t)|
    ensures Settled(env, store, t)[m] == Held(env, store, t)[m - |t.candidates|]
  {
  }

  lemma DesiredName(env: Env, store: Store, t: Tick, i: nat)
    requires i < |Settled(env, store, t)|
    ensures Desired(env, store, t)[i].name == NameOf(Settled(env, store, t)[i])
  {
  }

  lemma Synthesized(env: Env, store: Store, t: Tick, k: string) returns (c: Candidate)
    requires Feasible(store, t) && StoreOk(store, t.now)
    requires k !in Seen(t.candidates) && Step(env, t, k, View(store, k)).Some?
    ensures c in Held(env, store, t)
    ensures NameOf(c) == k
  {
    var prior := PriorFor(store, t.cfg);
    ViewOk(store, k, t.now);
    c := EvaluateAbsent(env.halfPower, t.now, prior[k], GraceOf(t.cfg), t.cfg.dampening).value;
    AbsentsMembers(env.halfPower, t.now, Seen(t.candidates), prior, t.cfg, t.order, c);
  }

  // ----- One sweep

  lemma DesiredOk(env: Env, store: Store, t: Tick, i: nat)
    requires Feasible(store, t) && StoreOk(store, t.now)
    requires i < |Desired(env, store, t)|
    ensures var d := Desired(env, store, t)[i];
            var c := Settled(env, store, t)[i];
            && d.name == NameOf(c) && d.labels == BACKEND_LABELS
            && RecordOk(d.name, d.status, t.now)
            && DampingOf(Remembered(d.status)) ==
               (if c.rejected then None else Step(env, t, d.name, View(store, d.name)))
  {
    var c := Settled(env, store, t)[i];
    SettledAt(env, store, t, c);
    BuiltOk(env.parse, c, t.policies, t.now);
    if c.rejected {
      UndampedForgets(env.parse, c, t.policies);
    } else {
      PersistRestore(env.parse, c, t.policies, t.now);
    }
  }

  lemma SameReportOk(k: string, s: Status, u: Status, now: Time)
    requires SameReport(s, u)
    ensures RecordOk(k, s, now) == RecordOk(k, u, now)
    ensures Remembered(s) == Remembered(u)
  {
  }

  lemma SweepOutcome(env: Env, store: Store, t: Tick, k: string) returns (o: Outcome)
    ensures HasOutcome(Lookup(store, k), Lookup(Sweep(env, store, t), k), Desired(env, store, t), k, o)
  {
    o := WriteOutcome(store, Desired(env, store, t), t.at, t.fault, k);
  }

  /** Sweeps create only labelled records and never change labels. */
  lemma SweepKeepsOwned(env: Env, store: Store, t: Tick, k: string)
    requires !Foreign(store, k)
    ensures !Foreign(Sweep(env, store, t), k)
  {
    var o := SweepOutcome(env, store, t, k);
    assert Lookup(BACKEND_LABELS, MANAGED_BY_LABEL) == Some(MANAGED_BY_VALUE);
  }

  /** Every sweep keeps the shape of every record, wherever it stops. */
  lemma SweepKeepsRecordsOk(env: Env, store: Store, t: Tick)
    requires Feasible(store, t) && StoreOk(store, t.now)
    ensures StoreOk(Sweep(env, store, t), t.at)
  {
    var desired := Desired(env, store, t);
    var next := Sweep(env, store, t);
    forall k | k in next && Managed(next[k]) ensures RecordOk(k, next[k].status, t.at) {
      var o := SweepOutcome(env, store, t, k);
      assert Lookup(next, k) == Some(next[k]);
      if o.Reported? {
        DesiredOk(env, store, t, o.index);
        SameReportOk(k, next[k].status, desired[o.index].status, t.now);
      }
    }
  }

  /** Wherever a sweep stops, the memory under a name stays, is lost, or takes its step. */
  lemma SweepMovesView(env: Env, store: Store, t: Tick, k: string)
    requires Feasible(store, t) && StoreOk(store, t.now)
    ensures var v, v' := View(store, k), View(Sweep(env, store, t), k);
            v' == v || v' == None || v' == Step(env, t, k, v)
  {
    var o := SweepOutcome(env, store, t, k);
    if o.Reported? {
      DesiredOk(env, store, t, o.index);
      OutcomeView(store, Sweep(env, store, t), Desired(env, store, t), k, o.index);
    }
  }

  lemma OutcomeView(store: Store, next: Store, desired: seq<Backend>, k: string, i: nat)
    requires HasOutcome(Lookup(store, k), Lookup(next, k), desired, k, Reported(i))
    ensures View(next, k) == None || View(next, k) == DampingOf(Remembered(desired[i].status))
  {
  }

  ghost predicate DistinctNames(candidates: seq<Candidate>) {
    forall i, j :: 0 <= i < j < |candidates| ==> NameOf(candidates[i]) != NameOf(candidates[j])
  }

  /** An object under this name that carries somebody else's label, or none. */
  predicate Foreign(store: Store, k: string) {
    k in store && !Managed(store[k])
  }

  /** A rejected output is one of the snapshot, and its name is not otherwise present. */
  lemma RejectedUnseen(env: Env, store: Store, t: Tick, i: nat)
    requires Feasible(store, t) && StoreOk(store, t.now)
    requires DistinctNames(t.candidates)
    requires i < |Settled(env, store, t)| && Settled(env, store, t)[i].rejected
    ensures i < |t.candidates| && Settled(env, store, t)[i] == t.candidates[i]
    ensures NameOf(Settled(env, store, t)[i]) !in Seen(t.candidates)
  {
    var c := Settled(env, store, t)[i];
    if i >= |t.candidates| {
      AbsentAt(env, store, t, c);
      assert false;
    }
    PresentAt(env, store, t, i);
    forall d | d in t.candidates && !d.rejected ensures NameOf(d) != NameOf(c) {
      var j :| 0 <= j < |t.candidates| && t.candidates[j] == d;
    }
  }

  /** The last word of the evaluated snapshot on a name is the step of its memory. */
  lemma LastWord(env: Env, store: Store, t: Tick, i: nat)
    requires Feasible(store, t) && StoreOk(store, t.now)
    requires DistinctNames(t.candidates)
    requires LastNamed(Desired(env, store, t), i)
    ensures var d := Desired(env, store, t)[i];
            DampingOf(Remembered(d.status)) == Step(env, t, d.name, View(store, d.name))
  {
    var desired, settled := Desired(env, store, t), Settled(env, store, t);
    DesiredOk(env, store, t, i);
    var k := desired[i].name;
    if settled[i].rejected {
      RejectedUnseen(env, store, t, i);
      if Step(env, t, k, View(store, k)).Some? {
        var j := HeldDown(env, store, t, k);
        DesiredName(env, store, t, j);
      }
    }
  }

  /** A name the evaluated snapshot does not mention has nothing to step to. */
  lemma Unmentioned(env: Env, store: Store, t: Tick, k: string)
    requires Feasible(store, t) && StoreOk(store, t.now)
    requires k !in NamesOf(Desired(env, store, t))
    ensures Step(env, t, k, View(store, k)) == None
  {
    var desired, settled := Desired(env, store, t), Settled(env, store, t);
    forall i | 0 <= i < |settled| ensures NameOf(settled[i]) != k {
      assert desired[i] in desired;
    }
    forall c | c in t.candidates && !c.rejected ensures NameOf(c) != k {
      var i :| 0 <= i < |t.candidates| && t.candidates[i] == c;
      PresentAt(env, store, t, i);
      assert NameOf(settled[i]) != k;
    }
    assert k !in Seen(t.candidates);
    if Step(env, t, k, View(store, k)).Some? {
      var j := HeldDown(env, store, t, k);
    }
  }

  /**
   * Projection: a sweep that completes moves the memory under every name by exactly its step,
   * whatever order the prior map was walked in. The exception is a name held by a foreign object,
   * whose status is overwritten but never read back.
   */
  lemma CompleteSweepStepsView(env: Env, store: Store, t: Tick, k: string)
    requires Feasible(store, t) && StoreOk(store, t.now)
    requires t.fault.NoFault? && DistinctNames(t.candidates)
    ensures View(Sweep(env, store, t), k) == if Foreign(store, k) then None else Step(env, t, k, View(store, k))
  {
    var i := CompleteOutcome(store, Desired(env, store, t), t.at, k);
    if i == -1 {
      Unmentioned(env, store, t, k);
    } else {
      LastWord(env, store, t, i);
      ReportedView(env, store, t, k, i);
    }
  }

  lemma ReportedView(env: Env, store: Store, t: Tick, k: string, i: nat)
    requires t.fault.NoFault? && i < |Desired(env, store, t)|
    requires k in Sweep(env, store, t)
    requires var o := Sweep(env, store, t)[k];
             && SameReport(o.status, Desired(env, store, t)[i].status)
             && o.labels == (if k in store then store[k].labels else BACKEND_LABELS)
    ensures View(Sweep(env, store, t), k)
         == if Foreign(store, k) then None else DampingOf(Remembered(Desired(env, store, t)[i].status))
  {
    var o := Sweep(env, store, t)[k];
    SameReportOk(k, o.status, Desired(env, store, t)[i].status, t.now);
  }

  /** What a complete sweep reports of a name that has a step is the unrejected output of that name. */
  lemma SettledReport(env: Env, store: Store, t: Tick, k: string) returns (c: Candidate)
    requires Feasible(store, t) && StoreOk(store, t.now)
    requires t.fault.NoFault? && DistinctNames(t.candidates)
    requires Step(env, t, k, View(store, k)).Some?
    ensures c in Settled(env, store, t) && !c.rejected && NameOf(c) == k
    ensures k in Sweep(env, store, t)
    ensures SameReport(Sweep(env, store, t)[k].status, BuildStatus(env.parse, c, t.policies))
  {
    var i := CompleteOutcome(store, Desired(env, store, t), t.at, k);
    assert i != -1 by {
      if i == -1 {
        Unmentioned(env, store, t, k);
      }
    }
    LastWord(env, store, t, i);
    DesiredOk(env, store, t, i);
    c := Settled(env, store, t)[i];
  }

  /** The walk order of the prior map does not show in what is remembered. */
  lemma WalkOrderIsInvisible(env: Env, store: Store, t: Tick, order: seq<string>, k: string)
    requires Feasible(store, t) && Feasible(store, t.(order := order)) && StoreOk(store, t.now)
    requires t.fault.NoFault? && DistinctNames(t.candidates)
    ensures View(Sweep(env, store, t), k) == View(Sweep(env, store, t.(order := order)), k)
  {
    CompleteSweepStepsView(env, store, t, k);
    CompleteSweepStepsView(env, store, t.(order := order), k);
  }
}

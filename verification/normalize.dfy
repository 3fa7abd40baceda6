/**
 * The Normalize stage, internal/pipeline/normalize.go, and the printer of the communities it reads,
 * decodeLargeCommunities in internal/ingest/rib.go.
 */
module Normalization {
  import opened Types
  import opened Text

  datatype Field = Weight | Tier | Drain | ServiceTag | OtherField(name: string)

  datatype FieldSet = FieldSet(field: Field, value: Option<string>, fromCommunityValue: bool)

  datatype Rule = Rule(pattern: string, assign: FieldSet)

  datatype UnmappedPolicy = Ignore | Reject | Warn

  datatype Fallbacks = Fallbacks(weightFromMED: bool, defaultWeight: int)

  datatype CommunityMap = CommunityMap(rules: seq<Rule>, fallbacks: Option<Fallbacks>, onUnmapped: UnmappedPolicy)

  // ----- Matching communities

  /** The value segment of a community, if its first two segments and the value fit the pattern. */
  function Captured(pattern: seq<string>, community: string): Option<string>
    requires |pattern| == 3
  {
    var parts := SplitN3(community, ':');
    if |parts| == 3 && parts[0] == pattern[0] && parts[1] == pattern[1] && (pattern[2] == "*" || parts[2] == pattern[2])
    then Some(parts[2]) else None
  }

  function FirstCaptured(pattern: seq<string>, communities: seq<string>): Option<string>
    requires |pattern| == 3
  {
    if communities == [] then None
    else
      match Captured(pattern, communities[0])
      case Some(v) => Some(v)
      case None => FirstCaptured(pattern, communities[1..])
  }

  function MatchLargeCommunity(pattern: string, communities: seq<string>): Option<string> {
    var parts := SplitN3(pattern, ':');
    if |parts| != 3 then None else FirstCaptured(parts, communities)
  }

  method FindLargeCommunity(pattern: string, communities: seq<string>) returns (value: Option<string>)
    ensures value == MatchLargeCommunity(pattern, communities)
  {
    var patternParts := SplitN3(pattern, ':');
    if |patternParts| != 3 {
      return None;
    }
    for n := 0 to |communities|
      invariant FirstCaptured(patternParts, communities) == FirstCaptured(patternParts, communities[n..])
    {
      assert communities[n..][0] == communities[n] && communities[n..][1..] == communities[n + 1..];
      var parts := SplitN3(communities[n], ':');
      if |parts| != 3 || parts[0] != patternParts[0] || parts[1] != patternParts[1] {
        continue;
      }
      if patternParts[2] != "*" && parts[2] != patternParts[2] {
        continue;
      }
      return Some(parts[2]);
    }
    return None;
  }

  function Triple(g: string, f: string, v: string): string {
    g + ":" + f + ":" + v
  }

  /** The community g:f:v meets the pattern g:f:w, w being v or a star; no colon in g or f. */
  ghost predicate Meets(pattern: string, community: string, v: string) {
    exists g: string, f: string, w: string ::
      && ':' !in g && ':' !in f && (w == "*" || w == v)
      && pattern == Triple(g, f, w) && community == Triple(g, f, v)
  }

  lemma CapturedMeets(pattern: string, community: string, v: string)
    ensures Meets(pattern, community, v) <==>
            var parts := SplitN3(pattern, ':'); |parts| == 3 && Captured(parts, community) == Some(v)
  {
    var parts, other := SplitN3(pattern, ':'), SplitN3(community, ':');
    SplitExactly(pattern, ':');
    SplitExactly(community, ':');
    if |parts| == 3 && Captured(parts, community) == Some(v) {
      assert pattern == Triple(parts[0], parts[1], parts[2]) && community == Triple(parts[0], parts[1], v);
    }
    if Meets(pattern, community, v) {
      var g, f, w :| ':' !in g && ':' !in f && (w == "*" || w == v)
                     && pattern == Triple(g, f, w) && community == Triple(g, f, v);
      SplitJoin(g, f, w, ':');
      SplitJoin(g, f, v, ':');
    }
  }

  /** The first community that meets the pattern at all, and with which value. */
  ghost predicate MeetsFirst(pattern: string, communities: seq<string>, i: nat, v: string) {
    && i < |communities| && Meets(pattern, communities[i], v)
    && forall j, u :: 0 <= j < i ==> !Meets(pattern, communities[j], u)
  }

  /** A pattern captures the value of the first community that meets it, and nothing if none does. */
  lemma {:induction false} MatchExactly(pattern: string, communities: seq<string>, v: string)
    ensures MatchLargeCommunity(pattern, communities) == Some(v) <==>
            exists i: nat :: MeetsFirst(pattern, communities, i, v)
  {
    if communities != [] {
      var first, rest := communities[0], communities[1..];
      CapturedMeets(pattern, first, v);
      MatchExactly(pattern, rest, v);
      if u :| Meets(pattern, first, u) {
        CapturedMeets(pattern, first, u);
        MetAtOnce(pattern, communities, u, v);
      } else {
        forall u ensures !Meets(pattern, first, u) {
        }
        NotMetAtOnce(pattern, communities, v);
      }
    }
  }

  lemma MetAtOnce(pattern: string, communities: seq<string>, u: string, v: string)
    requires communities != [] && Meets(pattern, communities[0], u)
    ensures (exists i: nat :: MeetsFirst(pattern, communities, i, v)) <==> u == v
  {
    CapturedMeets(pattern, communities[0], u);
    CapturedMeets(pattern, communities[0], v);
    if u == v {
      assert MeetsFirst(pattern, communities, 0, v);
    }
  }

  lemma NotMetAtOnce(pattern: string, communities: seq<string>, v: string)
    requires communities != [] && forall u :: !Meets(pattern, communities[0], u)
    ensures (exists i: nat :: MeetsFirst(pattern, communities, i, v)) <==>
            (exists i: nat :: MeetsFirst(pattern, communities[1..], i, v))
    ensures MatchLargeCommunity(pattern, communities) == MatchLargeCommunity(pattern, communities[1..])
  {
    var rest, parts := communities[1..], SplitN3(pattern, ':');
    if |parts| == 3 && Captured(parts, communities[0]).Some? {
      CapturedMeets(pattern, communities[0], Captured(parts, communities[0]).value);
    }
    if i: nat :| MeetsFirst(pattern, communities, i, v) {
      assert rest[i - 1] == communities[i];
      forall j, u | 0 <= j < i - 1 ensures !Meets(pattern, rest[j], u) {
        assert rest[j] == communities[j + 1];
      }
      assert MeetsFirst(pattern, rest, i - 1, v);
    }
    if i: nat :| MeetsFirst(pattern, rest, i, v) {
      assert rest[i] == communities[i + 1];
      forall j, u | 0 <= j < i + 1 ensures !Meets(pattern, communities[j], u) {
        assert j > 0 ==> communities[j] == rest[j - 1];
      }
      assert MeetsFirst(pattern, communities, i + 1, v);
    }
  }

  // ----- One rule

  /** What a matching rule sets, or why it cannot. */
  datatype Setting =
    | WeightIs(weight: int)
    | TierIs(tier: string)
    | DrainIs(drain: bool)
    | ServiceTagIs(tag: int)
    | Unusable(error: Error)

  /** What a rule does to a route: nothing, unless it matches. */
  datatype Effect = Effect(field: Field, setting: Option<Setting>)

  function Reading(field: Field, text: string): Setting {
    match field
    case Weight => (match ParseInt32(text) case Some(n) => WeightIs(n) case None => Unusable(BadWeight(text)))
    case Tier => TierIs(text)
    case Drain => (match ParseBool(text) case Some(b) => DrainIs(b) case None => Unusable(BadDrain(text)))
    case ServiceTag =>
      (match ParseInt32(text) case Some(n) => ServiceTagIs(n) case None => Unusable(BadServiceTag(text)))
    case OtherField(name) => Unusable(UnknownField(name))
  }

  function TextOf(assign: FieldSet, captured: string): string {
    if !assign.fromCommunityValue && assign.value.Some? then assign.value.value else captured
  }

  function EffectOf(rule: Rule, communities: seq<string>): Effect {
    Effect(rule.assign.field,
           match MatchLargeCommunity(rule.pattern, communities)
           case None => None
           case Some(captured) => Some(Reading(rule.assign.field, TextOf(rule.assign, captured))))
  }

  function Effects(rules: seq<Rule>, communities: seq<string>): (es: seq<Effect>)
    ensures |es| == |rules|
    ensures forall i :: 0 <= i < |rules| ==> es[i] == EffectOf(rules[i], communities)
  {
    seq(|rules|, i requires 0 <= i < |rules| => EffectOf(rules[i], communities))
  }

  function Updated(c: Candidate, s: Setting): Candidate {
    match s
    case WeightIs(w) => c.(weight := w)
    case TierIs(t) => c.(tier := t)
    case DrainIs(d) => c.(drain := d)
    case ServiceTagIs(tag) => c.(serviceTag := Some(tag))
    case Unusable(_) => c
  }

  /** Whether a text can be the value of a field: a number that fits, a truth value, or any tier. */
  predicate Usable(field: Field, text: string) {
    match field
    case Weight => ParseInt32(text).Some?
    case Tier => true
    case Drain => ParseBool(text).Some?
    case ServiceTag => ParseInt32(text).Some?
    case OtherField(_) => false
  }

  /** Two candidates that agree on everything but, perhaps, one decoded field. */
  predicate SameBut(field: Field, c: Candidate, d: Candidate) {
    match field
    case Weight => c == d.(weight := c.weight)
    case Tier => c == d.(tier := c.tier)
    case Drain => c == d.(drain := c.drain)
    case ServiceTag => c == d.(serviceTag := c.serviceTag)
    case OtherField(_) => c == d
  }

  /** The value read back from the field is the one the text stands for. */
  predicate Says(c: Candidate, field: Field, text: string) {
    match field
    case Weight => ParseInt32(text) == Some(c.weight)
    case Tier => c.tier == text
    case Drain => ParseBool(text) == Some(c.drain)
    case ServiceTag => c.serviceTag.Some? && ParseInt32(text) == c.serviceTag
    case OtherField(_) => false
  }

  /** Sets one field to what the text stands for and leaves the others, or fails on a text that stands for nothing. */
  method ApplyFieldSet(c: Candidate, assign: FieldSet, captured: string) returns (r: Result<Candidate>)
    ensures var text := TextOf(assign, captured);
            && (r.Ok? <==> Usable(assign.field, text))
            && (r.Ok? ==> Says(r.value, assign.field, text) && SameBut(assign.field, r.value, c))
            && (r.Err? ==> Reading(assign.field, text) == Unusable(r.error))
  {
    var text := captured;
    if !assign.fromCommunityValue && assign.value.Some? {
      text := assign.value.value;
    }
    match assign.field {
      case Weight =>
        var weight := ParseInt32(text);
        if weight.None? { return Err(BadWeight(text)); }
        return Ok(c.(weight := weight.value));
      case Tier =>
        return Ok(c.(tier := text));
      case Drain =>
        var drain := ParseBool(text);
        if drain.None? { return Err(BadDrain(text)); }
        return Ok(c.(drain := drain.value));
      case ServiceTag =>
        var tag := ParseInt32(text);
        if tag.None? { return Err(BadServiceTag(text)); }
        return Ok(c.(serviceTag := Some(tag.value)));
      case OtherField(name) =>
        return Err(UnknownField(name));
    }
  }

  // ----- Folding the rules

  /** The setting of the last rule among the first n that matches and sets the field. */
  function LastHit(es: seq<Effect>, field: Field, n: nat): Option<Setting>
    requires n <= |es|
  {
    if n == 0 then None
    else if es[n - 1].field == field && es[n - 1].setting.Some? then es[n - 1].setting
    else LastHit(es, field, n - 1)
  }

  predicate AnyHit(es: seq<Effect>, n: nat)
    requires n <= |es|
  {
    exists i :: 0 <= i < n && es[i].setting.Some?
  }

  predicate Objecting(e: Effect) {
    e.setting.Some? && e.setting.value.Unusable?
  }

  /** What the first matching rule with an unusable value complains about. */
  function FirstObjection(es: seq<Effect>, n: nat): Option<Error>
    requires n <= |es|
  {
    if n == 0 then None
    else
      var earlier := FirstObjection(es, n - 1);
      if earlier.None? && Objecting(es[n - 1]) then Some(es[n - 1].setting.value.error)
      else earlier
  }

  function Undecoded(route: Route): Candidate {
    Candidate(route.prefix, route.clusterID, route.peer, route.locality, route.med, route.asPath,
              route.largeCommunities, 0, "", false, None, false, NoReason, None)
  }

  /** A candidate in which each field holds the value of the last matching rule for it. */
  function Decoded(route: Route, es: seq<Effect>, n: nat): Candidate
    requires n <= |es|
  {
    var weight, tier := LastHit(es, Weight, n), LastHit(es, Tier, n);
    var drain, tag := LastHit(es, Drain, n), LastHit(es, ServiceTag, n);
    Undecoded(route).(
      weight := if weight.Some? && weight.value.WeightIs? then weight.value.weight else 0,
      tier := if tier.Some? && tier.value.TierIs? then tier.value.tier else "",
      drain := if drain.Some? && drain.value.DrainIs? then drain.value.drain else false,
      serviceTag := if tag.Some? && tag.value.ServiceTagIs? then Some(tag.value.tag) else None)
  }

  function InvertMED(med: uint32): int {
    if med >= 1000 then 1 else 1000 - med
  }

  function FallbackWeight(med: uint32, cm: Option<CommunityMap>): int {
    if cm.None? || cm.value.fallbacks.None? then 100
    else
      var fallbacks := cm.value.fallbacks.value;
      if fallbacks.weightFromMED then InvertMED(med)
      else if fallbacks.defaultWeight != 0 then fallbacks.defaultWeight
      else 100
  }

  function RulesOf(cm: Option<CommunityMap>): seq<Rule> {
    if cm.Some? then cm.value.rules else []
  }

  /** What the effects of all rules make of an accepted route, leaving each field to its last matching rule. */
  function Folded(route: Route, cm: Option<CommunityMap>, es: seq<Effect>): Result<Candidate> {
    var objection := FirstObjection(es, |es|);
    if objection.Some? then Err(objection.value)
    else
      var c := Decoded(route, es, |es|);
      var weighed := if LastHit(es, Weight, |es|).Some? then c else c.(weight := FallbackWeight(route.med, cm));
      if cm.None? || AnyHit(es, |es|) || cm.value.onUnmapped.Ignore? then Ok(weighed)
      else Ok(weighed.(rejected := cm.value.onUnmapped.Reject?, reason := Unmapped(route.largeCommunities)))
  }

  function Normalized(route: Route, cm: Option<CommunityMap>): Result<Candidate> {
    if route.rejected then Ok(Undecoded(route).(rejected := true, reason := route.reason))
    else Folded(route, cm, Effects(RulesOf(cm), route.largeCommunities))
  }

  lemma {:induction false} ObjectionStops(es: seq<Effect>, m: nat, n: nat)
    requires m <= n <= |es| && FirstObjection(es, m).Some?
    ensures FirstObjection(es, n) == FirstObjection(es, m)
    decreases n
  {
    if m < n {
      ObjectionStops(es, m, n - 1);
    }
  }

  /** A setting speaks of the field of its rule. */
  predicate Fits(e: Effect) {
    e.setting.Some? ==>
      match e.setting.value
      case WeightIs(_) => e.field.Weight?
      case TierIs(_) => e.field.Tier?
      case DrainIs(_) => e.field.Drain?
      case ServiceTagIs(_) => e.field.ServiceTag?
      case Unusable(_) => true
  }

  lemma EffectFits(rule: Rule, communities: seq<string>)
    ensures Fits(EffectOf(rule, communities))
  {
  }

  /** Decoding one rule more is updating with that rule's setting. */
  lemma DecodedStep(route: Route, es: seq<Effect>, n: nat)
    requires n < |es| && Fits(es[n])
    requires es[n].setting.Some? ==> !es[n].setting.value.Unusable?
    ensures Decoded(route, es, n + 1) == if es[n].setting.Some? then Updated(Decoded(route, es, n), es[n].setting.value)
            else Decoded(route, es, n)
  {
  }

  method NormalizeRoute(route: Route, cm: Option<CommunityMap>) returns (r: Result<Candidate>)
    ensures r == Normalized(route, cm)
  {
    if route.rejected {
      return Ok(Undecoded(route).(rejected := true, reason := route.reason));
    }
    ghost var es := Effects(RulesOf(cm), route.largeCommunities);
    var folded, weightSet, anyRuleMatched := FoldRules(route, RulesOf(cm), es);
    if folded.Err? {
      return folded;
    }
    var c := folded.value;
    if !weightSet {
      c := c.(weight := FallbackWeight(c.med, cm));
    }
    if !anyRuleMatched && cm.Some? {
      match cm.value.onUnmapped {
        case Ignore =>
        case Reject => c := c.(rejected := true, reason := Unmapped(route.largeCommunities));
        case Warn => c := c.(reason := Unmapped(route.largeCommunities));
      }
    }
    return Ok(c);
  }

  ghost predicate AreEffects(rules: seq<Rule>, communities: seq<string>, es: seq<Effect>) {
    && |es| == |rules|
    && forall i {:trigger EffectOf(rules[i], communities)} :: 0 <= i < |rules| ==>
         es[i] == EffectOf(rules[i], communities)
  }

  method FoldRules(route: Route, rules: seq<Rule>, ghost es: seq<Effect>)
    returns (r: Result<Candidate>, weightSet: bool, anyRuleMatched: bool)
    requires AreEffects(rules, route.largeCommunities, es)
    ensures var objection := FirstObjection(es, |es|);
            && r == (if objection.Some? then Err(objection.value) else Ok(Decoded(route, es, |es|)))
            && (r.Ok? ==> (weightSet <==> LastHit(es, Weight, |es|).Some?) && (anyRuleMatched <==> AnyHit(es, |es|)))
  {
    var c := Undecoded(route);
    weightSet, anyRuleMatched := false, false;
    for n := 0 to |rules|
      invariant Progress(route, es, n, c, weightSet, anyRuleMatched)
    {
      var applied, matched := ApplyRule(c, rules, n, route.largeCommunities, es);
      var weightNow := weightSet || (matched && rules[n].assign.field.Weight?);
      var matchedNow := anyRuleMatched || matched;
      FoldStep(route, es, n, c, weightSet, anyRuleMatched, applied, weightNow, matchedNow);
      if applied.Err? {
        return applied, weightNow, matchedNow;
      }
      c, weightSet, anyRuleMatched := applied.value, weightNow, matchedNow;
    }
    r := Ok(c);
  }

  /** Where folding stands after the first n rules. */
  predicate Progress(route: Route, es: seq<Effect>, n: nat, c: Candidate, weightSet: bool, anyHit: bool)
    requires n <= |es|
  {
    && FirstObjection(es, n).None?
    && c == Decoded(route, es, n)
    && (weightSet <==> LastHit(es, Weight, n).Some?)
    && (anyHit <==> AnyHit(es, n))
  }

  /** What applying one effect yields. */
  function Outcome(c: Candidate, e: Effect): Result<Candidate> {
    if e.setting.None? then Ok(c)
    else if e.setting.value.Unusable? then Err(e.setting.value.error)
    else Ok(Updated(c, e.setting.value))
  }

  lemma FoldStep(route: Route, es: seq<Effect>, n: nat, c: Candidate, weightSet: bool, anyHit: bool,
                 applied: Result<Candidate>, weightNow: bool, hitNow: bool)
    requires n < |es| && Fits(es[n]) && applied == Outcome(c, es[n])
    requires Progress(route, es, n, c, weightSet, anyHit)
    requires weightNow <==> weightSet || (es[n].setting.Some? && es[n].field.Weight?)
    requires hitNow <==> anyHit || es[n].setting.Some?
    ensures applied.Err? ==> FirstObjection(es, |es|) == Some(applied.error)
    ensures applied.Ok? ==> Progress(route, es, n + 1, applied.value, weightNow, hitNow)
  {
    if applied.Err? {
      ObjectionStops(es, n + 1, |es|);
    } else {
      DecodedStep(route, es, n);
    }
  }

  method ApplyRule(c: Candidate, rules: seq<Rule>, n: nat, communities: seq<string>, ghost es: seq<Effect>)
    returns (r: Result<Candidate>, matched: bool)
    requires n < |rules| && AreEffects(rules, communities, es)
    ensures Fits(es[n]) && es[n].field == rules[n].assign.field
    ensures matched <==> es[n].setting.Some?
    ensures r == Outcome(c, es[n])
  {
    assert es[n] == EffectOf(rules[n], communities);
    EffectFits(rules[n], communities);
    var captured := FindLargeCommunity(rules[n].pattern, communities);
    if captured.None? {
      return Ok(c), false;
    }
    r := ApplyFieldSet(c, rules[n].assign, captured.value);
    matched := true;
  }

  ghost predicate AreNormalized(routes: seq<Route>, cm: Option<CommunityMap>, candidates: seq<Candidate>, n: nat)
    requires n <= |routes|
  {
    |candidates| == n && forall i :: 0 <= i < n ==> Ok(candidates[i]) == Normalized(routes[i], cm)
  }

  lemma OneMoreNormalized(routes: seq<Route>, cm: Option<CommunityMap>, candidates: seq<Candidate>, c: Candidate,
                          n: nat)
    requires n < |routes| && AreNormalized(routes, cm, candidates, n) && Ok(c) == Normalized(routes[n], cm)
    ensures AreNormalized(routes, cm, candidates + [c], n + 1)
  {
    var more := candidates + [c];
    forall i | 0 <= i < n + 1 ensures Ok(more[i]) == Normalized(routes[i], cm) {
      if i < n {
        assert more[i] == candidates[i];
      }
    }
  }

  method Normalize(routes: seq<Route>, cm: Option<CommunityMap>) returns (r: Result<seq<Candidate>>)
    ensures r.Ok? <==> forall i :: 0 <= i < |routes| ==> Normalized(routes[i], cm).Ok?
    ensures r.Ok? ==> AreNormalized(routes, cm, r.value, |routes|)
  {
    var candidates: seq<Candidate> := [];
    for n := 0 to |routes|
      invariant AreNormalized(routes, cm, candidates, n)
    {
      var c := NormalizeRoute(routes[n], cm);
      if c.Err? {
        return Err(c.error);
      }
      OneMoreNormalized(routes, cm, candidates, c.value, n);
      candidates := candidates + [c.value];
    }
    return Ok(candidates);
  }

  // ----- What folding means

  lemma {:induction false} FirstObjectionIsFirst(es: seq<Effect>, n: nat)
    requires n <= |es|
    ensures FirstObjection(es, n).Some? <==> exists i :: 0 <= i < n && Objecting(es[i])
    ensures FirstObjection(es, n).Some? ==>
              exists i :: 0 <= i < n && Objecting(es[i]) && es[i].setting.value.error == FirstObjection(es, n).value
                          && forall j :: 0 <= j < i ==> !Objecting(es[j])
  {
    if n > 0 {
      FirstObjectionIsFirst(es, n - 1);
    }
  }

  /** A rule that matches a route's communities with a text its field cannot take. */
  predicate Objects(rule: Rule, communities: seq<string>) {
    var captured := MatchLargeCommunity(rule.pattern, communities);
    captured.Some? && !Usable(rule.assign.field, TextOf(rule.assign, captured.value))
  }

  /** What a rule that objects complains about: the text it cannot use, or its field. */
  function Complaint(rule: Rule, communities: seq<string>): Error
    requires Objects(rule, communities)
  {
    var captured := MatchLargeCommunity(rule.pattern, communities).value;
    var text := if rule.assign.fromCommunityValue || rule.assign.value.None? then captured else rule.assign.value.value;
    if rule.assign.field.Weight? then BadWeight(text)
    else if rule.assign.field.Drain? then BadDrain(text)
    else if rule.assign.field.ServiceTag? then BadServiceTag(text)
    else UnknownField(if rule.assign.field.OtherField? then rule.assign.field.name else text)
  }

  lemma ObjectsExactly(rule: Rule, communities: seq<string>)
    ensures Objects(rule, communities) <==> Objecting(EffectOf(rule, communities))
    ensures Objects(rule, communities) ==>
              EffectOf(rule, communities).setting.value.error == Complaint(rule, communities)
  {
  }

  /**
   * Normalizing fails exactly if the route was accepted and some matching rule, overridden by a later
   * one or not, has a text its field cannot take; the error is that of the first such rule.
   */
  lemma FailsIffSomeRuleObjects(route: Route, cm: Option<CommunityMap>)
    ensures var r, rules := Normalized(route, cm), RulesOf(cm);
            && (r.Err? <==>
               !route.rejected && exists i :: 0 <= i < |rules| && Objects(rules[i], route.largeCommunities))
            && (r.Err? ==>
                 exists i :: 0 <= i < |rules| && Objects(rules[i], route.largeCommunities)
                             && r.error == Complaint(rules[i], route.largeCommunities)
                             && forall j :: 0 <= j < i ==> !Objects(rules[j], route.largeCommunities))
  {
    var rules := RulesOf(cm);
    var es := Effects(rules, route.largeCommunities);
    FirstObjectionIsFirst(es, |es|);
    forall i | 0 <= i < |rules|
      ensures Objects(rules[i], route.largeCommunities) <==> Objecting(es[i])
      ensures Objecting(es[i]) ==> es[i].setting.value.error == Complaint(rules[i], route.largeCommunities)
    {
      ObjectsExactly(rules[i], route.largeCommunities);
    }
  }

  /** No rule of the map matches the route. */
  ghost predicate Unmatched(route: Route, cm: CommunityMap) {
    forall i :: 0 <= i < |cm.rules| ==> MatchLargeCommunity(cm.rules[i].pattern, route.largeCommunities).None?
  }

  /**
   * A normalized route is rejected exactly if it came rejected, or if its map rejects what no rule
   * matches. An accepted route is given a reason exactly if no rule matches and its map does not ignore
   * that.
   */
  lemma RejectedExactly(route: Route, cm: Option<CommunityMap>)
    ensures var r := Normalized(route, cm);
            r.Ok? ==>
              && (r.value.rejected <==>
                   route.rejected || (cm.Some? && cm.value.onUnmapped.Reject? && Unmatched(route, cm.value)))
              && r.value.reason == (if route.rejected then route.reason
                                    else if cm.Some? && !cm.value.onUnmapped.Ignore? && Unmatched(route, cm.value)
                                    then Unmapped(route.largeCommunities) else NoReason)
  {
    var rules := RulesOf(cm);
    var es := Effects(rules, route.largeCommunities);
    if cm.Some? {
      AnyHitIff(rules, route.largeCommunities);
    }
  }

  lemma AnyHitIff(rules: seq<Rule>, communities: seq<string>)
    ensures AnyHit(Effects(rules, communities), |rules|) <==>
            exists i :: 0 <= i < |rules| && MatchLargeCommunity(rules[i].pattern, communities).Some?
  {
    var es := Effects(rules, communities);
    if i :| 0 <= i < |rules| && MatchLargeCommunity(rules[i].pattern, communities).Some? {
      assert es[i].setting.Some?;
    }
    if i :| 0 <= i < |rules| && es[i].setting.Some? {
      assert MatchLargeCommunity(rules[i].pattern, communities).Some?;
    }
  }

  /** What a candidate takes over from its route, and what a rejected route leaves undecoded. */
  lemma NormalizedCarries(route: Route, cm: Option<CommunityMap>)
    ensures var r := Normalized(route, cm);
            r.Ok? ==>
              && r.value.prefix == route.prefix && r.value.clusterID == route.clusterID
              && r.value.peer == route.peer && r.value.locality == route.locality
              && r.value.med == route.med && r.value.asPath == route.asPath
              && r.value.largeCommunities == route.largeCommunities
              && r.value.damping.None?
              && (route.rejected ==>
                   r.value.weight == 0 && r.value.tier == "" && !r.value.drain && r.value.serviceTag.None?)
  {
  }

  /** A route that no rule matches is let through under Warn, with a reason. */
  lemma WarnLetsThrough(route: Route, cm: CommunityMap)
    requires !route.rejected && cm.onUnmapped.Warn? && Unmatched(route, cm)
    ensures var r := Normalized(route, Some(cm));
            r.Ok? && !r.value.rejected && r.value.reason == Unmapped(route.largeCommunities)
  {
    FirstObjectionIsFirst(Effects(cm.rules, route.largeCommunities), |cm.rules|);
  }

  /** LastHit is the last match: it is a matching rule for the field, and no later one is. */
  lemma {:induction false} LastHitIsLast(es: seq<Effect>, field: Field, n: nat)
    requires n <= |es|
    ensures var last := LastHit(es, field, n);
            if last.None? then
              forall i :: 0 <= i < n && es[i].field == field ==> es[i].setting.None?
            else
              exists i :: 0 <= i < n && es[i].field == field && es[i].setting == last
                          && forall j :: i < j < n && es[j].field == field ==> es[j].setting.None?
  {
    if n > 0 {
      LastHitIsLast(es, field, n - 1);
    }
  }

  /** The candidate's field holds what the setting says. */
  predicate Holds(c: Candidate, s: Setting) {
    match s
    case WeightIs(w) => c.weight == w
    case TierIs(t) => c.tier == t
    case DrainIs(d) => c.drain == d
    case ServiceTagIs(tag) => c.serviceTag == Some(tag)
    case Unusable(_) => false
  }

  /**
   * The last matching rule for a field decides it, whatever earlier rules said: the field says what the
   * rule's literal stands for, or the captured value if it has none or asks for that.
   */
  lemma LastRuleDecides(route: Route, cm: CommunityMap, i: nat, captured: string)
    requires !route.rejected && i < |cm.rules|
    requires MatchLargeCommunity(cm.rules[i].pattern, route.largeCommunities) == Some(captured)
    requires forall j :: i < j < |cm.rules| && cm.rules[j].assign.field == cm.rules[i].assign.field ==>
               MatchLargeCommunity(cm.rules[j].pattern, route.largeCommunities).None?
    ensures var r, assign := Normalized(route, Some(cm)), cm.rules[i].assign;
            var text := if assign.fromCommunityValue || assign.value.None? then captured else assign.value.value;
            r.Ok? ==> Says(r.value, assign.field, text)
  {
    var es := Effects(cm.rules, route.largeCommunities);
    EffectFits(cm.rules[i], route.largeCommunities);
    LastEffectDecides(route, Some(cm), es, i);
    if Normalized(route, Some(cm)).Ok? {
      HoldsSays(Normalized(route, Some(cm)).value, cm.rules[i].assign.field, TextOf(cm.rules[i].assign, captured));
    }
  }

  lemma HoldsSays(c: Candidate, field: Field, text: string)
    requires Holds(c, Reading(field, text))
    ensures Says(c, field, text)
  {
  }

  lemma LastEffectDecides(route: Route, cm: Option<CommunityMap>, es: seq<Effect>, i: nat)
    requires i < |es| && es[i].setting.Some? && Fits(es[i])
    requires forall j :: i < j < |es| && es[j].field == es[i].field ==> es[j].setting.None?
    ensures var r := Folded(route, cm, es); r.Ok? ==> Holds(r.value, es[i].setting.value)
  {
    FirstObjectionIsFirst(es, |es|);
    LastHitIsLast(es, es[i].field, |es|);
  }

  /** The weight of last resort: from the MED if the map says so, else the map's default, else 100. */
  predicate IsFallback(med: uint32, cm: Option<CommunityMap>, weight: int) {
    && (cm.None? || cm.value.fallbacks.None? ==> weight == 100)
    && (cm.Some? && cm.value.fallbacks.Some? ==>
         var f := cm.value.fallbacks.value;
         && (f.weightFromMED ==> weight == if med < 1000 then 1000 - med else 1)
         && (!f.weightFromMED ==> weight == if f.defaultWeight == 0 then 100 else f.defaultWeight))
  }

  /**
   * A field that no rule matches for keeps its default; the weight of an accepted route then comes from
   * the fallbacks.
   */
  lemma UnmatchedFallsBack(route: Route, cm: Option<CommunityMap>, field: Field)
    requires forall i :: 0 <= i < |RulesOf(cm)| && RulesOf(cm)[i].assign.field == field ==>
               MatchLargeCommunity(RulesOf(cm)[i].pattern, route.largeCommunities).None?
    ensures var r := Normalized(route, cm);
            r.Ok? ==>
              && (field.Weight? && !route.rejected ==> IsFallback(route.med, cm, r.value.weight))
              && (field.Tier? ==> r.value.tier == "")
              && (field.Drain? ==> !r.value.drain)
              && (field.ServiceTag? ==> r.value.serviceTag.None?)
  {
    UnhitFallsBack(route, cm, Effects(RulesOf(cm), route.largeCommunities), field);
  }

  lemma UnhitFallsBack(route: Route, cm: Option<CommunityMap>, es: seq<Effect>, field: Field)
    requires forall j :: 0 <= j < |es| && es[j].field == field ==> es[j].setting.None?
    ensures var r := Folded(route, cm, es);
            r.Ok? ==>
              && (field.Weight? ==> r.value.weight == FallbackWeight(route.med, cm))
              && (field.Tier? ==> r.value.tier == "")
              && (field.Drain? ==> !r.value.drain)
              && (field.ServiceTag? ==> r.value.serviceTag.None?)
  {
    LastHitIsLast(es, field, |es|);
  }

  function Swapped<T>(s: seq<T>, i: nat): seq<T>
    requires i + 1 < |s|
  {
    s[i := s[i + 1]][i + 1 := s[i]]
  }

  lemma {:induction false} SwapKeepsLastHit(es: seq<Effect>, field: Field, i: nat, n: nat)
    requires i + 1 < |es| && n <= |es| && n != i + 1
    requires es[i].field != es[i + 1].field
    ensures LastHit(Swapped(es, i), field, n) == LastHit(es, field, n)
  {
    if n > i + 2 || 0 < n <= i {
      SwapKeepsLastHit(es, field, i, n - 1);
    } else if n == i + 2 {
      SwapKeepsLastHit(es, field, i, i);
      assert LastHit(Swapped(es, i), field, i + 1)
          == if es[i + 1].field == field && es[i + 1].setting.Some? then es[i + 1].setting else LastHit(es, field, i);
    }
  }

  function SwapIndex(i: nat, j: nat): nat {
    if j == i then i + 1 else if j == i + 1 then i else j
  }

  lemma RearrangedHits(es: seq<Effect>, s: seq<Effect>, i: nat)
    requires i + 1 < |es| == |s|
    requires forall j :: 0 <= j < |es| ==> s[SwapIndex(i, j)] == es[j]
    ensures AnyHit(es, |es|) ==> AnyHit(s, |s|)
    ensures FirstObjection(es, |es|).Some? ==> FirstObjection(s, |s|).Some?
  {
    if AnyHit(es, |es|) {
      var j :| 0 <= j < |es| && es[j].setting.Some?;
      assert s[SwapIndex(i, j)].setting.Some?;
    }
    if FirstObjection(es, |es|).Some? {
      FirstObjectionIsFirst(es, |es|);
      var j :| 0 <= j < |es| && Objecting(es[j]);
      assert Objecting(s[SwapIndex(i, j)]);
      FirstObjectionIsFirst(s, |s|);
    }
  }

  lemma SwapKeepsHits(es: seq<Effect>, i: nat)
    requires i + 1 < |es|
    ensures AnyHit(Swapped(es, i), |es|) == AnyHit(es, |es|)
    ensures FirstObjection(Swapped(es, i), |es|).Some? == FirstObjection(es, |es|).Some?
  {
    RearrangedHits(es, Swapped(es, i), i);
    RearrangedHits(Swapped(es, i), es, i);
  }

  lemma SwapKeepsFolded(route: Route, cm: Option<CommunityMap>, es: seq<Effect>, i: nat)
    requires i + 1 < |es| && es[i].field != es[i + 1].field
    ensures var x, y := Folded(route, cm, es), Folded(route, cm, Swapped(es, i));
            (x.Ok? <==> y.Ok?) && (x.Ok? ==> x == y)
  {
    SwapKeepsHits(es, i);
    SwapKeepsLastHit(es, Weight, i, |es|);
    SwapKeepsLastHit(es, Tier, i, |es|);
    SwapKeepsLastHit(es, Drain, i, |es|);
    SwapKeepsLastHit(es, ServiceTag, i, |es|);
  }

  lemma FoldedReadsNoRules(route: Route, cm: CommunityMap, rules: seq<Rule>, es: seq<Effect>)
    ensures Folded(route, Some(cm), es) == Folded(route, Some(cm.(rules := rules)), es)
  {
  }

  /** Swapping neighbouring rules for different fields keeps the result and whether there is one. */
  lemma SwapKeepsResult(route: Route, cm: CommunityMap, i: nat)
    requires i + 1 < |cm.rules| && cm.rules[i].assign.field != cm.rules[i + 1].assign.field
    ensures var x, y := Normalized(route, Some(cm)), Normalized(route, Some(cm.(rules := Swapped(cm.rules, i))));
            (x.Ok? <==> y.Ok?) && (x.Ok? ==> x == y)
  {
    var es := Effects(cm.rules, route.largeCommunities);
    assert Effects(Swapped(cm.rules, i), route.largeCommunities) == Swapped(es, i);
    SwapKeepsFolded(route, Some(cm), es, i);
    FoldedReadsNoRules(route, cm, Swapped(cm.rules, i), Swapped(es, i));
  }

  /** The MED-derived weight lies in 1..1000, prefers lower MEDs, and does so strictly below the ceiling. */
  lemma InvertMEDOrder(low: uint32, high: uint32)
    requires low <= high
    ensures 1 <= InvertMED(high) <= InvertMED(low) <= 1000
    ensures low < high && low < 999 ==> InvertMED(high) < InvertMED(low)
  {
  }

  // ----- Printing and parsing communities

  datatype LargeCommunity = LargeCommunity(asn: uint32, data1: uint32, data2: uint32)

  function Print(c: LargeCommunity): string {
    Decimal(c.asn) + ":" + Decimal(c.data1) + ":" + Decimal(c.data2)
  }

  method DecodeLargeCommunities(values: seq<LargeCommunity>) returns (communities: seq<string>)
    ensures communities == Mapped(Print, values)
  {
    communities := [];
    for n := 0 to |values|
      invariant communities == Mapped(Print, values[..n])
    {
      assert values[..n + 1] == values[..n] + [values[n]];
      MappedJoin(Print, values[..n], [values[n]]);
      communities := communities + [Print(values[n])];
    }
    assert values[..|values|] == values;
  }

  lemma DecimalHasNoColon(n: nat)
    ensures ':' !in Decimal(n)
  {
  }

  lemma DecimalInjective(m: nat, n: nat)
    ensures Decimal(m) == Decimal(n) <==> m == n
  {
    ValueOfDecimal(m);
    ValueOfDecimal(n);
  }

  function Wildcard(asn: nat, data1: nat): string {
    Decimal(asn) + ":" + Decimal(data1) + ":" + "*"
  }

  lemma PatternParts(asn: nat, data1: nat)
    ensures SplitN3(Wildcard(asn, data1), ':') == [Decimal(asn), Decimal(data1), "*"]
  {
    DecimalHasNoColon(asn);
    DecimalHasNoColon(data1);
    SplitJoin(Decimal(asn), Decimal(data1), "*", ':');
  }

  lemma CapturedExactly(asn: nat, data1: nat, c: LargeCommunity)
    ensures Captured([Decimal(asn), Decimal(data1), "*"], Print(c))
         == if c.asn == asn && c.data1 == data1 then Some(Decimal(c.data2)) else None
  {
    DecimalHasNoColon(c.asn);
    DecimalHasNoColon(c.data1);
    SplitJoin(Decimal(c.asn), Decimal(c.data1), Decimal(c.data2), ':');
    DecimalInjective(c.asn, asn);
    DecimalInjective(c.data1, data1);
  }

  /** The value of the first community with the given administrator and function. */
  function FirstValue(asn: nat, data1: nat, values: seq<LargeCommunity>): Option<uint32> {
    if values == [] then None
    else if values[0].asn == asn && values[0].data1 == data1 then Some(values[0].data2)
    else FirstValue(asn, data1, values[1..])
  }

  /**
   * Print and parse: over printed communities the pattern asn:data1:* captures the printed value of
   * the first community with exactly these two numbers, and nothing else.
   */
  lemma {:induction false} PrintedCommunitiesMatch(asn: nat, data1: nat, values: seq<LargeCommunity>)
    ensures MatchLargeCommunity(Wildcard(asn, data1), Mapped(Print, values))
         == match FirstValue(asn, data1, values) case None => None case Some(v) => Some(Decimal(v))
  {
    PatternParts(asn, data1);
    var printed := Mapped(Print, values);
    if values != [] {
      CapturedExactly(asn, data1, values[0]);
      PrintedCommunitiesMatch(asn, data1, values[1..]);
      assert printed[1..] == Mapped(Print, values[1..]);
    }
  }

  /**
   * A weight rule that takes its value from the community, whatever literal it also carries: the map
   * fails as a whole if the number does not fit an int32, and otherwise, if no later weight rule
   * matches, the weight is that number.
   */
  lemma WeightFromCommunity(route: Route, cm: CommunityMap, values: seq<LargeCommunity>, i: nat,
                            asn: nat, data1: nat, value: Option<string>)
    requires !route.rejected && route.largeCommunities == Mapped(Print, values)
    requires i < |cm.rules| && cm.rules[i] == Rule(Wildcard(asn, data1), FieldSet(Weight, value, true))
    requires FirstValue(asn, data1, values).Some?
    ensures var v, r := FirstValue(asn, data1, values).value, Normalized(route, Some(cm));
            && (v > MAX_INT32 ==> r.Err?)
            && (r.Ok? && NoLaterWeight(cm.rules, route.largeCommunities, i) ==> r.value.weight == v)
  {
    var es := Effects(cm.rules, route.largeCommunities);
    WeightEffect(values, asn, data1, value);
    WeightFolds(route, Some(cm), es, i);
  }

  lemma WeightFolds(route: Route, cm: Option<CommunityMap>, es: seq<Effect>, i: nat)
    requires i < |es| && es[i].field.Weight? && es[i].setting.Some?
             && (es[i].setting.value.Unusable? || es[i].setting.value.WeightIs?)
    ensures var r := Folded(route, cm, es);
            && (es[i].setting.value.Unusable? ==> r.Err?)
            && (r.Ok? && (forall j :: i < j < |es| && es[j].field.Weight? ==> es[j].setting.None?)
                ==> es[i].setting.value.WeightIs? && r.value.weight == es[i].setting.value.weight)
  {
    FirstObjectionIsFirst(es, |es|);
    LastHitIsLast(es, Weight, |es|);
  }

  predicate NoLaterWeight(rules: seq<Rule>, communities: seq<string>, i: nat) {
    forall j :: i < j < |rules| && rules[j].assign.field.Weight? ==> EffectOf(rules[j], communities).setting.None?
  }

  lemma WeightEffect(values: seq<LargeCommunity>, asn: nat, data1: nat, value: Option<string>)
    requires FirstValue(asn, data1, values).Some?
    ensures var v := FirstValue(asn, data1, values).value;
            EffectOf(Rule(Wildcard(asn, data1), FieldSet(Weight, value, true)), Mapped(Print, values)) ==
            Effect(Weight, Some(if v <= MAX_INT32 then WeightIs(v) else Unusable(BadWeight(Decimal(v)))))
  {
    PrintedCommunitiesMatch(asn, data1, values);
    ParsePrinted(FirstValue(asn, data1, values).value);
  }
}

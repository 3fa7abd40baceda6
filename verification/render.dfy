/** Selecting backends for a policy and rendering their EndpointSlices: internal/reconcile/render.go. */
module Render {
  import opened Types
  import opened Names

  /** The part of a selector that looks at the candidate without parsing anything. */
  predicate Admits(c: Candidate, sel: Selector) {
    && !c.rejected
    && !(c.damping.Some? && (c.damping.value.state.Dampened? || c.damping.value.state.Pending?))
    && (sel.clusterIDs == [] || c.clusterID in sel.clusterIDs)
    && (sel.serviceTag.Some? ==> c.serviceTag == sel.serviceTag)
  }

  function WithinAny(parse: Parser, ip: Address, cidrs: seq<string>): Result<bool> {
    if cidrs == [] then Ok(false)
    else
      match parse(cidrs[0])
      case None => Err(BadSelectorPrefix(cidrs[0]))
      case Some(cidr) => if cidr.network.Contains(ip) then Ok(true) else WithinAny(parse, ip, cidrs[1..])
  }

  function PrefixWithinAny(parse: Parser, prefix: string, cidrs: seq<string>): Result<bool> {
    match parse(prefix)
    case None => Err(BadRoutePrefix(prefix))
    case Some(cidr) => WithinAny(parse, cidr.ip, cidrs)
  }

  method FindPrefixWithinAny(parse: Parser, prefix: string, cidrs: seq<string>) returns (r: Result<bool>)
    ensures r == PrefixWithinAny(parse, prefix, cidrs)
  {
    var parsed := parse(prefix);
    if parsed.None? {
      return Err(BadRoutePrefix(prefix));
    }
    var ip := parsed.value.ip;
    for n := 0 to |cidrs|
      invariant WithinAny(parse, ip, cidrs) == WithinAny(parse, ip, cidrs[n..])
    {
      var network := parse(cidrs[n]);
      assert cidrs[n..][1..] == cidrs[n + 1..];
      if network.None? {
        return Err(BadSelectorPrefix(cidrs[n]));
      }
      if network.value.network.Contains(ip) {
        return Ok(true);
      }
    }
    return Ok(false);
  }

  /** Whether one candidate is selected. */
  function Chosen(parse: Parser, c: Candidate, sel: Selector): Result<bool> {
    if !Admits(c, sel) then Ok(false)
    else if sel.prefixes == [] then Ok(true)
    else PrefixWithinAny(parse, c.prefix, sel.prefixes)
  }

  function Select(parse: Parser, candidates: seq<Candidate>, sel: Selector): Result<seq<Candidate>> {
    if candidates == [] then Ok([])
    else
      var n := |candidates| - 1;
      match Select(parse, candidates[..n], sel)
      case Err(e) => Err(e)
      case Ok(front) =>
        match Chosen(parse, candidates[n], sel)
        case Err(e) => Err(e)
        case Ok(chosen) => Ok(if chosen then front + [candidates[n]] else front)
  }

  method SelectBackends(parse: Parser, candidates: seq<Candidate>, sel: Selector) returns (r: Result<seq<Candidate>>)
    ensures r == Select(parse, candidates, sel)
  {
    var selected: seq<Candidate> := [];
    for n := 0 to |candidates|
      invariant Select(parse, candidates[..n], sel) == Ok(selected)
    {
      var c := candidates[n];
      assert candidates[..n + 1][..n] == candidates[..n];
      var chosen := Admits(c, sel);
      if chosen && sel.prefixes != [] {
        var within := FindPrefixWithinAny(parse, c.prefix, sel.prefixes);
        if within.Err? {
          SelectFailsEarly(parse, candidates, sel, n + 1);
          return Err(within.error);
        }
        chosen := within.value;
      }
      if chosen {
        selected := selected + [c];
      }
    }
    assert candidates[..|candidates|] == candidates;
    return Ok(selected);
  }

  /** A failure on a prefix of the candidates is the failure on all of them. */
  lemma {:induction false} SelectFailsEarly(parse: Parser, candidates: seq<Candidate>, sel: Selector, n: nat)
    requires n <= |candidates|
    requires Select(parse, candidates[..n], sel).Err?
    ensures Select(parse, candidates, sel) == Select(parse, candidates[..n], sel)
    decreases |candidates|
  {
    if n == |candidates| {
      assert candidates[..n] == candidates;
    } else {
      var m := |candidates| - 1;
      assert candidates[..m][..n] == candidates[..n];
      SelectFailsEarly(parse, candidates[..m], sel, n);
    }
  }

  /** A selection holds exactly the candidates that are chosen one by one. */
  lemma {:induction false} SelectMembers(parse: Parser, candidates: seq<Candidate>, sel: Selector)
    ensures Select(parse, candidates, sel).Ok? <==> forall c :: c in candidates ==> Chosen(parse, c, sel).Ok?
    ensures var r := Select(parse, candidates, sel);
            r.Ok? ==> forall c :: c in r.value <==> c in candidates && Chosen(parse, c, sel) == Ok(true)
  {
    if candidates != [] {
      var n := |candidates| - 1;
      SelectMembers(parse, candidates[..n], sel);
      assert candidates == candidates[..n] + [candidates[n]];
    }
  }

  /** When every prefix in sight parses, selection cannot fail. */
  lemma {:induction false} WithinAnyParses(parse: Parser, ip: Address, cidrs: seq<string>)
    requires forall s :: s in cidrs ==> parse(s).Some?
    ensures var r := WithinAny(parse, ip, cidrs);
            r.Ok? && (r.value <==> exists s :: s in cidrs && parse(s).value.network.Contains(ip))
  {
    if cidrs != [] {
      WithinAnyParses(parse, ip, cidrs[1..]);
      assert cidrs == [cidrs[0]] + cidrs[1..];
    }
  }

  /** What a selector chooses, when the prefixes it needs parse. */
  lemma ChosenExactly(parse: Parser, c: Candidate, sel: Selector)
    requires parse(c.prefix).Some? && forall s :: s in sel.prefixes ==> parse(s).Some?
    ensures Chosen(parse, c, sel) == Ok(true) <==>
              && !c.rejected
              && (c.damping.None? || !(c.damping.value.state.Dampened? || c.damping.value.state.Pending?))
              && (|sel.clusterIDs| > 0 ==> c.clusterID in sel.clusterIDs)
              && (sel.serviceTag == None || c.serviceTag == sel.serviceTag)
              && (|sel.prefixes| > 0 ==>
                   exists s :: s in sel.prefixes && parse(s).value.network.Contains(parse(c.prefix).value.ip))
  {
    WithinAnyParses(parse, parse(c.prefix).value.ip, sel.prefixes);
  }

  // ----- EndpointSlices

  datatype EndpointSlice = EndpointSlice(
    namespace: string,
    name: string,
    labels: Labels,
    address: string,
    ipv4: bool,
    ready: bool,
    serving: bool,
    zone: Option<string>,
    forZones: seq<string>,
    port: int,
    portName: string)

  function ManagedByLabels(policy: Policy, extra: Labels): Labels {
    map[MANAGED_BY_LABEL := policy.name] + extra
  }

  function SliceLabels(policy: Policy): Labels {
    ManagedByLabels(policy, map[SERVICE_NAME_LABEL := ServiceName(policy.name)])
  }

  function SliceName(policy: Policy, c: Candidate): string {
    EndpointSliceName(ServiceName(policy.name), c.clusterID, c.prefix)
  }

  function BackendPortName(policy: Policy): string {
    if policy.appProtocol.Some? && policy.appProtocol.value != "" then policy.appProtocol.value else "backend"
  }

  function RenderSlice(parse: Parser, policy: Policy, c: Candidate): Result<EndpointSlice> {
    match parse(c.prefix)
    case None => Err(BadRoutePrefix(c.prefix))
    case Some(cidr) =>
      Ok(EndpointSlice(
        policy.namespace, SliceName(policy, c), SliceLabels(policy),
        cidr.ip.text, |cidr.ip.bits| == 32, !c.drain, true,
        if c.locality.zone == "" then None else Some(c.locality.zone),
        if c.locality.zone == "" then [] else [c.locality.zone],
        policy.port, BackendPortName(policy)))
  }

  function RenderSlices(parse: Parser, policy: Policy, selected: seq<Candidate>): (r: Result<seq<EndpointSlice>>)
    ensures r.Ok? ==> |r.value| == |selected|
    ensures r.Ok? ==> forall i :: 0 <= i < |selected| ==> Ok(r.value[i]) == RenderSlice(parse, policy, selected[i])
    ensures r.Ok? <==> forall i :: 0 <= i < |selected| ==> parse(selected[i].prefix).Some?
  {
    if selected == [] then Ok([])
    else
      var n := |selected| - 1;
      match RenderSlices(parse, policy, selected[..n])
      case Err(e) => assert !(forall i :: 0 <= i < n ==> parse(selected[..n][i].prefix).Some?); Err(e)
      case Ok(front) =>
        match RenderSlice(parse, policy, selected[n])
        case Err(e) => Err(e)
        case Ok(s) =>
          assert forall i :: 0 <= i < n ==> selected[i] == selected[..n][i];
          Ok(front + [s])
  }

  method RenderEndpointSlices(parse: Parser, policy: Policy, selected: seq<Candidate>)
    returns (r: Result<seq<EndpointSlice>>)
    ensures r == RenderSlices(parse, policy, selected)
  {
    var slices: seq<EndpointSlice> := [];
    for n := 0 to |selected|
      invariant RenderSlices(parse, policy, selected[..n]) == Ok(slices)
    {
      assert selected[..n + 1][..n] == selected[..n];
      var slice := RenderSlice(parse, policy, selected[n]);
      if slice.Err? {
        RenderFailsEarly(parse, policy, selected, n + 1);
        return Err(slice.error);
      }
      slices := slices + [slice.value];
    }
    assert selected[..|selected|] == selected;
    return Ok(slices);
  }

  lemma {:induction false} RenderFailsEarly(parse: Parser, policy: Policy, selected: seq<Candidate>, n: nat)
    requires n <= |selected| && RenderSlices(parse, policy, selected[..n]).Err?
    ensures RenderSlices(parse, policy, selected) == RenderSlices(parse, policy, selected[..n])
    decreases |selected|
  {
    if n == |selected| {
      assert selected[..n] == selected;
    } else {
      var m := |selected| - 1;
      assert selected[..m][..n] == selected[..n];
      RenderFailsEarly(parse, policy, selected[..m], n);
    }
  }

  /** The TLS modes the driver can lower; it fails on any other. */
  predicate TlsSupported(policy: Policy) {
    policy.tlsMode == "SIMPLE" || policy.tlsMode == ""
  }

  /** The EndpointSlices of one policy over a settled snapshot, the driver failing last of all. */
  function RenderPolicy(parse: Parser, policy: Policy, candidates: seq<Candidate>): Result<seq<EndpointSlice>> {
    match Select(parse, candidates, policy.selector)
    case Err(e) => Err(e)
    case Ok(selected) =>
      var slices := RenderSlices(parse, policy, selected);
      if slices.Ok? && !TlsSupported(policy) then Err(UnsupportedTls(policy.tlsMode)) else slices
  }

  method RenderObjects(parse: Parser, policy: Policy, candidates: seq<Candidate>)
    returns (r: Result<seq<EndpointSlice>>)
    ensures r == RenderPolicy(parse, policy, candidates)
  {
    var selected := SelectBackends(parse, candidates, policy.selector);
    if selected.Err? {
      return Err(selected.error);
    }
    r := RenderEndpointSlices(parse, policy, selected.value);
    if r.Ok? && !TlsSupported(policy) {
      return Err(UnsupportedTls(policy.tlsMode));
    }
  }

  /** Place i of a list of prefixes comes after one that contains the address. */
  ghost predicate HitBefore(parse: Parser, ip: Address, cidrs: seq<string>, i: nat)
    requires i <= |cidrs|
  {
    exists j :: 0 <= j < i && parse(cidrs[j]).Some? && parse(cidrs[j]).value.network.Contains(ip)
  }

  lemma {:induction false} WithinAnySucceeds(parse: Parser, ip: Address, cidrs: seq<string>)
    ensures WithinAny(parse, ip, cidrs).Ok? <==>
            forall i :: 0 <= i < |cidrs| && parse(cidrs[i]).None? ==> HitBefore(parse, ip, cidrs, i)
  {
    if cidrs != [] && parse(cidrs[0]).Some? && !parse(cidrs[0]).value.network.Contains(ip) {
      var rest := cidrs[1..];
      WithinAnySucceeds(parse, ip, rest);
      forall i | 0 <= i < |rest| ensures HitBefore(parse, ip, rest, i) <==> HitBefore(parse, ip, cidrs, i + 1) {
        if HitBefore(parse, ip, cidrs, i + 1) {
          var j :| 0 <= j < i + 1 && parse(cidrs[j]).Some? && parse(cidrs[j]).value.network.Contains(ip);
          assert rest[j - 1] == cidrs[j];
        }
        if HitBefore(parse, ip, rest, i) {
          var j :| 0 <= j < i && parse(rest[j]).Some? && parse(rest[j]).value.network.Contains(ip);
          assert cidrs[j + 1] == rest[j];
        }
      }
      forall i | 0 < i < |cidrs| ensures cidrs[i] == rest[i - 1] {
      }
    }
  }

  /**
   * A candidate can be decided exactly if the selector turns it away or has no prefixes, or if its prefix
   * parses and every prefix of the selector that does not comes after one that contains it.
   */
  lemma DecidedExactly(parse: Parser, c: Candidate, sel: Selector)
    ensures Chosen(parse, c, sel).Ok? <==>
              || !Admits(c, sel) || sel.prefixes == []
              || (&& parse(c.prefix).Some?
                  && forall i :: 0 <= i < |sel.prefixes| && parse(sel.prefixes[i]).None? ==>
                       HitBefore(parse, parse(c.prefix).value.ip, sel.prefixes, i))
  {
    if parse(c.prefix).Some? {
      WithinAnySucceeds(parse, parse(c.prefix).value.ip, sel.prefixes);
    }
  }

  /** Rendering succeeds exactly if every candidate can be decided, those chosen parse, and the TLS mode is known. */
  lemma RendersExactly(parse: Parser, policy: Policy, candidates: seq<Candidate>)
    ensures RenderPolicy(parse, policy, candidates).Ok? <==>
              && policy.tlsMode in {"SIMPLE", ""}
              && forall c :: c in candidates ==>
                   var chosen := Chosen(parse, c, policy.selector);
                   chosen.Ok? && (chosen.value ==> parse(c.prefix).Some?)
  {
    SelectMembers(parse, candidates, policy.selector);
    var selected := Select(parse, candidates, policy.selector);
    if selected.Ok? {
      forall c | c in candidates && Chosen(parse, c, policy.selector) == Ok(true)
        ensures exists i :: 0 <= i < |selected.value| && selected.value[i] == c
      {
        assert c in selected.value;
      }
    }
  }

  /** A snapshot and selector whose prefixes all parse. */
  ghost predicate Parseable(parse: Parser, policy: Policy, candidates: seq<Candidate>) {
    && (forall c :: c in candidates ==> parse(c.prefix).Some?)
    && (forall s :: s in policy.selector.prefixes ==> parse(s).Some?)
  }

  /** When every prefix in sight parses, rendering fails exactly if the driver does not know the TLS mode. */
  lemma ParseableRenders(parse: Parser, policy: Policy, candidates: seq<Candidate>)
    requires Parseable(parse, policy, candidates)
    ensures RenderPolicy(parse, policy, candidates).Ok? <==> TlsSupported(policy)
  {
    forall c | c in candidates ensures Chosen(parse, c, policy.selector).Ok? {
      WithinAnyParses(parse, parse(c.prefix).value.ip, policy.selector.prefixes);
    }
    SelectMembers(parse, candidates, policy.selector);
  }

  /**
   * Every rendered slice stands for one candidate of the snapshot that is neither rejected nor
   * suppressed nor still settling, and every such candidate the selector admits has its slice.
   */
  lemma RenderedFrom(parse: Parser, policy: Policy, candidates: seq<Candidate>, s: EndpointSlice)
    requires RenderPolicy(parse, policy, candidates).Ok?
    ensures s in RenderPolicy(parse, policy, candidates).value <==>
            exists c :: c in candidates && Chosen(parse, c, policy.selector) == Ok(true)
                        && RenderSlice(parse, policy, c) == Ok(s)
  {
    SelectMembers(parse, candidates, policy.selector);
    var selected := Select(parse, candidates, policy.selector).value;
    var slices := RenderPolicy(parse, policy, candidates).value;
    if s in slices {
      var i :| 0 <= i < |slices| && slices[i] == s;
      assert selected[i] in candidates && RenderSlice(parse, policy, selected[i]) == Ok(s);
    }
    if c :| c in candidates && Chosen(parse, c, policy.selector) == Ok(true) && RenderSlice(parse, policy, c) == Ok(s) {
      assert c in selected;
      var i :| 0 <= i < |selected| && selected[i] == c;
      assert slices[i] == s;
    }
  }

  /** The port name of a policy: what it says of its application protocol, or "backend" if it says nothing. */
  predicate NamesPort(policy: Policy, name: string) {
    if policy.appProtocol in {None, Some("")} then name == "backend" else policy.appProtocol == Some(name)
  }

  /** What an EndpointSlice says of a candidate, field by field. */
  predicate Describes(parse: Parser, policy: Policy, c: Candidate, s: EndpointSlice) {
    && parse(c.prefix).Some?
    && s.namespace == policy.namespace
    && s.name == policy.name + "-kreg-" + c.clusterID + "-" + SanitizeForName(c.prefix)
    && s.labels == map["kreg.twr.dev/managed-by" := policy.name, "kubernetes.io/service-name" := policy.name + "-kreg"]
    && s.address == parse(c.prefix).value.ip.text
    && (s.ipv4 <==> |parse(c.prefix).value.ip.bits| == 32)
    && (s.ready <==> !c.drain) && s.serving
    && (c.locality.zone == "" ==> s.zone.None? && s.forZones == [])
    && (c.locality.zone != "" ==> s.zone == Some(c.locality.zone) && s.forZones == [c.locality.zone])
    && s.port == policy.port && NamesPort(policy, s.portName)
  }

  lemma SliceDescribes(parse: Parser, policy: Policy, c: Candidate)
    ensures var r := RenderSlice(parse, policy, c);
            && (r.Ok? <==> parse(c.prefix).Some?)
            && (r.Ok? ==> Describes(parse, policy, c, r.value))
            && (r.Err? ==> r.error == BadRoutePrefix(c.prefix))
  {
    var service, rest := policy.name + "-kreg", c.clusterID + "-" + SanitizeForName(c.prefix);
    assert service + "-" + c.clusterID + "-" + SanitizeForName(c.prefix)
        == policy.name + "-kreg-" + c.clusterID + "-" + SanitizeForName(c.prefix);
  }

  /** A description leaves nothing open. */
  lemma DescribesOne(parse: Parser, policy: Policy, c: Candidate, s: EndpointSlice)
    ensures Describes(parse, policy, c, s) <==> RenderSlice(parse, policy, c) == Ok(s)
  {
    SliceDescribes(parse, policy, c);
  }

  /** What is rendered are the descriptions of the chosen candidates. */
  lemma RenderedDescribes(parse: Parser, policy: Policy, candidates: seq<Candidate>, s: EndpointSlice)
    requires RenderPolicy(parse, policy, candidates).Ok?
    ensures s in RenderPolicy(parse, policy, candidates).value <==>
            exists c :: c in candidates && Chosen(parse, c, policy.selector) == Ok(true)
              && Describes(parse, policy, c, s)
  {
    RenderedFrom(parse, policy, candidates, s);
    if s in RenderPolicy(parse, policy, candidates).value {
      var c :| c in candidates && Chosen(parse, c, policy.selector) == Ok(true)
        && RenderSlice(parse, policy, c) == Ok(s);
      DescribesOne(parse, policy, c, s);
    }
    if c :| c in candidates && Chosen(parse, c, policy.selector) == Ok(true) && Describes(parse, policy, c, s) {
      DescribesOne(parse, policy, c, s);
    }
  }

  /** Selecting goes along the list: the selection of two lists after each other is the two selections. */
  lemma {:induction false} SelectJoins(parse: Parser, a: seq<Candidate>, b: seq<Candidate>, sel: Selector)
    ensures Select(parse, a + b, sel) ==
            match Select(parse, a, sel)
            case Err(e) => Err(e)
            case Ok(x) => match Select(parse, b, sel) case Err(e) => Err(e) case Ok(y) => Ok(x + y)
  {
    if b == [] {
      assert a + b == a;
      var x := Select(parse, a, sel);
      if x.Ok? {
        assert x.value + [] == x.value;
      }
    } else {
      var n := |b| - 1;
      SelectJoins(parse, a, b[..n], sel);
      assert (a + b)[..|a + b| - 1] == a + b[..n];
      var x, y := Select(parse, a, sel), Select(parse, b[..n], sel);
      if x.Ok? && y.Ok? {
        assert x.value + y.value + [b[n]] == x.value + (y.value + [b[n]]);
      }
    }
  }

  lemma SelectOne(parse: Parser, c: Candidate, sel: Selector)
    ensures Select(parse, [c], sel) ==
            match Chosen(parse, c, sel) case Err(e) => Err(e) case Ok(b) => Ok(if b then [c] else [])
  {
    assert [c][..0] == [] && Select(parse, [], sel) == Ok([]);
    assert [] + [c] == [c];
  }

  // ----- Which error a failed rendering reports

  /** Candidate i is the first that the selector cannot decide. */
  ghost predicate UndecidedAt(parse: Parser, candidates: seq<Candidate>, sel: Selector, i: nat) {
    && i < |candidates| && Chosen(parse, candidates[i], sel).Err?
    && forall j :: 0 <= j < i ==> Chosen(parse, candidates[j], sel).Ok?
  }

  lemma {:induction false} SelectErrorIsFirst(parse: Parser, candidates: seq<Candidate>, sel: Selector, i: nat)
    requires UndecidedAt(parse, candidates, sel, i)
    ensures Select(parse, candidates, sel) == Err(Chosen(parse, candidates[i], sel).error)
  {
    SelectMembers(parse, candidates[..i], sel);
    assert Select(parse, candidates[..i], sel).Ok?;
    assert candidates[..i + 1][..i] == candidates[..i];
    assert Select(parse, candidates[..i + 1], sel) == Err(Chosen(parse, candidates[i], sel).error);
    SelectFailsEarly(parse, candidates, sel, i + 1);
  }

  /** Candidate i is the first among those chosen whose prefix does not parse. */
  ghost predicate UnreadableAt(parse: Parser, candidates: seq<Candidate>, sel: Selector, i: nat) {
    && i < |candidates| && Chosen(parse, candidates[i], sel) == Ok(true) && parse(candidates[i].prefix).None?
    && forall j :: 0 <= j < i && Chosen(parse, candidates[j], sel) == Ok(true) ==> parse(candidates[j].prefix).Some?
  }

  lemma {:induction false} RenderSlicesError(parse: Parser, policy: Policy, candidates: seq<Candidate>, i: nat)
    requires Select(parse, candidates, policy.selector).Ok?
    requires UnreadableAt(parse, candidates, policy.selector, i)
    ensures RenderSlices(parse, policy, Select(parse, candidates, policy.selector).value)
         == Err(BadRoutePrefix(candidates[i].prefix))
  {
    var sel := policy.selector;
    var a, b := candidates[..i], candidates[i + 1..];
    assert candidates == a + ([candidates[i]] + b);
    SelectJoins(parse, a, [candidates[i]] + b, sel);
    SelectJoins(parse, [candidates[i]], b, sel);
    SelectOne(parse, candidates[i], sel);
    var x, y := Select(parse, a, sel).value, Select(parse, b, sel).value;
    FirstUnreadable(parse, policy, x, candidates[i], y, a);
    assert x + ([candidates[i]] + y) == x + [candidates[i]] + y;
  }

  lemma FirstUnreadable(parse: Parser, policy: Policy, x: seq<Candidate>, c: Candidate, y: seq<Candidate>,
                        a: seq<Candidate>)
    requires Select(parse, a, policy.selector) == Ok(x) && parse(c.prefix).None?
    requires forall d :: d in a && Chosen(parse, d, policy.selector) == Ok(true) ==> parse(d.prefix).Some?
    ensures RenderSlices(parse, policy, x + [c] + y) == Err(BadRoutePrefix(c.prefix))
  {
    SelectMembers(parse, a, policy.selector);
    var all := x + [c] + y;
    assert RenderSlices(parse, policy, x).Ok?;
    assert all[..|x| + 1] == x + [c] && (x + [c])[..|x|] == x;
    RenderFailsEarly(parse, policy, all, |x| + 1);
  }

  /** Every candidate can be decided, and those chosen parse. */
  ghost predicate AllReadable(parse: Parser, candidates: seq<Candidate>, sel: Selector) {
    forall c :: c in candidates ==>
      var chosen := Chosen(parse, c, sel);
      chosen.Ok? && (chosen.value ==> parse(c.prefix).Some?)
  }

  /**
   * A failed rendering reports the first candidate that the selector cannot decide; if there is none, the
   * first chosen one whose prefix does not parse; and only then the TLS mode.
   */
  lemma RenderErrorExactly(parse: Parser, policy: Policy, candidates: seq<Candidate>, i: nat)
    ensures UndecidedAt(parse, candidates, policy.selector, i) ==>
              RenderPolicy(parse, policy, candidates) == Err(Chosen(parse, candidates[i], policy.selector).error)
    ensures Select(parse, candidates, policy.selector).Ok? && UnreadableAt(parse, candidates, policy.selector, i) ==>
              RenderPolicy(parse, policy, candidates) == Err(BadRoutePrefix(candidates[i].prefix))
    ensures AllReadable(parse, candidates, policy.selector) && policy.tlsMode !in {"SIMPLE", ""} ==>
              RenderPolicy(parse, policy, candidates) == Err(UnsupportedTls(policy.tlsMode))
  {
    if UndecidedAt(parse, candidates, policy.selector, i) {
      SelectErrorIsFirst(parse, candidates, policy.selector, i);
    }
    if Select(parse, candidates, policy.selector).Ok? && UnreadableAt(parse, candidates, policy.selector, i) {
      RenderSlicesError(parse, policy, candidates, i);
    }
    if AllReadable(parse, candidates, policy.selector) && policy.tlsMode !in {"SIMPLE", ""} {
      TlsErrorIsLast(parse, policy, candidates);
    }
  }

  lemma TlsErrorIsLast(parse: Parser, policy: Policy, candidates: seq<Candidate>)
    requires AllReadable(parse, candidates, policy.selector) && !TlsSupported(policy)
    ensures RenderPolicy(parse, policy, candidates) == Err(UnsupportedTls(policy.tlsMode))
  {
    RendersExactly(parse, policy.(tlsMode := ""), candidates);
    SameSlicesAnyTls(parse, policy, candidates);
  }

  lemma {:induction false} TlsNotInSlices(parse: Parser, policy: Policy, mode: string, selected: seq<Candidate>)
    ensures RenderSlices(parse, policy.(tlsMode := mode), selected) == RenderSlices(parse, policy, selected)
  {
    if selected != [] {
      TlsNotInSlices(parse, policy, mode, selected[..|selected| - 1]);
    }
  }

  lemma SameSlicesAnyTls(parse: Parser, policy: Policy, candidates: seq<Candidate>)
    requires RenderPolicy(parse, policy.(tlsMode := ""), candidates).Ok? && !TlsSupported(policy)
    ensures RenderPolicy(parse, policy, candidates) == Err(UnsupportedTls(policy.tlsMode))
  {
    TlsNotInSlices(parse, policy, "", Select(parse, candidates, policy.selector).value);
  }
}

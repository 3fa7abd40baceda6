/** The values that pass between KREG's pipeline stages. */
module Types {

  datatype Option<+T> = None | Some(value: T)

  datatype Result<+T> = Ok(value: T) | Err(error: Error)

  datatype Error =
    | BadRoutePrefix(prefix: string)
    | BadAllowedPrefix(prefix: string, clusterID: string)
    | BadSelectorPrefix(prefix: string)
    | BadWeight(text: string)
    | BadDrain(text: string)
    | BadServiceTag(text: string)
    | UnknownField(name: string)
    | UnsupportedTls(mode: string)

  /** Wall-clock instants in whole seconds; 0 is Go's zero time, which no real clock shows. */
  type Time = int

  /** Lengths of time in whole seconds; configuration may hold negative ones. */
  type Duration = int

  const MAX_INT32 := 0x7fff_ffff
  const MIN_INT32 := -0x8000_0000

  type uint32 = x: int | 0 <= x < 0x1_0000_0000

  /** Go's uint32(x) conversion. */
  function ToUint32(x: int): (r: uint32)
    ensures (r - x) % 0x1_0000_0000 == 0
  {
    x % 0x1_0000_0000
  }

  /** Go's wrapping int32 conversion. */
  function ToInt32(x: int): (r: int)
    ensures MIN_INT32 <= r <= MAX_INT32
    ensures MIN_INT32 <= x <= MAX_INT32 ==> r == x
    ensures (r - x) % 0x1_0000_0000 == 0
  {
    (x + 0x8000_0000) % 0x1_0000_0000 - 0x8000_0000
  }

  // ----- CIDRs, as net.ParseCIDR yields them

  /** An address is its bits: 32 of them for IPv4, 128 for IPv6. */
  datatype Address = Address(bits: seq<bool>, text: string)

  /** A network fixes the leading bits of addresses of one width. */
  datatype Network = Network(width: nat, lead: seq<bool>) {
    predicate Contains(ip: Address) {
      |ip.bits| == width && lead <= ip.bits
    }
  }

  /** An address is inside exactly if it is of the network's family and agrees with it bit by bit. */
  lemma ContainsExactly(n: Network, ip: Address)
    ensures n.Contains(ip) <==>
              && |ip.bits| == n.width && |n.lead| <= |ip.bits|
              && forall i :: 0 <= i < |n.lead| ==> ip.bits[i] == n.lead[i]
  {
  }

  datatype Cidr = Cidr(ip: Address, network: Network)

  /** The library parser is a parameter: every result holds whatever strings it accepts. */
  type Parser = string -> Option<Cidr>

  // ----- Routes and candidates

  datatype Locality = Locality(region: string, zone: string)

  const NO_LOCALITY := Locality("", "")

  /** Reasons are tags: the message text is not modelled, what it depends on is. */
  datatype Reason =
    | NoReason
    | NotAllowed(prefix: string)
    | OverBudget(clusterID: string, maxPrefixes: int)
    | Unmapped(largeCommunities: seq<string>)
    | Settling(additionDelay: Duration)
    | WithdrawnFor(ago: Duration, grace: Duration)
    | AboveReuse(score: real, reuseThreshold: int)
    | AboveSuppress(score: real, suppressThreshold: int)

  datatype Route = Route(
    prefix: string,
    clusterID: string,
    peer: string,
    locality: Locality,
    med: uint32,
    asPath: seq<uint32>,
    largeCommunities: seq<string>,
    rejected: bool,
    reason: Reason)

  datatype Candidate = Candidate(
    prefix: string,
    clusterID: string,
    peer: string,
    locality: Locality,
    med: uint32,
    asPath: seq<uint32>,
    largeCommunities: seq<string>,
    weight: int,
    tier: string,
    drain: bool,
    serviceTag: Option<int>,
    rejected: bool,
    reason: Reason,
    damping: Option<Damping>)

  /** Unset is the empty string a record holds between its creation and its first status write. */
  datatype State = Unset | Active | HoldDown | Draining | Dampened | Pending | Rejected

  datatype Damping = Damping(
    state: State,
    reason: Reason,
    score: real,
    flapCount: int,
    lastObservedAt: Time,
    withdrawnAt: Option<Time>,
    suppressedSince: Option<Time>,
    pendingSince: Option<Time>)

  datatype PriorState = PriorState(candidate: Candidate, damping: Damping)

  // ----- Configuration

  datatype ClusterBinding = ClusterBinding(
    clusterID: string,
    allowedPrefixes: seq<string>,
    maxPrefixes: Option<int>,
    locality: Locality)

  datatype DampeningConfig = DampeningConfig(
    enabled: bool,
    halfLife: Option<Duration>,
    suppressThreshold: Option<int>,
    reuseThreshold: Option<int>,
    maxSuppress: Option<Duration>)

  datatype StabilityConfig = StabilityConfig(
    withdrawalGrace: Option<Duration>,
    additionDelay: Option<Duration>,
    dampening: Option<DampeningConfig>)

  datatype Selector = Selector(prefixes: seq<string>, serviceTag: Option<int>, clusterIDs: seq<string>)

  datatype Policy = Policy(
    namespace: string,
    name: string,
    selector: Selector,
    port: int,
    appProtocol: Option<string>,
    tlsMode: string)

  // ----- Records

  datatype Attributes = Attributes(
    weight: int,
    tier: string,
    drain: bool,
    serviceTag: Option<int>,
    med: int,
    asPath: seq<int>,
    largeCommunities: seq<string>)

  datatype Stability = Stability(
    flapCount24h: int,
    dampeningPenalty: int,
    lastObservedAt: Option<Time>,
    withdrawnAt: Option<Time>,
    suppressedSince: Option<Time>,
    pendingSince: Option<Time>)

  const NO_STABILITY := Stability(0, 0, None, None, None, None)

  datatype Status = Status(
    prefix: string,
    clusterID: string,
    peer: string,
    locality: Locality,
    attributes: Attributes,
    state: State,
    reason: Reason,
    firstSeen: Option<Time>,
    lastChange: Option<Time>,
    stability: Stability,
    boundPolicies: seq<string>,
    generatedResources: seq<string>)

  const EMPTY_STATUS :=
    Status("", "", "", NO_LOCALITY, Attributes(0, "", false, None, 0, [], []), Unset, NoReason,
           None, None, NO_STABILITY, [], [])

  type Labels = map<string, string>

  const MANAGED_BY_LABEL := "kreg.twr.dev/managed-by"
  const SERVICE_NAME_LABEL := "kubernetes.io/service-name"

  /** A desired AdvertisedBackend, before the API server has seen it. */
  datatype Backend = Backend(name: string, labels: Labels, status: Status)
}

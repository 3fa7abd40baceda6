/** Object names: internal/reconcile/render.go. */
module Names {
  import opened Text

  const UNATTRIBUTED_CLUSTER_ID := "unattributed"

  function SanitizeForName(prefix: string): (s: string)
    ensures |s| == |prefix|
  {
    seq(|prefix|, i requires 0 <= i < |prefix| =>
      if prefix[i] == '.' || prefix[i] == '/' || prefix[i] == ':' then '-' else prefix[i])
  }

  /** The name segment a cluster ID becomes: routes without a cluster share one word. */
  function ClusterSegment(clusterID: string): string {
    if clusterID == "" then UNATTRIBUTED_CLUSTER_ID else clusterID
  }

  function BackendObjectName(prefix: string, clusterID: string): string {
    SanitizeForName(prefix) + "-" + ClusterSegment(clusterID)
  }

  function ServiceName(policyName: string): string {
    policyName + "-kreg"
  }

  function EndpointSliceName(serviceName: string, clusterID: string, prefix: string): string {
    serviceName + "-" + clusterID + "-" + SanitizeForName(prefix)
  }

  /** The text of an IPv4 CIDR: four numerals and a mask length. */
  datatype Ipv4Cidr = Ipv4Cidr(a: string, b: string, c: string, d: string, mask: string) {
    predicate Valid() {
      IsDigits(a) && IsDigits(b) && IsDigits(c) && IsDigits(d) && IsDigits(mask)
    }
    function Text(): string {
      a + "." + b + "." + c + "." + d + "/" + mask
    }
    function Dashed(): string {
      Join(Join(Join(Join(a, b), c), d), mask)
    }
  }

  function Join(x: string, y: string): string {
    x + "-" + y
  }

  ghost predicate IsIpv4Cidr(prefix: string) {
    exists v: Ipv4Cidr :: v.Valid() && v.Text() == prefix
  }

  lemma SanitizeDigits(s: string)
    requires IsDigits(s)
    ensures SanitizeForName(s) == s
    ensures '-' !in s
  {
  }

  lemma SanitizeIpv4(v: Ipv4Cidr)
    requires v.Valid()
    ensures SanitizeForName(v.Text()) == v.Dashed()
  {
  }

  lemma RightNested(v: Ipv4Cidr, r: string)
    ensures Join(v.Dashed(), r) == Join(v.a, Join(v.b, Join(v.c, Join(v.d, Join(v.mask, r)))))
  {
  }

  lemma LeftNested(r: string, v: Ipv4Cidr)
    ensures Join(r, v.Dashed()) == Join(Join(Join(Join(Join(r, v.a), v.b), v.c), v.d), v.mask)
  {
  }

  /** Five dashed numerals in front of any text can be read back off the front. */
  lemma DashedFront(v: Ipv4Cidr, r: string, w: Ipv4Cidr, s: string)
    requires v.Valid() && w.Valid()
    requires Join(v.Dashed(), r) == Join(w.Dashed(), s)
    ensures v == w && r == s
  {
    SanitizeDigits(v.a); SanitizeDigits(v.b); SanitizeDigits(v.c); SanitizeDigits(v.d); SanitizeDigits(v.mask);
    SanitizeDigits(w.a); SanitizeDigits(w.b); SanitizeDigits(w.c); SanitizeDigits(w.d); SanitizeDigits(w.mask);
    var v4, w4 := Join(v.mask, r), Join(w.mask, s);
    var v3, w3 := Join(v.d, v4), Join(w.d, w4);
    var v2, w2 := Join(v.c, v3), Join(w.c, w3);
    var v1, w1 := Join(v.b, v2), Join(w.b, w2);
    RightNested(v, r);
    RightNested(w, s);
    CutFront(v.a, v1, w.a, w1, '-');
    CutFront(v.b, v2, w.b, w2, '-');
    CutFront(v.c, v3, w.c, w3, '-');
    CutFront(v.d, v4, w.d, w4, '-');
    CutFront(v.mask, r, w.mask, s, '-');
  }

  /** Five dashed numerals behind any text can be read back off the end. */
  lemma DashedBack(r: string, v: Ipv4Cidr, s: string, w: Ipv4Cidr)
    requires v.Valid() && w.Valid()
    requires Join(r, v.Dashed()) == Join(s, w.Dashed())
    ensures v == w && r == s
  {
    SanitizeDigits(v.a); SanitizeDigits(v.b); SanitizeDigits(v.c); SanitizeDigits(v.d); SanitizeDigits(v.mask);
    SanitizeDigits(w.a); SanitizeDigits(w.b); SanitizeDigits(w.c); SanitizeDigits(w.d); SanitizeDigits(w.mask);
    var v1, w1 := Join(r, v.a), Join(s, w.a);
    var v2, w2 := Join(v1, v.b), Join(w1, w.b);
    var v3, w3 := Join(v2, v.c), Join(w2, w.c);
    var v4, w4 := Join(v3, v.d), Join(w3, w.d);
    LeftNested(r, v);
    LeftNested(s, w);
    CutBack(v4, v.mask, w4, w.mask, '-');
    CutBack(v3, v.d, w3, w.d, '-');
    CutBack(v2, v.c, w2, w.c, '-');
    CutBack(v1, v.b, w1, w.b, '-');
    CutBack(r, v.a, s, w.a, '-');
  }

  /**
   * Record names are uniquely decodable over IPv4: two records share a name exactly when they share
   * the prefix and the cluster segment, however many dashes and digits the cluster IDs hold. The one
   * ambiguity left is a cluster literally called "unattributed".
   */
  lemma BackendObjectNameInjective(p: string, c: string, q: string, d: string)
    requires IsIpv4Cidr(p) && IsIpv4Cidr(q)
    ensures BackendObjectName(p, c) == BackendObjectName(q, d) <==> p == q && ClusterSegment(c) == ClusterSegment(d)
  {
    var v: Ipv4Cidr :| v.Valid() && v.Text() == p;
    var w: Ipv4Cidr :| w.Valid() && w.Text() == q;
    SanitizeIpv4(v);
    SanitizeIpv4(w);
    if BackendObjectName(p, c) == BackendObjectName(q, d) {
      DashedFront(v, ClusterSegment(c), w, ClusterSegment(d));
    }
  }

  /** Within one service, EndpointSlice names are injective over IPv4, whatever the cluster IDs hold. */
  lemma EndpointSliceNameInjective(service: string, c: string, p: string, d: string, q: string)
    requires IsIpv4Cidr(p) && IsIpv4Cidr(q)
    ensures EndpointSliceName(service, c, p) == EndpointSliceName(service, d, q) <==> c == d && p == q
  {
    var v: Ipv4Cidr :| v.Valid() && v.Text() == p;
    var w: Ipv4Cidr :| w.Valid() && w.Text() == q;
    SanitizeIpv4(v);
    SanitizeIpv4(w);
    if EndpointSliceName(service, c, p) == EndpointSliceName(service, d, q) {
      var r, s := service + "-" + c, service + "-" + d;
      DashedBack(r, v, s, w);
      assert c == r[|service| + 1..] && d == s[|service| + 1..];
    }
  }

  /** One name segment swallows the separator: its prefix goes on where the shorter one has its cluster ID. */
  ghost predicate Absorbs(short: string, c: string, long: string, d: string) {
    exists rest: string :: long == Join(short, rest) && c == Join(rest, d)
  }

  /**
   * When two record names collide, exactly, over prefixes of any kind: the sanitized prefixes and the
   * cluster segments agree, or one cluster segment begins with what the other prefix has over its own.
   */
  lemma BackendObjectNameCollides(p: string, c: string, q: string, d: string)
    ensures BackendObjectName(p, c) == BackendObjectName(q, d) <==>
              || (SanitizeForName(p) == SanitizeForName(q) && ClusterSegment(c) == ClusterSegment(d))
              || Absorbs(SanitizeForName(p), ClusterSegment(c), SanitizeForName(q), ClusterSegment(d))
              || Absorbs(SanitizeForName(q), ClusterSegment(d), SanitizeForName(p), ClusterSegment(c))
  {
    var x, y, u, v := SanitizeForName(p), SanitizeForName(q), ClusterSegment(c), ClusterSegment(d);
    if Join(x, u) == Join(y, v) {
      JoinsEqual(x, u, y, v);
    }
    if Absorbs(x, u, y, v) {
      var rest :| y == Join(x, rest) && u == Join(rest, v);
      JoinAssociative(x, rest, v);
    }
    if Absorbs(y, v, x, u) {
      var rest :| x == Join(y, rest) && v == Join(rest, u);
      JoinAssociative(y, rest, u);
    }
  }

  lemma JoinAssociative(x: string, y: string, z: string)
    ensures Join(Join(x, y), z) == Join(x, Join(y, z))
  {
  }

  lemma JoinsEqual(x: string, u: string, y: string, v: string)
    requires Join(x, u) == Join(y, v)
    ensures (x == y && u == v) || Absorbs(x, u, y, v) || Absorbs(y, v, x, u)
  {
    if |x| == |y| {
      assert x == Join(x, u)[..|x|] && y == Join(y, v)[..|x|];
      assert u == Join(x, u)[|x| + 1..] && v == Join(y, v)[|x| + 1..];
    } else if |x| < |y| {
      ShorterAbsorbs(x, u, y, v);
    } else {
      ShorterAbsorbs(y, v, x, u);
    }
  }

  lemma ShorterAbsorbs(x: string, u: string, y: string, v: string)
    requires Join(x, u) == Join(y, v) && |x| < |y|
    ensures Absorbs(x, u, y, v)
  {
    var whole, rest := Join(x, u), y[|x| + 1..];
    assert x == whole[..|x|] && u == whole[|x| + 1..] && whole[|x|] == '-';
    assert y == whole[..|y|] && v == whole[|y| + 1..] && whole[|y|] == '-';
    assert y == Join(x, rest);
    assert u == Join(rest, v);
  }

  /** So an IPv4 host of one cluster and an IPv6 host of another can be written to the same record. */
  lemma DualStackNamesCollide()
    ensures BackendObjectName("1.2.3.4/32", "6-7-8-128-east") == BackendObjectName("1:2:3:4:32:6:7:8/128", "east")
  {
    assert SanitizeForName("1.2.3.4/32") == "1-2-3-4-32";
    assert SanitizeForName("1:2:3:4:32:6:7:8/128") == "1-2-3-4-32-6-7-8-128";
  }

  /** And so can two IPv6 hosts. */
  lemma Ipv6NamesCollide()
    ensures BackendObjectName("a::b/128", "128-x") == BackendObjectName("a::b:128/128", "x")
  {
    assert SanitizeForName("a::b/128") == "a--b-128";
    assert SanitizeForName("a::b:128/128") == "a--b-128-128";
  }

  /**
   * Two policies lay claim to one EndpointSlice name, over IPv4 prefixes, exactly when the prefixes
   * agree and the policy names with their cluster IDs run together to the same text. Cluster
   * "kreg-east" under policy "web" and cluster "east" under policy "web-kreg" do.
   */
  lemma PolicyNamesCollide(p: string, c: string, x: string, q: string, d: string, y: string)
    requires IsIpv4Cidr(x) && IsIpv4Cidr(y)
    ensures EndpointSliceName(ServiceName(p), c, x) == EndpointSliceName(ServiceName(q), d, y) <==>
            x == y && p + "-kreg-" + c == q + "-kreg-" + d
    ensures "web" + "-kreg-" + "kreg-east" == "web-kreg" + "-kreg-" + "east"
  {
    var v: Ipv4Cidr :| v.Valid() && v.Text() == x;
    var w: Ipv4Cidr :| w.Valid() && w.Text() == y;
    SanitizeIpv4(v);
    SanitizeIpv4(w);
    var r, s := Join(ServiceName(p), c), Join(ServiceName(q), d);
    assert r == p + "-kreg-" + c && s == q + "-kreg-" + d;
    if EndpointSliceName(ServiceName(p), c, x) == EndpointSliceName(ServiceName(q), d, y) {
      DashedBack(r, v, s, w);
    }
  }

  /** The record name that the design document spells out. */
  lemma RecordNameBySample()
    ensures BackendObjectName("198.51.100.10/32", "atl-1") == "198-51-100-10-32-atl-1"
  {
    assert SanitizeForName("198.51.100.10/32") == "198-51-100-10-32";
  }

  /** The record name of a route without a cluster. */
  lemma UnattributedNameBySample()
    ensures BackendObjectName("::1/128", "") == "--1-128-unattributed"
  {
    assert SanitizeForName("::1/128") == "--1-128";
  }
}

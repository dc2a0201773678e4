/** The proxy configuration built for the candidate endpoints
    (build_xray_config_json) and the port each probe later connects to.
    Candidate i gets a local HTTP inbound on 127.0.0.1 at port 10800 + i,
    a WireGuard outbound whose peer is the candidate, and a routing rule
    joining the two; all other traffic for DNS goes to a direct outbound. */
module XrayConfig {
  import opened Wrappers
  import opened Seqs
  import opened Decimal
  import opened WarpParams

  /** First local port; candidate i listens on CoreInitPort + i. */
  const CoreInitPort: nat := 10800
  const LoopbackAddress: string := "127.0.0.1"
  const InboundTimeout: nat := 120
  const DirectTag: string := "direct"
  const KeepAlive: nat := 25
  const Mtu: nat := 1280
  /** The fixed IPv4 address of the WARP client interface. */
  const ClientIpv4: string := "172.16.0.2/32"
  const DnsServers: seq<string> := ["1.1.1.1", "8.8.8.8", "1.0.0.1"]
  /** The largest TCP port number. */
  const MaxPort: nat := 65535

  function LocalPort(i: nat): nat {
    CoreInitPort + i
  }

  /** `f"http-in-{i+1}"` */
  function InboundTag(i: nat): string {
    "http-in-" + Str(i + 1)
  }

  /** `f"proxy-{i+1}"` */
  function OutboundTag(i: nat): string {
    "proxy-" + Str(i + 1)
  }

  /** An HTTP proxy listener. */
  datatype Inbound = Inbound(listen: string, port: nat, tag: string, timeout: nat)

  datatype Peer = Peer(publicKey: string, endpoint: string, keepAlive: nat)

  /** The direct ("freedom") outbound, or a WireGuard tunnel to one peer. */
  datatype Outbound =
    | Freedom(tag: string)
    | Wireguard(tag: string, secretKey: string, addresses: seq<string>, peer: Peer, mtu: nat, reserved: seq<nat>)

  /** A routing rule sends traffic of the listed protocols, or arriving on
      the listed inbounds, to one outbound. */
  datatype Rule =
    | ProtocolRule(protocols: seq<string>, outboundTag: string)
    | InboundRule(inboundTags: seq<string>, outboundTag: string)

  /** The parts of the configuration that depend on the candidates, plus
      the DNS servers; the log file paths are left out. */
  datatype Config = Config(dnsServers: seq<string>, inbounds: seq<Inbound>, outbounds: seq<Outbound>, rules: seq<Rule>)

  /** The listener of candidate i. */
  function InboundFor(i: nat): Inbound {
    Inbound(LoopbackAddress, LocalPort(i), InboundTag(i), InboundTimeout)
  }

  /** The tunnel of candidate i, through the given endpoint. */
  function OutboundFor(i: nat, endpoint: string, params: Params): Outbound {
    Wireguard(OutboundTag(i), params.privateKey, [ClientIpv4, params.ipv6],
              Peer(params.publicKey, endpoint, KeepAlive), Mtu, params.reserved)
  }

  /** The rule of candidate i. */
  function RuleFor(i: nat): Rule {
    InboundRule([InboundTag(i)], OutboundTag(i))
  }

  /** What build_xray_config_json promises for the candidate list: one
      inbound per candidate, the direct outbound and the DNS rule first,
      then one outbound and one rule per candidate, all in candidate order. */
  predicate Describes(c: Config, candidates: seq<string>, params: Params) {
    && c.dnsServers == DnsServers
    && |c.inbounds| == |candidates|
    && |c.outbounds| == |candidates| + 1
    && |c.rules| == |candidates| + 1
    && c.outbounds[0] == Freedom(DirectTag)
    && c.rules[0] == ProtocolRule(["dns"], DirectTag)
    && (forall i :: 0 <= i < |candidates| ==> c.inbounds[i] == InboundFor(i))
    && (forall i :: 0 <= i < |candidates| ==> c.outbounds[i + 1] == OutboundFor(i, candidates[i], params))
    && (forall i :: 0 <= i < |candidates| ==> c.rules[i + 1] == RuleFor(i))
  }

  /** build_xray_config_json: one pass over the candidates, appending an
      inbound, an outbound and a rule for each. */
  method BuildConfig(candidates: seq<string>, params: Params) returns (c: Config)
    ensures Describes(c, candidates, params)
  {
    var inbounds: seq<Inbound> := [];
    var outbounds: seq<Outbound> := [Freedom(DirectTag)];
    var rules: seq<Rule> := [ProtocolRule(["dns"], DirectTag)];
    var i := 0;
    while i < |candidates|
      invariant 0 <= i <= |candidates|
      invariant |inbounds| == i && |outbounds| == i + 1 && |rules| == i + 1
      invariant outbounds[0] == Freedom(DirectTag) && rules[0] == ProtocolRule(["dns"], DirectTag)
      invariant forall k :: 0 <= k < i ==> inbounds[k] == InboundFor(k)
      invariant forall k :: 0 <= k < i ==> outbounds[k + 1] == OutboundFor(k, candidates[k], params)
      invariant forall k :: 0 <= k < i ==> rules[k + 1] == RuleFor(k)
    {
      inbounds := inbounds + [InboundFor(i)];
      outbounds := outbounds + [OutboundFor(i, candidates[i], params)];
      rules := rules + [RuleFor(i)];
      i := i + 1;
    }
    c := Config(DnsServers, inbounds, outbounds, rules);
  }

  // ---------------------------------------------------------------------
  // Following a connection through the configuration
  // ---------------------------------------------------------------------

  /** The inbound listening on `port`, if any. */
  function InboundOnPort(c: Config, port: nat): Option<Inbound> {
    FindFirst(c.inbounds, (ib: Inbound) => ib.port == port)
  }

  /** The outbound tag of the first rule that names inbound `tag`. */
  function RouteOf(c: Config, tag: string): Option<string> {
    var r := FindFirst(c.rules, (rule: Rule) => rule.InboundRule? && tag in rule.inboundTags);
    if r.None? then None else Some(r.value.outboundTag)
  }

  /** The first outbound carrying `tag`. */
  function OutboundTagged(c: Config, tag: string): Option<Outbound> {
    FindFirst(c.outbounds, (o: Outbound) => o.tag == tag)
  }

  /** Where a connection to 127.0.0.1:`port` leaves the proxy. */
  function Resolve(c: Config, port: nat): Option<Outbound> {
    var ib := InboundOnPort(c, port);
    if ib.None? then None
    else
      var tag := RouteOf(c, ib.value.tag);
      if tag.None? then None else OutboundTagged(c, tag.value)
  }

  /** Distinct candidates get distinct tags ("http-in-" and "proxy-"
      followed by distinct numbers). */
  lemma TagsInjective(i: nat, j: nat)
    ensures InboundTag(i) == InboundTag(j) ==> i == j
    ensures OutboundTag(i) == OutboundTag(j) ==> i == j
    ensures OutboundTag(i) != DirectTag
  {
    if InboundTag(i) == InboundTag(j) {
      assert Str(i + 1) == InboundTag(i)[8..] == InboundTag(j)[8..] == Str(j + 1);
      StrInjective(i + 1, j + 1);
    }
    if OutboundTag(i) == OutboundTag(j) {
      assert Str(i + 1) == OutboundTag(i)[6..] == OutboundTag(j)[6..] == Str(j + 1);
      StrInjective(i + 1, j + 1);
    }
    assert OutboundTag(i)[0] == 'p';
  }

  /** The listener on the port of candidate i is that candidate's; no
      listener uses a port outside the candidates' range. */
  lemma InboundOnPortAt(c: Config, candidates: seq<string>, params: Params, port: nat)
    requires Describes(c, candidates, params)
    ensures InboundOnPort(c, port).Some? <==> CoreInitPort <= port < CoreInitPort + |candidates|
    ensures CoreInitPort <= port < CoreInitPort + |candidates| ==>
      InboundOnPort(c, port) == Some(InboundFor(port - CoreInitPort))
  {
    var p := (ib: Inbound) => ib.port == port;
    if CoreInitPort <= port < CoreInitPort + |candidates| {
      var i := port - CoreInitPort;
      assert p(c.inbounds[i]);
      assert forall k :: 0 <= k < i ==> !p(c.inbounds[k]);
      FindFirstAt(c.inbounds, p, i);
    } else {
      assert forall k :: 0 <= k < |c.inbounds| ==> !p(c.inbounds[k]);
    }
  }

  /** The first rule naming the inbound of candidate i is that candidate's. */
  lemma RouteOfAt(c: Config, candidates: seq<string>, params: Params, i: nat)
    requires Describes(c, candidates, params) && i < |candidates|
    ensures RouteOf(c, InboundTag(i)) == Some(OutboundTag(i))
  {
    var p := (rule: Rule) => rule.InboundRule? && InboundTag(i) in rule.inboundTags;
    forall k | 0 <= k < i + 1 ensures !p(c.rules[k]) {
      if k > 0 {
        assert c.rules[k] == RuleFor(k - 1);
        TagsInjective(k - 1, i);
        assert c.rules[k].inboundTags == [InboundTag(k - 1)];
      }
    }
    assert c.rules[i + 1] == RuleFor(i);
    assert p(c.rules[i + 1]);
    FindFirstAt(c.rules, p, i + 1);
  }

  /** The first outbound tagged like candidate i is that candidate's tunnel. */
  lemma OutboundTaggedAt(c: Config, candidates: seq<string>, params: Params, i: nat)
    requires Describes(c, candidates, params) && i < |candidates|
    ensures OutboundTagged(c, OutboundTag(i)) == Some(OutboundFor(i, candidates[i], params))
  {
    var p := (o: Outbound) => o.tag == OutboundTag(i);
    forall k | 0 <= k < i + 1 ensures !p(c.outbounds[k]) {
      if k > 0 {
        assert c.outbounds[k] == OutboundFor(k - 1, candidates[k - 1], params);
        TagsInjective(i, k - 1);
      } else {
        TagsInjective(i, 0);
      }
    }
    assert c.outbounds[i + 1] == OutboundFor(i, candidates[i], params);
    assert p(c.outbounds[i + 1]);
    FindFirstAt(c.outbounds, p, i + 1);
  }

  /** A connection to the local port of candidate i leaves through the
      WireGuard tunnel whose peer is candidate i, and a connection to any
      other port is not accepted at all. */
  lemma ResolvePort(c: Config, candidates: seq<string>, params: Params, port: nat)
    requires Describes(c, candidates, params)
    ensures Resolve(c, port).Some? <==> CoreInitPort <= port < CoreInitPort + |candidates|
    ensures CoreInitPort <= port < CoreInitPort + |candidates| ==>
      Resolve(c, port) == Some(OutboundFor(port - CoreInitPort, candidates[port - CoreInitPort], params))
  {
    InboundOnPortAt(c, candidates, params, port);
    if CoreInitPort <= port < CoreInitPort + |candidates| {
      var i := port - CoreInitPort;
      RouteOfAt(c, candidates, params, i);
      OutboundTaggedAt(c, candidates, params, i);
    }
  }

  // ---------------------------------------------------------------------
  // The probe side
  // ---------------------------------------------------------------------

  /** `f"http://127.0.0.1:{CORE_INIT_PORT + i}"`, the proxy the probe of
      candidate i goes through. */
  function ProbeProxyUrl(i: nat): (url: string)
    ensures url == "http://" + InboundFor(i).listen + ":" + Str(InboundFor(i).port)
  {
    "http://127.0.0.1:" + Str(CoreInitPort + i)
  }

  /** Distinct candidates are probed through distinct proxies. */
  lemma ProbeProxyUrlInjective(i: nat, j: nat)
    requires ProbeProxyUrl(i) == ProbeProxyUrl(j)
    ensures i == j
  {
    var n := |"http://127.0.0.1:"|;
    assert Str(CoreInitPort + i) == ProbeProxyUrl(i)[n..] == ProbeProxyUrl(j)[n..] == Str(CoreInitPort + j);
    StrInjective(CoreInitPort + i, CoreInitPort + j);
  }

  /** The probe of candidate i goes out through the tunnel to candidate i:
      the port in its proxy URL resolves to that candidate's peer. */
  lemma ProbeReachesCandidate(c: Config, candidates: seq<string>, params: Params, i: nat)
    requires Describes(c, candidates, params) && i < |candidates|
    ensures ProbeProxyUrl(i) == "http://" + LoopbackAddress + ":" + Str(LocalPort(i))
    ensures Resolve(c, LocalPort(i)).Some?
    ensures Resolve(c, LocalPort(i)).value.Wireguard?
    ensures Resolve(c, LocalPort(i)).value.peer.endpoint == candidates[i]
  {
    ResolvePort(c, candidates, params, LocalPort(i));
  }

  /** Every local port is a valid TCP port exactly when there are at most
      65535 - 10800 + 1 candidates; the configuration builder does not
      check this. */
  lemma PortsInRange(n: nat)
    ensures (forall i :: 0 <= i < n ==> LocalPort(i) <= MaxPort) <==> n <= MaxPort - CoreInitPort + 1
  {
    if n > MaxPort - CoreInitPort + 1 {
      assert LocalPort(n - 1) > MaxPort;
    }
  }
}

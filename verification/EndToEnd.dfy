/** From a node's configuration to its peers' relays. */
module EndToEnd {
  import opened Wrappers
  import opened Bits
  import opened Net
  import opened Addr
  import opened ValidateAddr
  import opened Handshake
  import opened HandshakeProgress
  import RelayTable
  import GuardSafety

  /** The network a node with secret key `key` takes in its configured subnet, and its signature. */
  function OwnNet(s: Scheme, subnet: nat, key: nat): (Network, Signature)
    requires subnet <= 0xffff
  {
    GenerateSigned(s, VpnSubnet(subnet), key)
  }

  function OwnAdvertise(s: Scheme, show: Network -> string, subnet: nat, key: nat): seq<HostAddress>
    requires subnet <= 0xffff
  {
    var (net, sig) := OwnNet(s, subnet, key);
    [HostAddress(show(net), sig)]
  }

  /** What a node with the default configuration makes of an advertise. */
  function DefaultRoutes(s: Scheme, parse: Parser, hosts: seq<HostAddress>, public: nat): seq<IpAddr> {
    Routes(Accepted(s, parse, [VPN_DEFAULT_ALLOWED], hosts, public))
  }

  lemma {:induction false} DefaultAllowedEnds()
    ensures BaseBits(VPN_DEFAULT_ALLOWED) == VPN_PREFIX_BITS
    ensures BroadcastBits(VPN_DEFAULT_ALLOWED) == VPN_PREFIX_BITS + 0x7fff_ffff_ffff_ffff_ffff
  {
    Pow2Values();
    LowIsRemainder(VPN_PREFIX_BITS, 79);
  }

  /** All of the VPN's addresses are unique local ones with one global ID (section 3.1 of RFC 4193). */
  lemma {:induction false} AllowedIsUniqueLocal(ip: IpAddr)
    requires HasAddr(VPN_DEFAULT_ALLOWED, ip)
    ensures ip.V6? && ip.v6 / 0x1_0000_0000_0000_0000_0000 == 0xfd_bda6ce654d
  {
    DefaultAllowedEnds();
  }

  lemma {:induction false} OwnNetEnds(s: Scheme, subnet: nat, key: nat)
    requires subnet <= 0xffff
    ensures var net := OwnNet(s, subnet, key).0;
            && net.addr.V6? && net.prefixLen == 64
            && BaseBits(net) == VPN_PREFIX_BITS + subnet * 0x1_0000_0000_0000_0000
            && BroadcastBits(net) == BaseBits(net) + 0xffff_ffff_ffff_ffff
  {
    var (net, sig) := OwnNet(s, subnet, key);
    SubnetBitsAreSum(subnet);
    DerivedStaysInside(VpnSubnet(subnet), sig);
    SameBaseIffHasAddr(VpnSubnet(subnet), net);
    assert BaseBits(net) == Value(Trunc(net).addr) == BaseBits(VpnSubnet(subnet));
    Pow2Values();
  }

  lemma {:induction false} SubnetWithinRange(allowed: Network, net: Network, subnet: nat)
    requires allowed.addr.V6? && net.addr.V6?
    requires BaseBits(net) == BaseBits(allowed) + subnet * 0x1_0000_0000_0000_0000
    requires BroadcastBits(net) == BaseBits(net) + 0xffff_ffff_ffff_ffff
    requires BroadcastBits(allowed) == BaseBits(allowed) + 0x7fff_ffff_ffff_ffff_ffff
    ensures Contains(allowed, net) <==> subnet <= 0x7fff
  {
  }

  /** A node's own network lies in the default range exactly when its configuration is admitted. */
  lemma {:induction false} OwnNetAllowedIffAdmitted(s: Scheme, subnet: nat, key: nat)
    requires subnet <= 0xffff
    ensures Contains(VPN_DEFAULT_ALLOWED, OwnNet(s, subnet, key).0) <==> ConfigAdmits(subnet)
  {
    DefaultAllowedEnds();
    OwnNetEnds(s, subnet, key);
    SubnetWithinRange(VPN_DEFAULT_ALLOWED, OwnNet(s, subnet, key).0, subnet);
  }

  lemma {:induction false} HonestHostIsValid(s: Scheme, show: Network -> string, parse: Parser, subnet: nat, key: nat)
    requires Ideal(s) && subnet <= 0xffff
    requires parse(show(OwnNet(s, subnet, key).0)) == Some(OwnNet(s, subnet, key).0)
    ensures ValidateAddress(s, parse, OwnAdvertise(s, show, subnet, key)[0], s.public(key)) == Valid(OwnNet(s, subnet, key).0)
  {
    RoundTrip(s, VpnSubnet(subnet), key);
  }

  /**
  An honest node's advertise never causes an error, and yields exactly its own address if its
  subnet passes the configuration check, and nothing at all otherwise.
  */
  lemma {:induction false} HonestAdvertisePassesIffAdmitted(s: Scheme, show: Network -> string, parse: Parser, subnet: nat, key: nat)
    requires Ideal(s) && subnet <= 0xffff
    requires parse(show(OwnNet(s, subnet, key).0)) == Some(OwnNet(s, subnet, key).0)
    ensures var hosts, net := OwnAdvertise(s, show, subnet, key), OwnNet(s, subnet, key).0;
            && Failures(s, parse, hosts, s.public(key)) == []
            && Accepted(s, parse, [VPN_DEFAULT_ALLOWED], hosts, s.public(key)) == (if ConfigAdmits(subnet) then [net] else [])
  {
    var (net, sig) := OwnNet(s, subnet, key);
    var hosts := OwnAdvertise(s, show, subnet, key);
    OwnNetAllowedIffAdmitted(s, subnet, key);
    HonestHostIsValid(s, show, parse, subnet, key);
    SingleHost(s, parse, VPN_DEFAULT_ALLOWED, hosts[0], s.public(key), net);
  }

  /** Nodes in different subnets have disjoint networks, whatever their keys. */
  lemma {:induction false} SubnetsAreDisjoint(s: Scheme, subnet: nat, key: nat, subnet': nat, key': nat, ip: IpAddr)
    requires subnet <= 0xffff && subnet' <= 0xffff && subnet != subnet'
    ensures !(HasAddr(OwnNet(s, subnet, key).0, ip) && HasAddr(OwnNet(s, subnet', key').0, ip))
  {
    OwnNetEnds(s, subnet, key);
    OwnNetEnds(s, subnet', key');
  }

  lemma {:induction false} DefaultIsSpecified(ip: IpAddr)
    requires HasAddr(VPN_DEFAULT_ALLOWED, ip)
    ensures !IsUnspecified(ip) && ip != RELEASED
  {
    DefaultAllowedEnds();
  }

  /** No address accepted by default can be mistaken for that of a released route guard. */
  lemma {:induction false} AcceptedIsNeverReleased(s: Scheme, parse: Parser, hosts: seq<HostAddress>, public: nat, ip: IpAddr)
    requires ip in DefaultRoutes(s, parse, hosts, public)
    ensures !IsUnspecified(ip) && ip != RELEASED && HasAddr(VPN_DEFAULT_ALLOWED, ip)
  {
    AcceptedLiesWithin(s, parse, [VPN_DEFAULT_ALLOWED], hosts, public, ip);
    DefaultIsSpecified(ip);
  }

  lemma {:induction false} HonestRoutes(s: Scheme, show: Network -> string, parse: Parser, subnet: nat, key: nat)
    requires Ideal(s) && ConfigAdmits(subnet)
    requires parse(show(OwnNet(s, subnet, key).0)) == Some(OwnNet(s, subnet, key).0)
    ensures DefaultRoutes(s, parse, OwnAdvertise(s, show, subnet, key), s.public(key)) == [OwnNet(s, subnet, key).0.addr]
  {
    HonestAdvertisePassesIffAdmitted(s, show, parse, subnet, key);
  }

  /** Two admitted honest nodes always come out of a faultless handshake with each other's address. */
  lemma {:induction false} HonestNodesConnect(s: Scheme, show: Network -> string, parse: Parser, subnets: Pair<nat>, keys: Pair<nat>, p: Setup, r: Run)
    requires Ideal(s) && ConfigAdmits(subnets.a) && ConfigAdmits(subnets.b)
    requires forall n :: parse(show(n)) == Some(n)
    requires p.joined && p.fits == Pair(true, true)
    requires p.routes.a == DefaultRoutes(s, parse, OwnAdvertise(s, show, subnets.a, keys.a), s.public(keys.a))
    requires p.routes.b == DefaultRoutes(s, parse, OwnAdvertise(s, show, subnets.b, keys.b), s.public(keys.b))
    requires FaultlessRun(p, r) && !CanProceed(p, Last(r))
    ensures Succeeded(Last(r).nodes.a) && Last(r).nodes.a.serve.routes == Some([OwnNet(s, subnets.b, keys.b).0.addr])
    ensures Succeeded(Last(r).nodes.b) && Last(r).nodes.b.serve.routes == Some([OwnNet(s, subnets.a, keys.a).0.addr])
  {
    HonestRoutes(s, show, parse, subnets.a, keys.a);
    HonestRoutes(s, show, parse, subnets.b, keys.b);
    AcceptableAdvertisesSucceed(p, r);
  }

  /** Validation keeps repetitions, so an advertise naming one address twice can panic its receiver's relay. */
  lemma {:induction false} RepeatedHostCanPanic<T>(s: Scheme, show: Network -> string, parse: Parser, subnet: nat, key: nat,
                                                   t: RelayTable.Table<T>, v: T)
      returns (steps: seq<(nat, RelayTable.Poll)>)
    requires Ideal(s) && ConfigAdmits(subnet)
    requires parse(show(OwnNet(s, subnet, key).0)) == Some(OwnNet(s, subnet, key).0)
    requires OwnNet(s, subnet, key).0.addr !in t.peerMap
    ensures var host := OwnAdvertise(s, show, subnet, key)[0];
            var ips := DefaultRoutes(s, parse, [host, host], s.public(key));
            && GuardSafety.Runs(t, ips, RelayTable.AllFresh(|ips|), v, steps)
            && GuardSafety.After(t, ips, RelayTable.AllFresh(|ips|), v, steps).panicked
  {
    var host, net := OwnAdvertise(s, show, subnet, key)[0], OwnNet(s, subnet, key).0;
    HonestHostIsValid(s, show, parse, subnet, key);
    OwnNetAllowedIffAdmitted(s, subnet, key);
    RepeatedHost(s, parse, VPN_DEFAULT_ALLOWED, host, s.public(key), net);
    WithinHasAddr(VPN_DEFAULT_ALLOWED, net);
    DefaultIsSpecified(net.addr);
    var ips := DefaultRoutes(s, parse, [host, host], s.public(key));
    assert ips == [net.addr, net.addr];
    steps := GuardSafety.RepeatedAddressPanics(t, ips, v, 0, 1);
  }
}

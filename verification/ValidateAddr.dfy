/**
Which advertised addresses a peer accepts, and that honest nodes' advertises are among them.

Parsing and printing of networks are a pair of foreign functions; the parser may fail on any text.
*/
module ValidateAddr {
  import opened Wrappers
  import opened Bits
  import opened Net
  import opened Addr

  datatype HostAddress = HostAddress(network: string, signature: seq<Byte>)

  datatype Outcome = Valid(net: Network) | Malformed | NotASignature | Rejected(verdict: Verdict)

  type Parser = string -> Option<Network>

  function ValidateAddress(s: Scheme, parse: Parser, host: HostAddress, public: nat): Outcome {
    match parse(host.network)
    case None => Malformed
    case Some(net) =>
      if |host.signature| != 64 then NotASignature
      else match VerifySigned(s, net, public, host.signature)
           case Verified => Valid(net)
           case verdict => Rejected(verdict)
  }

  predicate InAny(allowed: seq<Network>, net: Network) {
    exists i :: 0 <= i < |allowed| && Contains(allowed[i], net)
  }

  /** A network passes exactly if some allowed one, wherever in the list, has all its addresses. */
  lemma {:induction false} InAnyIff(allowed: seq<Network>, net: Network)
    ensures InAny(allowed, net) <==> exists outer :: outer in allowed && Covers(outer, net)
  {
    forall outer: Network ensures Contains(outer, net) <==> Covers(outer, net) {
      ContainsIffCovers(outer, net);
    }
    if outer :| outer in allowed && Covers(outer, net) {
      var i :| 0 <= i < |allowed| && allowed[i] == outer;
      assert Contains(allowed[i], net);
    }
  }

  /** The networks of the valid hosts within the allowed ones, in the order advertised. */
  function Accepted(s: Scheme, parse: Parser, allowed: seq<Network>, hosts: seq<HostAddress>, public: nat): seq<Network> {
    if hosts == [] then []
    else
      var rest := Accepted(s, parse, allowed, hosts[..|hosts| - 1], public);
      var last := ValidateAddress(s, parse, hosts[|hosts| - 1], public);
      if last.Valid? && InAny(allowed, last.net) then rest + [last.net] else rest
  }

  /** The failures of the invalid hosts, in the order advertised. */
  function Failures(s: Scheme, parse: Parser, hosts: seq<HostAddress>, public: nat): seq<Outcome> {
    if hosts == [] then []
    else
      var rest := Failures(s, parse, hosts[..|hosts| - 1], public);
      var last := ValidateAddress(s, parse, hosts[|hosts| - 1], public);
      if last.Valid? then rest else rest + [last]
  }

  method ValidateAddresses(s: Scheme, parse: Parser, allowed: seq<Network>, hosts: seq<HostAddress>, public: nat)
      returns (valid: seq<Network>, errors: seq<Outcome>)
    ensures valid == Accepted(s, parse, allowed, hosts, public)
    ensures errors == Failures(s, parse, hosts, public)
  {
    valid, errors := [], [];
    for i := 0 to |hosts|
      invariant valid == Accepted(s, parse, allowed, hosts[..i], public)
      invariant errors == Failures(s, parse, hosts[..i], public)
    {
      assert hosts[..i + 1][..i] == hosts[..i];
      var outcome := ValidateAddress(s, parse, hosts[i], public);
      if outcome.Valid? {
        if InAny(allowed, outcome.net) {
          valid := valid + [outcome.net];
        }
      } else {
        errors := errors + [outcome];
      }
    }
    assert hosts[..|hosts|] == hosts;
  }

  /** The routes taken from an advertise: the bare addresses of its accepted networks. */
  function Routes(nets: seq<Network>): (ips: seq<IpAddr>)
    ensures |ips| == |nets| && forall i :: 0 <= i < |nets| ==> ips[i] == nets[i].addr
  {
    seq(|nets|, i requires 0 <= i < |nets| => nets[i].addr)
  }

  ghost predicate SomeGenuine(s: Scheme, parse: Parser, hosts: seq<HostAddress>, key: nat, net: Network) {
    exists host :: host in hosts && Genuine(s, parse, host, key, net)
  }

  /** A network is accepted exactly when some host advertises it, genuinely and within bounds. */
  lemma {:induction false} AcceptedIffGenuine(s: Scheme, parse: Parser, allowed: seq<Network>, hosts: seq<HostAddress>, key: nat, net: Network)
    requires Ideal(s)
    ensures net in Accepted(s, parse, allowed, hosts, s.public(key)) <==>
            InAny(allowed, net) && SomeGenuine(s, parse, hosts, key, net)
    decreases |hosts|
  {
    if hosts != [] {
      AcceptedIffGenuine(s, parse, allowed, hosts[..|hosts| - 1], key, net);
      LastAccepted(s, parse, allowed, hosts, s.public(key), net);
      LastGenuine(s, parse, hosts, key, net);
    }
  }

  /** An address becomes a route exactly when some host carries it genuinely, in a network within bounds. */
  lemma {:induction false} RoutedIffGenuine(s: Scheme, parse: Parser, allowed: seq<Network>, hosts: seq<HostAddress>, key: nat, ip: IpAddr)
    requires Ideal(s)
    ensures ip in Routes(Accepted(s, parse, allowed, hosts, s.public(key))) <==>
            exists net: Network :: net.addr == ip && InAny(allowed, net) && SomeGenuine(s, parse, hosts, key, net)
  {
    var nets := Accepted(s, parse, allowed, hosts, s.public(key));
    RoutesOfNets(nets, ip);
    forall net: Network
      ensures net in nets <==> InAny(allowed, net) && SomeGenuine(s, parse, hosts, key, net)
    {
      AcceptedIffGenuine(s, parse, allowed, hosts, key, net);
    }
  }

  lemma {:induction false} RoutesOfNets(nets: seq<Network>, ip: IpAddr)
    ensures ip in Routes(nets) <==> exists net: Network :: net in nets && net.addr == ip
  {
    if net: Network :| net in nets && net.addr == ip {
      var i :| 0 <= i < |nets| && nets[i] == net;
      assert Routes(nets)[i] == ip;
    }
    if ip in Routes(nets) {
      var i :| 0 <= i < |nets| && nets[i].addr == ip;
      assert nets[i] in nets;
    }
  }

  lemma {:induction false} LastGenuine(s: Scheme, parse: Parser, hosts: seq<HostAddress>, key: nat, net: Network)
    requires Ideal(s) && hosts != []
    ensures SomeGenuine(s, parse, hosts, key, net) <==>
            || SomeGenuine(s, parse, hosts[..|hosts| - 1], key, net)
            || ValidateAddress(s, parse, hosts[|hosts| - 1], s.public(key)) == Valid(net)
  {
    var front, last := hosts[..|hosts| - 1], hosts[|hosts| - 1];
    GenuineIffValid(s, parse, last, key, net);
    assert forall host :: host in hosts <==> host in front || host == last;
  }

  lemma {:induction false} LastAccepted(s: Scheme, parse: Parser, allowed: seq<Network>, hosts: seq<HostAddress>, public: nat, net: Network)
    requires hosts != []
    ensures net in Accepted(s, parse, allowed, hosts, public) <==>
            || net in Accepted(s, parse, allowed, hosts[..|hosts| - 1], public)
            || (InAny(allowed, net) && ValidateAddress(s, parse, hosts[|hosts| - 1], public) == Valid(net))
  {
  }

  /** The host carries `net` with exactly the address and signature its key's owner generates. */
  ghost predicate Genuine(s: Scheme, parse: Parser, host: HostAddress, key: nat, net: Network) {
    && parse(host.network) == Some(net)
    && |host.signature| == 64
    && GenerateSigned(s, Trunc(net), key) == (net, host.signature)
  }

  lemma {:induction false} GenuineIffValid(s: Scheme, parse: Parser, host: HostAddress, key: nat, net: Network)
    requires Ideal(s)
    ensures Genuine(s, parse, host, key, net) <==> ValidateAddress(s, parse, host, s.public(key)) == Valid(net)
  {
    if |host.signature| == 64 {
      AcceptedIffGenerated(s, net, key, host.signature);
    }
  }

  /** Why a host fails: unreadable, no signature, not the key's signature, or not for this address. */
  lemma {:induction false} FailureIsExplained(s: Scheme, parse: Parser, host: HostAddress, key: nat)
    requires Ideal(s)
    ensures var outcome := ValidateAddress(s, parse, host, s.public(key));
            match parse(host.network)
            case None => outcome == Malformed
            case Some(net) =>
              var (net', sig') := GenerateSigned(s, Trunc(net), key);
              outcome ==
              if |host.signature| != 64 then NotASignature
              else if host.signature != sig' then Rejected(BadSignature)
              else if net != net' then Rejected(WrongAddress)
              else Valid(net)
  {
    if parse(host.network).Some? {
      TruncIsStable(parse(host.network).value);
    }
  }

  lemma {:induction false} OneHost(s: Scheme, parse: Parser, allowed: seq<Network>, host: HostAddress, public: nat)
    ensures var outcome := ValidateAddress(s, parse, host, public);
            && Failures(s, parse, [host], public) == (if outcome.Valid? then [] else [outcome])
            && Accepted(s, parse, allowed, [host], public) ==
               if outcome.Valid? && InAny(allowed, outcome.net) then [outcome.net] else []
  {
    assert [host][..0] == [];
  }

  /** Hosts are judged one by one, and the accepted networks keep their order. */
  lemma {:induction false} AcceptedAppend(s: Scheme, parse: Parser, allowed: seq<Network>, a: seq<HostAddress>, b: seq<HostAddress>, public: nat)
    ensures Accepted(s, parse, allowed, a + b, public) ==
            Accepted(s, parse, allowed, a, public) + Accepted(s, parse, allowed, b, public)
    decreases |b|
  {
    if b == [] {
      assert a + b == a;
    } else {
      var front, last := b[..|b| - 1], b[|b| - 1];
      AcceptedAppend(s, parse, allowed, a, front, public);
      assert (a + b)[..|a + b| - 1] == a + front && (a + b)[|a + b| - 1] == last;
    }
  }

  /** And so do the failures. */
  lemma {:induction false} FailuresAppend(s: Scheme, parse: Parser, a: seq<HostAddress>, b: seq<HostAddress>, public: nat)
    ensures Failures(s, parse, a + b, public) == Failures(s, parse, a, public) + Failures(s, parse, b, public)
    decreases |b|
  {
    if b == [] {
      assert a + b == a;
    } else {
      var front, last := b[..|b| - 1], b[|b| - 1];
      FailuresAppend(s, parse, a, front, public);
      assert (a + b)[..|a + b| - 1] == a + front && (a + b)[|a + b| - 1] == last;
    }
  }

  /** An advertise of a single valid host. */
  lemma {:induction false} SingleHost(s: Scheme, parse: Parser, allowed: Network, host: HostAddress, public: nat, net: Network)
    requires ValidateAddress(s, parse, host, public) == Valid(net)
    ensures Failures(s, parse, [host], public) == []
    ensures Accepted(s, parse, [allowed], [host], public) == if Contains(allowed, net) then [net] else []
  {
    assert [host][..0] == [];
    assert [allowed][0] == allowed;
  }

  /** Advertising one valid host twice: nothing removes the repetition. */
  lemma {:induction false} RepeatedHost(s: Scheme, parse: Parser, allowed: Network, host: HostAddress, public: nat, net: Network)
    requires ValidateAddress(s, parse, host, public) == Valid(net) && Contains(allowed, net)
    ensures Routes(Accepted(s, parse, [allowed], [host, host], public)) == [net.addr, net.addr]
  {
    assert [host, host][..1] == [host];
    SingleHost(s, parse, allowed, host, public, net);
    assert [allowed][0] == allowed;
    assert Accepted(s, parse, [allowed], [host, host], public) == [net, net];
  }

  lemma {:induction false} AcceptedIsAllowed(s: Scheme, parse: Parser, allowed: seq<Network>, hosts: seq<HostAddress>, public: nat, net: Network)
    requires net in Accepted(s, parse, allowed, hosts, public)
    ensures InAny(allowed, net)
    decreases |hosts|
  {
    LastAccepted(s, parse, allowed, hosts, public, net);
    if !InAny(allowed, net) {
      AcceptedIsAllowed(s, parse, allowed, hosts[..|hosts| - 1], public, net);
    }
  }

  lemma {:induction false} WithinHasAddr(outer: Network, net: Network)
    requires Contains(outer, net)
    ensures HasAddr(outer, net.addr)
  {
  }

  /** Every route taken from an advertise lies in an allowed network, whoever signed it. */
  lemma {:induction false} AcceptedLiesWithin(s: Scheme, parse: Parser, allowed: seq<Network>, hosts: seq<HostAddress>, public: nat, ip: IpAddr)
    requires ip in Routes(Accepted(s, parse, allowed, hosts, public))
    ensures exists i :: 0 <= i < |allowed| && HasAddr(allowed[i], ip)
  {
    var nets := Accepted(s, parse, allowed, hosts, public);
    var j :| 0 <= j < |nets| && nets[j].addr == ip;
    AcceptedIsAllowed(s, parse, allowed, hosts, public, nets[j]);
    var i :| 0 <= i < |allowed| && Contains(allowed[i], nets[j]);
    WithinHasAddr(allowed[i], nets[j]);
  }

  // ----- The VPN's own networks -----

  const VPN_PREFIX_BITS: U128 := 0xfdbd_a6ce_654d_0000_0000_0000_0000_0000

  const VPN_DEFAULT_ALLOWED: Network := IpNet(V6(VPN_PREFIX_BITS), 49)

  /** 0xffff, shifted right by the one bit that the default range is longer than the prefix. */
  const MAX_SUBNET: nat := 0xffff / 2

  function SubnetBits(subnet: nat): nat {
    Or(VPN_PREFIX_BITS, subnet * 0x1_0000_0000_0000_0000)
  }

  lemma {:induction false} SubnetBitsAreSum(subnet: nat)
    requires subnet <= 0xffff
    ensures SubnetBits(subnet) == VPN_PREFIX_BITS + subnet * 0x1_0000_0000_0000_0000
    ensures Low(SubnetBits(subnet), 64) == 0
  {
    PlaceSubnet(VPN_PREFIX_BITS, subnet * 0x1_0000_0000_0000_0000);
  }

  lemma {:induction false} PlaceSubnet(base: nat, shifted: nat)
    requires base % 0x1_0000_0000_0000_0000_0000 == 0
    requires shifted % 0x1_0000_0000_0000_0000 == 0 && shifted < 0x1_0000_0000_0000_0000_0000
    ensures Or(base, shifted) == base + shifted && Low(base + shifted, 64) == 0
  {
    Pow2Values();
    LowIsRemainder(base, 80);
    LowIsRemainder(shifted, 64);
    PlaceBits(base, shifted, 64, 80);
  }

  function VpnSubnet(subnet: nat): Network
    requires subnet <= 0xffff
  {
    SubnetBitsAreSum(subnet);
    IpNet(V6(SubnetBits(subnet)), 64)
  }

  /** The configuration check on a host's subnet. */
  predicate ConfigAdmits(subnet: nat) {
    subnet <= MAX_SUBNET
  }
}

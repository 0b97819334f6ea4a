/** Internet addresses and networks, as the numbers their bits spell. */
module Net {
  import opened Bits

  type U32 = x: nat | x < 0x1_0000_0000
  type U128 = x: nat | x < 0x1_0000_0000_0000_0000_0000_0000_0000_0000

  datatype IpAddr = V4(v4: U32) | V6(v6: U128)

  /** The unspecified addresses 0.0.0.0 and ::. */
  predicate IsUnspecified(ip: IpAddr): (r: bool)
    ensures r <==> Value(ip) == 0
  {
    ip in {V4(0), V6(0)}
  }

  /** The address a route guard is left with once released. */
  const RELEASED := V6(0)

  function Width(ip: IpAddr): nat {
    if ip.V4? then 32 else 128
  }

  function Value(ip: IpAddr): (x: nat)
    ensures x < Pow2(Width(ip))
  {
    Pow2Values();
    if ip.V4? then ip.v4 else ip.v6
  }

  /** The address of the same family with bits `x`. */
  function Like(ip: IpAddr, x: nat): (r: IpAddr)
    requires x < Pow2(Width(ip))
    ensures r.V4? == ip.V4? && Value(r) == x
  {
    Pow2Values();
    if ip.V4? then V4(x) else V6(x)
  }

  // ----- Networks: an address together with the length of its network part -----

  datatype IpNet = IpNet(addr: IpAddr, prefixLen: nat)

  type Network = n: IpNet | n.prefixLen <= Width(n.addr) witness IpNet(V6(0), 0)

  function HostBits(n: Network): nat {
    Width(n.addr) - n.prefixLen
  }

  function MaskOf(n: Network): nat {
    Netmask(Width(n.addr), n.prefixLen)
  }

  /** The network part of the address. */
  function BaseBits(n: Network): (x: nat)
    ensures x == Value(n.addr) - Low(Value(n.addr), HostBits(n)) && x < Pow2(Width(n.addr))
  {
    AndNetmask(Width(n.addr), n.prefixLen, Value(n.addr));
    And(Value(n.addr), MaskOf(n))
  }

  /** The last address of the network. */
  function BroadcastBits(n: Network): (x: nat)
    ensures x == BaseBits(n) + Pow2(HostBits(n)) - 1 && x < Pow2(Width(n.addr))
  {
    OrHostmask(Width(n.addr), n.prefixLen, Value(n.addr));
    Or(Value(n.addr), Not(Width(n.addr), MaskOf(n)))
  }

  function Trunc(n: Network): Network {
    IpNet(Like(n.addr, BaseBits(n)), n.prefixLen)
  }

  /** `inner` lies within `outer`. */
  predicate Contains(outer: Network, inner: Network) {
    && outer.addr.V4? == inner.addr.V4?
    && BaseBits(outer) <= BaseBits(inner) && BroadcastBits(inner) <= BroadcastBits(outer)
  }

  predicate HasAddr(n: Network, ip: IpAddr) {
    n.addr.V4? == ip.V4? && BaseBits(n) <= Value(ip) <= BroadcastBits(n)
  }

  /** A number lies in a block of `2^h` exactly when cutting its low bits off gives the block's start. */
  lemma {:induction false} InBlockIff(x: nat, y: nat, h: nat)
    ensures x - Low(x, h) <= y <= x - Low(x, h) + Pow2(h) - 1 <==> x - Low(x, h) == y - Low(y, h)
  {
    var start := x - Low(x, h);
    LowIsGone(x, h);
    if start <= y <= start + Pow2(h) - 1 {
      LowOfSum(start, y - start, h);
    }
  }

  /** Two networks of one family and length share a base exactly when one has the other's address. */
  lemma {:induction false} SameBaseIffHasAddr(n: Network, m: Network)
    requires n.addr.V4? == m.addr.V4? && n.prefixLen == m.prefixLen
    ensures HasAddr(n, m.addr) <==> Trunc(n) == Trunc(m)
  {
    InBlockIff(Value(n.addr), Value(m.addr), HostBits(n));
    assert Trunc(n) == Trunc(m) <==> BaseBits(n) == BaseBits(m);
  }

  ghost predicate Covers(outer: Network, inner: Network) {
    forall ip :: HasAddr(inner, ip) ==> HasAddr(outer, ip)
  }

  /** A network contains another exactly when it has all its addresses. */
  lemma {:induction false} ContainsIffCovers(outer: Network, inner: Network)
    ensures Contains(outer, inner) <==> Covers(outer, inner)
  {
    if Covers(outer, inner) {
      var first, last := Like(inner.addr, BaseBits(inner)), Like(inner.addr, BroadcastBits(inner));
      assert HasAddr(inner, first) && HasAddr(inner, last);
    }
  }
}

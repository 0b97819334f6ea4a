/**
Addresses derived from a signature over their network.

Ed25519 is an ideal scheme: signing is a function, and only its result verifies.
*/
module Addr {
  import opened Bits
  import opened Net

  type Byte = b: nat | b < 256
  type Signature = s: seq<Byte> | |s| == 64 witness seq(64, _ => 0)

  /** Keys are numbers; `public(k)` is the public half of secret key `k`. */
  datatype Scheme = Scheme(
    public: nat -> nat,
    sign: (nat, seq<Byte>) -> Signature,
    verifies: (nat, seq<Byte>, Signature) -> bool)

  /** Only the signer's own signature of a message verifies. */
  ghost predicate Ideal(s: Scheme) {
    forall key, msg, sig :: s.verifies(s.public(key), msg, sig) <==> sig == s.sign(key, msg)
  }

  datatype Verdict = Verified | BadSignature | WrongAddress

  // ----- Serialisation -----

  /** The `n` low bytes of `x`, most significant first. */
  function Octets(n: nat, x: nat): (s: seq<Byte>)
    ensures |s| == n
  {
    if n == 0 then [] else Octets(n - 1, x / 256) + [x % 256]
  }

  function SerializeNetwork(n: Network): seq<Byte> {
    [n.prefixLen] + Octets(if n.addr.V4? then 4 else 16, Value(n.addr))
  }

  /** The number whose low `n` bytes these are, least significant first. */
  function FromLittleEndian(s: seq<Byte>): nat {
    if s == [] then 0 else s[0] + 256 * FromLittleEndian(s[1..])
  }

  /** `x` without its `k` lowest bytes. */
  function Shifted(x: nat, k: nat): nat {
    if k == 0 then x else Shifted(x / 256, k - 1)
  }

  lemma {:induction false} OctetAt(n: nat, x: nat, i: nat)
    requires i < n
    ensures Octets(n, x)[i] == Shifted(x, n - 1 - i) % 256
  {
    if i < n - 1 {
      OctetAt(n - 1, x / 256, i);
    }
  }

  /** The message to sign: the prefix length, then the address with its most significant byte first. */
  lemma {:induction false} SerializedBytes(n: Network, i: nat)
    requires i < Width(n.addr) / 8
    ensures |SerializeNetwork(n)| == 1 + Width(n.addr) / 8 && SerializeNetwork(n)[0] == n.prefixLen
    ensures SerializeNetwork(n)[1 + i] == Shifted(Value(n.addr), Width(n.addr) / 8 - 1 - i) % 256
  {
    OctetAt(Width(n.addr) / 8, Value(n.addr), i);
  }

  lemma {:induction false} LittleEndianAt(s: seq<Byte>, i: nat)
    requires i < |s|
    ensures Shifted(FromLittleEndian(s), i) % 256 == s[i]
    decreases i
  {
    var rest := FromLittleEndian(s[1..]);
    assert (s[0] + 256 * rest) / 256 == rest && (s[0] + 256 * rest) % 256 == s[0];
    if i > 0 {
      LittleEndianAt(s[1..], i - 1);
    }
  }

  /** Cutting the number down to its low bytes is cutting the bytes. */
  lemma {:induction false} LowBytes(s: seq<Byte>, k: nat, bits: nat)
    requires k <= |s| && bits == 8 * k
    ensures Low(FromLittleEndian(s), bits) == FromLittleEndian(s[..k])
    decreases k
  {
    if k > 0 {
      assert Pow2(8) == 256;
      LowOfShifted(FromLittleEndian(s[1..]), s[0], 8, bits - 8);
      LowBytes(s[1..], k - 1, bits - 8);
      assert s[..k][1..] == s[1..][..k - 1];
    }
  }

  // ----- Derivation -----

  /** Network part from the network, host part from the entropy. */
  function Mixed(n: Network, entropy: nat): nat {
    Or(And(Value(n.addr), MaskOf(n)), And(entropy, Not(Width(n.addr), MaskOf(n))))
  }

  /** For IPv4 the broadcast address is avoided by clearing the last bit. */
  function DerivedBits(n: Network, entropy: nat): nat {
    var bits := Mixed(n, entropy);
    if n.addr.V4? && bits == BroadcastBits(n) then And(bits, Not(Width(n.addr), 1)) else bits
  }

  /** The part of the signature that is used: its first 16 bytes, cut to the width of the address. */
  function Entropy(n: Network, sig: Signature): (e: nat)
    ensures e < Pow2(Width(n.addr))
  {
    var e := FromLittleEndian(sig[..16]);
    LowIsRemainder(e, 32);
    LittleEndianBound(sig[..16], 128);
    if n.addr.V4? then Low(e, 32) else e
  }

  lemma {:induction false} LittleEndianBound(s: seq<Byte>, bits: nat)
    requires bits == 8 * |s|
    ensures FromLittleEndian(s) < Pow2(bits)
    decreases |s|
  {
    if s != [] {
      LittleEndianBound(s[1..], bits - 8);
      Pow2Add(8, bits - 8);
      assert Pow2(8) == 256;
    }
  }

  /** The entropy of an address is as many initial bytes of the signature as the address has, lowest first. */
  lemma {:induction false} EntropyIsInitialBytes(n: Network, sig: Signature, i: nat)
    requires i < Width(n.addr) / 8
    ensures Shifted(Entropy(n, sig), i) % 256 == sig[i]
  {
    var used := sig[..16];
    if n.addr.V4? {
      LowBytes(used, 4, 32);
      LittleEndianAt(used[..4], i);
    } else {
      LittleEndianAt(used, i);
    }
  }

  /** The host part the entropy selects, with the IPv4 broadcast address avoided. */
  function HostPart(n: Network, low: nat): nat {
    if n.addr.V4? && low == Pow2(HostBits(n)) - 1 && HostBits(n) > 0 then low - 1 else low
  }

  lemma {:induction false} MixedIsSum(n: Network, entropy: nat)
    requires entropy < Pow2(Width(n.addr))
    ensures Mixed(n, entropy) == BaseBits(n) + Low(entropy, HostBits(n)) <= BroadcastBits(n) < Pow2(Width(n.addr))
  {
    MixUnderMask(Width(n.addr), n.prefixLen, Value(n.addr), entropy);
  }

  /** Base plus host part, but for an odd IPv4 host network, which loses its last bit. */
  lemma {:induction false} DerivedIsSum(n: Network, entropy: nat)
    requires entropy < Pow2(Width(n.addr))
    ensures DerivedBits(n, entropy) ==
            BaseBits(n) + HostPart(n, Low(entropy, HostBits(n))) - if OddHost(n) then 1 else 0
    ensures DerivedBits(n, entropy) <= BroadcastBits(n) < Pow2(Width(n.addr))
  {
    MixedIsSum(n, entropy);
    ClearingAvoidsBroadcast(n);
    assert Low(entropy, HostBits(n)) == Pow2(HostBits(n)) - 1 <==> Mixed(n, entropy) == BroadcastBits(n);
  }

  /** Clearing the last bit of the broadcast address subtracts 1, unless that address is even. */
  lemma {:induction false} ClearingAvoidsBroadcast(n: Network)
    ensures And(BroadcastBits(n), Not(Width(n.addr), 1)) ==
            BroadcastBits(n) - if HostBits(n) > 0 || Value(n.addr) % 2 == 1 then 1 else 0
    ensures HostBits(n) == 0 ==> BroadcastBits(n) == BaseBits(n) == Value(n.addr)
  {
    var h, x := HostBits(n), BroadcastBits(n);
    AndNotOne(Width(n.addr), x);
    if h > 0 {
      BlockIsEven(Value(n.addr), h);
      assert x % 2 == 1;
    } else {
      assert x == Value(n.addr);
    }
  }

  /** The mask-based derivation is the network base plus the entropy modulo the network's size. */
  lemma {:induction false} DerivationIsArithmetic(n: Network, entropy: nat)
    requires entropy < Pow2(Width(n.addr))
    ensures DerivedBits(n, entropy) ==
            BaseBits(n) + HostPart(n, entropy % Pow2(HostBits(n))) - if OddHost(n) then 1 else 0
  {
    DerivedIsSum(n, entropy);
    LowIsRemainder(entropy, HostBits(n));
  }

  function Derive(n: Network, sig: Signature): IpAddr {
    DerivedIsSum(n, Entropy(n, sig));
    Like(n.addr, DerivedBits(n, Entropy(n, sig)))
  }

  lemma {:induction false} DeriveIsSum(n: Network, sig: Signature)
    ensures var a := Derive(n, sig);
            && a.V4? == n.addr.V4? && Value(a) <= BroadcastBits(n)
            && Value(a) == BaseBits(n) + HostPart(n, Low(Entropy(n, sig), HostBits(n))) - if OddHost(n) then 1 else 0
  {
    DerivedIsSum(n, Entropy(n, sig));
  }

  /** The networks whose derived address could leave them: IPv4 host networks of an odd address. */
  predicate OddHost(n: Network) {
    n.addr.V4? && n.prefixLen == 32 && Value(n.addr) % 2 == 1
  }

  /** Every derived address lies in its network, exactly when the network is not an odd IPv4 host. */
  lemma {:induction false} DerivedStaysInside(n: Network, sig: Signature)
    ensures HasAddr(n, Derive(n, sig)) <==> !OddHost(n)
    ensures n.prefixLen < Width(n.addr) && n.addr.V4? ==> Value(Derive(n, sig)) != BroadcastBits(n)
  {
    DeriveIsSum(n, sig);
  }

  // ----- Generating and verifying -----

  function GenerateSigned(s: Scheme, n: Network, key: nat): (Network, Signature) {
    var sig := s.sign(key, SerializeNetwork(Trunc(n)));
    (IpNet(Derive(n, sig), n.prefixLen), sig)
  }

  function VerifySigned(s: Scheme, n: Network, public: nat, sig: Signature): Verdict {
    var base := Trunc(n);
    if !s.verifies(public, SerializeNetwork(base), sig) then BadSignature
    else if n.addr != Derive(base, sig) then WrongAddress
    else Verified
  }

  /** What is generated keeps the prefix length, and its signature is the key's over the truncated network. */
  lemma {:induction false} GeneratedIsSigned(s: Scheme, n: Network, key: nat)
    requires Ideal(s)
    ensures var (net, sig) := GenerateSigned(s, n, key);
            && net.prefixLen == n.prefixLen
            && s.verifies(s.public(key), SerializeNetwork(Trunc(n)), sig)
            && (!OddHost(n) ==> Trunc(net) == Trunc(n) && s.verifies(s.public(key), SerializeNetwork(Trunc(net)), sig))
  {
    var (net, sig) := GenerateSigned(s, n, key);
    DeriveIsSum(n, sig);
    DerivedStaysInside(n, sig);
    SameBaseIffHasAddr(n, net);
  }

  lemma {:induction false} TruncIsStable(n: Network)
    ensures Trunc(Trunc(n)) == Trunc(n) && HostBits(Trunc(n)) == HostBits(n)
  {
    LowIsGone(Value(n.addr), HostBits(n));
  }

  lemma {:induction false} SameValue(a: IpAddr, b: IpAddr)
    requires a.V4? == b.V4? && Value(a) == Value(b)
    ensures a == b
  {
  }

  lemma {:induction false} DeriveIgnoresHostPart(n: Network, sig: Signature)
    ensures Derive(Trunc(n), sig) == Derive(n, sig)
  {
    TruncIsStable(n);
    DeriveIsSum(n, sig);
    DeriveIsSum(Trunc(n), sig);
    SameValue(Derive(n, sig), Derive(Trunc(n), sig));
  }

  /** A network and signature are accepted exactly when the key's owner generates them for that network. */
  lemma {:induction false} AcceptedIffGenerated(s: Scheme, n: Network, key: nat, sig: Signature)
    requires Ideal(s)
    ensures VerifySigned(s, n, s.public(key), sig) == Verified <==> GenerateSigned(s, Trunc(n), key) == (n, sig)
  {
    TruncIsStable(n);
  }

  /** A generated address verifies if its network is not an odd IPv4 host, or the signatures of two networks collide. */
  lemma {:induction false} RoundTrip(s: Scheme, n: Network, key: nat)
    requires Ideal(s)
    ensures var (net, sig) := GenerateSigned(s, n, key);
            VerifySigned(s, net, s.public(key), sig) == Verified <==>
              !OddHost(n) || s.sign(key, SerializeNetwork(Trunc(net))) == sig
  {
    var (net, sig) := GenerateSigned(s, n, key);
    DerivedStaysInside(n, sig);
    SameBaseIffHasAddr(n, net);
    DeriveIgnoresHostPart(net, sig);
    if OddHost(n) {
      EvenHostDerivesItself(n, sig);
    } else {
      DeriveIgnoresHostPart(n, sig);
    }
  }

  /** A second idealisation: a key gives different network messages different signatures. */
  ghost predicate CollisionFree(s: Scheme) {
    forall key, n: Network, m: Network {:trigger s.sign(key, SerializeNetwork(n)), s.sign(key, SerializeNetwork(m))} ::
      s.sign(key, SerializeNetwork(n)) == s.sign(key, SerializeNetwork(m)) ==> SerializeNetwork(n) == SerializeNetwork(m)
  }

  /** A generated address verifies exactly when its network is not an odd IPv4 host. */
  lemma {:induction false} RoundTripIff(s: Scheme, n: Network, key: nat)
    requires Ideal(s) && CollisionFree(s)
    ensures var (net, sig) := GenerateSigned(s, n, key);
            VerifySigned(s, net, s.public(key), sig) == Verified <==> !OddHost(n)
  {
    var (net, sig) := GenerateSigned(s, n, key);
    RoundTrip(s, n, key);
    if OddHost(n) && s.sign(key, SerializeNetwork(Trunc(net))) == sig {
      SerializationIsInjective(Trunc(net), Trunc(n));
      DerivedStaysInside(n, sig);
      SameBaseIffHasAddr(n, net);
    }
  }

  // ----- The two idealisations are consistent -----

  /** A signature that spells out the message, if it is short enough. */
  function SpelledOut(msg: seq<Byte>): Signature {
    if |msg| < 64 then msg + seq(63 - |msg|, _ => 0) + [|msg|] else seq(64, _ => 0)
  }

  lemma {:induction false} IdealSchemeExists() returns (s: Scheme)
    ensures Ideal(s) && CollisionFree(s)
  {
    s := Scheme(key => key, (_, msg) => SpelledOut(msg), (_, msg, sig) => sig == SpelledOut(msg));
    forall key: nat, n: Network, m: Network | s.sign(key, SerializeNetwork(n)) == s.sign(key, SerializeNetwork(m))
      ensures SerializeNetwork(n) == SerializeNetwork(m)
    {
      SpelledOutIsInjective(SerializeNetwork(n), SerializeNetwork(m));
    }
  }

  lemma {:induction false} SpelledOutIsInjective(msg: seq<Byte>, msg': seq<Byte>)
    requires |msg| < 64 && |msg'| < 64 && SpelledOut(msg) == SpelledOut(msg')
    ensures msg == msg'
  {
    assert SpelledOut(msg)[63] == |msg| && SpelledOut(msg')[63] == |msg'|;
    assert SpelledOut(msg)[..|msg|] == msg && SpelledOut(msg')[..|msg'|] == msg';
  }

  lemma {:induction false} HostDerivesEven(n: Network, sig: Signature)
    requires n.addr.V4? && n.prefixLen == 32
    ensures Derive(n, sig).V4? && Value(Derive(n, sig)) == Value(n.addr) - Value(n.addr) % 2
  {
    DeriveIsSum(n, sig);
  }

  /** What an odd IPv4 host network derives is an even one, which derives itself. */
  lemma {:induction false} EvenHostDerivesItself(n: Network, sig: Signature)
    requires OddHost(n)
    ensures var net: Network := IpNet(Derive(n, sig), n.prefixLen); Derive(net, sig) == net.addr
  {
    HostDerivesEven(n, sig);
    var net: Network := IpNet(Derive(n, sig), n.prefixLen);
    HostDerivesEven(net, sig);
    EvenRest(Value(n.addr));
    SameValue(Derive(net, sig), net.addr);
  }

  lemma {:induction false} EvenRest(x: nat)
    ensures (x - x % 2) % 2 == 0
  {
  }

  /** A number is determined by its last byte and the rest. */
  lemma {:induction false} ByteSplit(x: nat, y: nat)
    requires x / 256 == y / 256 && x % 256 == y % 256
    ensures x == y
  {
  }

  lemma {:induction false} OctetsInjective(n: nat, x: nat, y: nat)
    requires x < Pow2(8 * n) && y < Pow2(8 * n) && Octets(n, x) == Octets(n, y)
    ensures x == y
  {
    if n > 0 {
      ByteOfPow2(8 * (n - 1));
      OctetsSplit(n, x);
      OctetsSplit(n, y);
      OctetsInjective(n - 1, x / 256, y / 256);
      ByteSplit(x, y);
    }
  }

  lemma {:induction false} ByteOfPow2(k: nat)
    ensures Pow2(8 + k) == 256 * Pow2(k)
  {
    Pow2Add(8, k);
    assert Pow2(8) == 256;
  }

  lemma {:induction false} OctetsSplit(n: nat, x: nat)
    requires n > 0
    ensures Octets(n, x)[..n - 1] == Octets(n - 1, x / 256) && Octets(n, x)[n - 1] == x % 256
  {
  }

  /** The signed message identifies its network, across both address families. */
  lemma {:induction false} SerializationIsInjective(n: Network, m: Network)
    requires SerializeNetwork(n) == SerializeNetwork(m)
    ensures n == m
  {
    assert SerializeNetwork(n)[0] == n.prefixLen && SerializeNetwork(m)[0] == m.prefixLen;
    assert |SerializeNetwork(n)| == |SerializeNetwork(m)|;
    var bytes := if n.addr.V4? then 4 else 16;
    assert SerializeNetwork(n)[1..] == Octets(bytes, Value(n.addr));
    assert SerializeNetwork(m)[1..] == Octets(bytes, Value(m.addr));
    OctetsInjective(bytes, Value(n.addr), Value(m.addr));
  }
}

/**
Congestion marking of IP packets in place.

The header is parsed into its fields, changed, and written back from its fields, so that a bit no
field stands for is lost on the way. Which extension headers the foreign parser accepts behind the
IP header is a parameter: it may depend on the protocol number and on what follows the header.
*/
module Ecn {
  import opened Addr
  import opened Checksum

  type U2 = x: nat | x < 4
  type U6 = x: nat | x < 64
  type U13 = x: nat | x < 0x2000
  type U16 = x: nat | x < 0x1_0000
  type U20 = x: nat | x < 0x10_0000

  /** The codepoints of the two ECN bits (section 5 of RFC 3168). */
  const NOT_ECT: U2 := 0
  const CONGESTION_EXPERIENCED: U2 := 3

  datatype PacketAction = Forward | Drop

  type Extensions = (Byte, seq<Byte>) -> bool

  function FromBytes(hi: Byte, lo: Byte): U16 {
    (hi as nat) * 256 + lo
  }

  function Hi(x: U16): Byte {
    x / 256
  }

  function Lo(x: U16): Byte {
    x % 256
  }

  // ----- IPv4 (section 3.1 of RFC 791) -----

  datatype Ipv4Header = Ipv4Header(
    dscp: U6, ecn: U2, totalLen: U16, identification: U16,
    dontFragment: bool, moreFragments: bool, fragmentOffset: U13,
    ttl: Byte, protocol: Byte, checksum: U16,
    source: seq<Byte>, destination: seq<Byte>, options: seq<Byte>)

  predicate LayoutV4(b: seq<Byte>) {
    && |b| >= 20 && b[0] / 16 == 4 && b[0] % 16 >= 5
    && |b| >= HeaderLen(b)
  }

  function HeaderLen(b: seq<Byte>): nat
    requires b != []
  {
    4 * (b[0] % 16)
  }

  /** The flag bit that RFC 791 reserves. */
  predicate ReservedFlag(b: seq<Byte>)
    requires LayoutV4(b)
  {
    b[6] >= 128
  }

  lemma {:induction false} OptionsLen(words: nat)
    requires 5 <= words < 16
    ensures (4 * words - 20) % 4 == 0 && (4 * words - 20) / 4 == words - 5
  {
  }

  function ParseV4(b: seq<Byte>): (h: Ipv4Header)
    requires LayoutV4(b)
    ensures Writable(h) && |h.options| == HeaderLen(b) - 20
  {
    OptionsLen(b[0] % 16);
    Ipv4Header(
      b[1] / 4, b[1] % 4, FromBytes(b[2], b[3]), FromBytes(b[4], b[5]),
      b[6] / 64 % 2 == 1, b[6] / 32 % 2 == 1, FromBytes(b[6] % 32, b[7]),
      b[8], b[9], FromBytes(b[10], b[11]),
      b[12..16], b[16..20], b[20..HeaderLen(b)])
  }

  predicate Writable(h: Ipv4Header) {
    |h.source| == |h.destination| == 4 && |h.options| <= 40 && |h.options| % 4 == 0
  }

  function FlagByte(h: Ipv4Header): Byte {
    (if h.dontFragment then 64 else 0) + (if h.moreFragments then 32 else 0) + h.fragmentOffset / 256
  }

  function FixedBytesV4(h: Ipv4Header): (b: seq<Byte>)
    requires Writable(h)
    ensures |b| == 12
  {
    [64 + 5 + |h.options| / 4, h.dscp * 4 + h.ecn, Hi(h.totalLen), Lo(h.totalLen), Hi(h.identification), Lo(h.identification),
     FlagByte(h), h.fragmentOffset % 256, h.ttl, h.protocol, Hi(h.checksum), Lo(h.checksum)]
  }

  function VariableBytesV4(h: Ipv4Header): (b: seq<Byte>)
    requires Writable(h)
    ensures |b| == 8 + |h.options|
  {
    h.source + h.destination + h.options
  }

  function ToBytesV4(h: Ipv4Header): (b: seq<Byte>)
    requires Writable(h)
    ensures |b| == 20 + |h.options|
  {
    FixedBytesV4(h) + VariableBytesV4(h)
  }

  /** The checksum of the header as it would be written with a zero checksum field. */
  function CalcChecksum(h: Ipv4Header): U16
    requires Writable(h)
  {
    ChecksumOf(ToBytesV4(h.(checksum := 0)))
  }

  function MarkedV4(h: Ipv4Header): (m: Ipv4Header)
    requires Writable(h)
    ensures Writable(m)
  {
    var m := h.(ecn := CONGESTION_EXPERIENCED);
    m.(checksum := CalcChecksum(m))
  }

  // ----- IPv6 (section 3 of RFC 8200) -----

  datatype Ipv6Header = Ipv6Header(
    trafficClass: Byte, flowLabel: U20, payloadLen: U16, nextHeader: Byte, hopLimit: Byte,
    source: seq<Byte>, destination: seq<Byte>)

  predicate LayoutV6(b: seq<Byte>) {
    |b| >= 40 && b[0] / 16 == 6
  }

  function ParseV6(b: seq<Byte>): (h: Ipv6Header)
    requires LayoutV6(b)
    ensures |h.source| == |h.destination| == 16
  {
    Ipv6Header(
      (b[0] % 16) * 16 + b[1] / 16, (FromBytes(b[1] % 16, b[2]) as nat) * 256 + b[3],
      FromBytes(b[4], b[5]), b[6], b[7], b[8..24], b[24..40])
  }

  function FixedBytesV6(h: Ipv6Header): (b: seq<Byte>)
    ensures |b| == 8
  {
    [96 + h.trafficClass / 16, (h.trafficClass % 16) * 16 + h.flowLabel / 0x1_0000,
     h.flowLabel / 256 % 256, h.flowLabel % 256, Hi(h.payloadLen), Lo(h.payloadLen), h.nextHeader, h.hopLimit]
  }

  function ToBytesV6(h: Ipv6Header): (b: seq<Byte>)
    requires |h.source| == |h.destination| == 16
    ensures |b| == 40
  {
    FixedBytesV6(h) + (h.source + h.destination)
  }

  function MarkedV6(h: Ipv6Header): Ipv6Header {
    h.(trafficClass := h.trafficClass - h.trafficClass % 4 + CONGESTION_EXPERIENCED)
  }

  // ----- The whole packet -----

  predicate ParsesV4(ext: Extensions, b: seq<Byte>) {
    && LayoutV4(b)
    && var total := FromBytes(b[2], b[3]);
    && HeaderLen(b) <= total <= |b|
    && ext(b[9], b[HeaderLen(b)..total])
  }

  /** What the parser takes for the payload; a zero payload length stands for whatever follows the header. */
  function PayloadV6(rest: seq<Byte>, len: nat): seq<Byte>
    requires len <= |rest|
  {
    if len == 0 then rest else rest[..len]
  }

  predicate ParsesV6(ext: Extensions, b: seq<Byte>) {
    && LayoutV6(b)
    && FromBytes(b[4], b[5]) <= |b[40..]|
    && ext(b[6], PayloadV6(b[40..], FromBytes(b[4], b[5])))
  }

  /** What becomes of a packet under congestion, and of its bytes. */
  function Process(ext: Extensions, b: seq<Byte>): (PacketAction, seq<Byte>) {
    if ParsesV4(ext, b) then
      var h := ParseV4(b);
      if h.ecn == NOT_ECT then (Drop, b)
      else if h.ecn == CONGESTION_EXPERIENCED then (Forward, b)
      else (Forward, ToBytesV4(MarkedV4(h)) + b[HeaderLen(b)..])
    else if ParsesV6(ext, b) then
      var h := ParseV6(b);
      if h.trafficClass % 4 == NOT_ECT then (Drop, b)
      else if h.trafficClass % 4 == CONGESTION_EXPERIENCED then (Forward, b)
      else (Forward, ToBytesV6(MarkedV6(h)) + b[40..])
    else (Drop, b)
  }

  method CopyToFront(buf: array<Byte>, bytes: seq<Byte>)
    requires |bytes| <= buf.Length
    modifies buf
    ensures buf[..] == bytes + old(buf[..])[|bytes|..]
  {
    for i := 0 to |bytes|
      invariant forall j :: 0 <= j < buf.Length ==> buf[j] == if j < i then bytes[j] else old(buf[j])
    {
      buf[i] := bytes[i];
    }
  }

  method ProcessPacketCongestion(ext: Extensions, buf: array<Byte>) returns (action: PacketAction)
    modifies buf
    ensures (action, buf[..]) == Process(ext, old(buf[..]))
  {
    var packet := buf[..];
    if ParsesV4(ext, packet) {
      var h := ParseV4(packet);
      if h.ecn == NOT_ECT { return Drop; }
      if h.ecn != CONGESTION_EXPERIENCED {
        CopyToFront(buf, ToBytesV4(MarkedV4(h)));
      }
      return Forward;
    }
    if ParsesV6(ext, packet) {
      var h := ParseV6(packet);
      if h.trafficClass % 4 == NOT_ECT { return Drop; }
      if h.trafficClass % 4 != CONGESTION_EXPERIENCED {
        CopyToFront(buf, ToBytesV6(MarkedV6(h)));
      }
      return Forward;
    }
    return Drop;
  }

  // ----- What marking does to the bytes -----

  lemma {:induction false} FlagByteRestored(b6: Byte, b7: Byte)
    ensures var offset := FromBytes(b6 % 32, b7);
            && (if b6 / 64 % 2 == 1 then 64 else 0) + (if b6 / 32 % 2 == 1 then 32 else 0) + offset / 256 == b6 % 128
            && offset % 256 == b7
  {
    var q := b6 / 32;
    assert b6 == 32 * q + b6 % 32 && q < 8;
    assert b6 / 64 == q / 2 && q % 4 == 2 * (q / 2 % 2) + q % 2;
    assert b6 % 128 == 32 * (q % 4) + b6 % 32;
  }

  lemma {:induction false} HiLoRestored(hi: Byte, lo: Byte)
    ensures Hi(FromBytes(hi, lo)) == hi && Lo(FromBytes(hi, lo)) == lo
  {
  }

  lemma {:induction false} HeadV4(b: seq<Byte>)
    requires LayoutV4(b)
    ensures var w := ToBytesV4(ParseV4(b));
            && w[6] == b[6] % 128
            && forall i :: 0 <= i < 12 && i != 6 ==> w[i] == b[i]
  {
    var h, w := ParseV4(b), ToBytesV4(ParseV4(b));
    FlagByteRestored(b[6], b[7]);
    HiLoRestored(b[2], b[3]);
    HiLoRestored(b[4], b[5]);
    HiLoRestored(b[10], b[11]);
    OptionsLen(b[0] % 16);
    assert w[0] == b[0] && w[1] == b[1] && w[2] == b[2] && w[3] == b[3] && w[4] == b[4] && w[5] == b[5];
    assert w[6] == FlagByte(h) && w[7] == b[7] && w[8] == b[8] && w[9] == b[9] && w[10] == b[10] && w[11] == b[11];
  }

  lemma {:induction false} TailV4(b: seq<Byte>)
    requires LayoutV4(b)
    ensures ToBytesV4(ParseV4(b))[12..] == b[12..HeaderLen(b)]
  {
    var h := ParseV4(b);
    DropHead(FixedBytesV4(h), VariableBytesV4(h));
    ThreeSlices(b, 12, 16, 20, HeaderLen(b));
  }

  lemma {:induction false} DropHead(head: seq<Byte>, tail: seq<Byte>)
    ensures (head + tail)[|head|..] == tail
  {
  }

  lemma {:induction false} TakeHead(head: seq<Byte>, tail: seq<Byte>)
    ensures (head + tail)[..|head|] == head
  {
  }

  lemma {:induction false} ThreeSlices(b: seq<Byte>, i: nat, j: nat, k: nat, n: nat)
    requires i <= j <= k <= n <= |b|
    ensures b[i..j] + b[j..k] + b[k..n] == b[i..n]
  {
  }

  /** Writing a parsed IPv4 header back restores every bit but the reserved flag. */
  lemma {:induction false} RewriteV4(b: seq<Byte>)
    requires LayoutV4(b)
    ensures ToBytesV4(ParseV4(b)) == b[..HeaderLen(b)][6 := b[6] % 128]
  {
    HeadV4(b);
    TailV4(b);
    Assembled(ToBytesV4(ParseV4(b)), b[..HeaderLen(b)][6 := b[6] % 128]);
  }

  lemma {:induction false} Assembled(w: seq<Byte>, b: seq<Byte>)
    requires |w| == |b| >= 12 && w[12..] == b[12..] && forall i :: 0 <= i < 12 ==> w[i] == b[i]
    ensures w == b
  {
    assert w == w[..12] + w[12..] && b == b[..12] + b[12..];
  }

  /** Changing the ECN and checksum fields changes their bytes and no others. */
  lemma {:induction false} FieldsToBytes(h: Ipv4Header, ecn: U2, checksum: U16)
    requires Writable(h)
    ensures ToBytesV4(h.(ecn := ecn, checksum := checksum)) ==
            ToBytesV4(h)[1 := h.dscp * 4 + ecn][10 := Hi(checksum)][11 := Lo(checksum)]
  {
  }

  /** The bytes of a marked IPv4 packet. */
  ghost predicate IsMarkedV4(b: seq<Byte>, b': seq<Byte>)
    requires LayoutV4(b)
  {
    && |b'| == |b|
    && b'[1] / 4 == b[1] / 4 && b'[1] % 4 == CONGESTION_EXPERIENCED
    && b'[6] == b[6] % 128
    && (forall i :: 0 <= i < |b| && i !in {1, 6, 10, 11} ==> b'[i] == b[i])
    && OnesComplementSum(b'[..HeaderLen(b)]) == 0xffff
  }

  /** The header of a marked packet: three bytes are written over those of the original. */
  lemma {:induction false} MarkedHeaderV4(b: seq<Byte>)
    requires LayoutV4(b)
    ensures var w := ToBytesV4(MarkedV4(ParseV4(b)));
            && OnesComplementSum(w) == 0xffff
            && |w| == HeaderLen(b)
            && w == b[..HeaderLen(b)][6 := b[6] % 128][1 := b[1] / 4 * 4 + CONGESTION_EXPERIENCED][10 := w[10]][11 := w[11]]
  {
    var h := ParseV4(b);
    var c := CalcChecksum(h.(ecn := CONGESTION_EXPERIENCED));
    var zero: seq<Byte> := ToBytesV4(h.(ecn := CONGESTION_EXPERIENCED, checksum := 0));
    RewriteV4(b);
    FieldsToBytes(h, CONGESTION_EXPERIENCED, 0);
    FieldsToBytes(h, CONGESTION_EXPERIENCED, c);
    assert ToBytesV4(MarkedV4(h)) == zero[10 := Hi(c)][11 := Lo(c)];
    WrittenChecksumVerifies(zero, 10);
  }

  lemma {:induction false} MarkedBytesV4(b: seq<Byte>)
    requires LayoutV4(b)
    ensures IsMarkedV4(b, ToBytesV4(MarkedV4(ParseV4(b))) + b[HeaderLen(b)..])
  {
    MarkedHeaderV4(b);
    var w, n := ToBytesV4(MarkedV4(ParseV4(b))), HeaderLen(b);
    assert (w + b[n..])[..n] == w;
  }

  ghost predicate Marks(ext: Extensions, b: seq<Byte>) {
    || (ParsesV4(ext, b) && b[1] % 4 in {1, 2})
    || (ParsesV6(ext, b) && b[1] / 16 % 4 in {1, 2})
  }

  /** An ECN-capable IPv4 packet is forwarded marked, with a header that verifies whatever its checksum was. */
  lemma {:induction false} MarkingV4(ext: Extensions, b: seq<Byte>)
    requires ParsesV4(ext, b) && b[1] % 4 in {1, 2}
    ensures Process(ext, b).0 == Forward && IsMarkedV4(b, Process(ext, b).1)
  {
    MarkedBytesV4(b);
  }

  /** Nothing but the ECN bits and the checksum field changes, exactly if the reserved flag was clear. */
  lemma {:induction false} OnlyEcnAndChecksumChangeIff(ext: Extensions, b: seq<Byte>)
    requires ParsesV4(ext, b) && b[1] % 4 in {1, 2}
    ensures |Process(ext, b).1| == |b|
    ensures (forall i :: 0 <= i < |b| && i !in {1, 10, 11} ==> Process(ext, b).1[i] == b[i]) <==> !ReservedFlag(b)
  {
    MarkingV4(ext, b);
    RestIffReserved(b, Process(ext, b).1);
  }

  lemma {:induction false} RestIffReserved(b: seq<Byte>, b': seq<Byte>)
    requires LayoutV4(b) && IsMarkedV4(b, b')
    ensures (forall i :: 0 <= i < |b| && i !in {1, 10, 11} ==> b'[i] == b[i]) <==> !ReservedFlag(b)
  {
    if ReservedFlag(b) {
      assert 6 !in {1, 10, 11} && b'[6] != b[6];
    }
  }

  /** The first four bytes of an IPv6 header, taken apart, marked and put together again. */
  lemma {:induction false} HeadV6(b0: Byte, b1: Byte, b2: Byte, b3: Byte)
    requires b0 / 16 == 6
    ensures var tc: nat := (b0 % 16) * 16 + b1 / 16; var tc' := tc - tc % 4 + 3;
            && tc % 4 == b1 / 16 % 4
            && 96 + tc' / 16 == b0
            && (tc' % 16) * 16 + b1 % 16 == b1 - (b1 / 16 % 4) * 16 + 48
  {
  }

  lemma {:induction false} FlowLabelRestored(hi: nat, b2: Byte, b3: Byte)
    requires hi < 16
    ensures var flow: nat := (hi * 256 + b2) * 256 + b3;
            flow / 0x1_0000 == hi && flow / 256 % 256 == b2 && flow % 256 == b3
  {
  }

  lemma {:induction false} MiddleBits(hi: nat, mid: nat, lo: nat)
    requires hi < 4 && mid < 4 && lo < 16
    ensures var x := 64 * hi + 16 * mid + lo; x / 64 == hi && x / 16 % 4 == mid && x % 16 == lo
  {
  }

  /** The byte holding the ECN bits of an IPv6 header, with them set and its other bits kept. */
  function MarkedByteV6(b1: Byte): (r: Byte)
    ensures r / 16 % 4 == CONGESTION_EXPERIENCED && r / 64 == b1 / 64 && r % 16 == b1 % 16
  {
    assert b1 == 64 * (b1 / 64) + 16 * (b1 / 16 % 4) + b1 % 16;
    MiddleBits(b1 / 64, 3, b1 % 16);
    b1 - (b1 / 16 % 4) * 16 + 48
  }

  lemma {:induction false} MarkedFixedV6(b: seq<Byte>)
    requires LayoutV6(b)
    ensures ParseV6(b).trafficClass % 4 == b[1] / 16 % 4
    ensures FixedBytesV6(MarkedV6(ParseV6(b))) == b[..8][1 := MarkedByteV6(b[1])]
  {
    HeadV6(b[0], b[1], b[2], b[3]);
    FlowLabelRestored(b[1] % 16, b[2], b[3]);
    HiLoRestored(b[4], b[5]);
    var w: seq<Byte> := FixedBytesV6(MarkedV6(ParseV6(b)));
    assert w[0] == b[0] && w[1] == MarkedByteV6(b[1]) && w[2] == b[2] && w[3] == b[3];
    assert w[4] == b[4] && w[5] == b[5] && w[6] == b[6] && w[7] == b[7];
  }

  lemma {:induction false} MarkedTailV6(b: seq<Byte>)
    requires LayoutV6(b)
    ensures ToBytesV6(MarkedV6(ParseV6(b)))[8..] == b[8..40]
  {
    var m := MarkedV6(ParseV6(b));
    DropHead(FixedBytesV6(m), m.source + m.destination);
    ThreeSlices(b, 8, 8, 24, 40);
    assert b[8..8] + b[8..24] == b[8..24];
  }

  lemma {:induction false} MarkedHeadV6(b: seq<Byte>)
    requires LayoutV6(b)
    ensures ToBytesV6(MarkedV6(ParseV6(b)))[..8] == b[..8][1 := MarkedByteV6(b[1])]
  {
    var m := MarkedV6(ParseV6(b));
    MarkedFixedV6(b);
    TakeHead(FixedBytesV6(m), m.source + m.destination);
  }

  lemma {:induction false} MarkedBytesV6(b: seq<Byte>)
    requires LayoutV6(b)
    ensures ToBytesV6(MarkedV6(ParseV6(b))) + b[40..] == b[1 := MarkedByteV6(b[1])]
  {
    MarkedHeadV6(b);
    MarkedTailV6(b);
    Reassembled(b, MarkedByteV6(b[1]), ToBytesV6(MarkedV6(ParseV6(b))));
  }

  lemma {:induction false} Reassembled(b: seq<Byte>, b1: Byte, w: seq<Byte>)
    requires |b| >= |w| == 40 && w[8..] == b[8..40] && w[..8] == b[..8][1 := b1]
    ensures w + b[40..] == b[1 := b1]
  {
    assert w == w[..8] + w[8..];
    assert b[1 := b1] == b[..8][1 := b1] + b[8..40] + b[40..];
  }

  /** An ECN-capable IPv6 packet is forwarded with its ECN bits set and every other bit kept. */
  lemma {:induction false} MarkingV6(ext: Extensions, b: seq<Byte>)
    requires ParsesV6(ext, b) && b[1] / 16 % 4 in {1, 2}
    ensures Process(ext, b) == (Forward, b[1 := MarkedByteV6(b[1])])
  {
    MarkedFixedV6(b);
    MarkedBytesV6(b);
  }

  /** Exactly the unparseable and the ECN-incapable are dropped, and only the ECN-capable are changed. */
  lemma {:induction false} OnlyMarkingChanges(ext: Extensions, b: seq<Byte>)
    ensures Process(ext, b).0 == Forward <==>
              (ParsesV4(ext, b) && b[1] % 4 != NOT_ECT) || (ParsesV6(ext, b) && b[1] / 16 % 4 != NOT_ECT)
    ensures !Marks(ext, b) ==> Process(ext, b).1 == b
    ensures Process(ext, b).0 == Drop ==> Process(ext, b).1 == b
  {
    if ParsesV6(ext, b) {
      MarkedFixedV6(b);
    }
  }

  lemma {:induction false} MarkedV4IsStable(ext: Extensions, b: seq<Byte>, b': seq<Byte>)
    requires ParsesV4(ext, b) && IsMarkedV4(b, b')
    ensures Process(ext, b') == (Forward, b')
  {
    var n, total := HeaderLen(b), FromBytes(b[2], b[3]);
    assert b'[n..total] == b[n..total];
    assert ParsesV4(ext, b') && ParseV4(b').ecn == CONGESTION_EXPERIENCED;
  }

  lemma {:induction false} MarkedV6IsStable(ext: Extensions, b: seq<Byte>, b1: Byte)
    requires ParsesV6(ext, b) && b1 / 16 % 4 == 3
    ensures Process(ext, b[1 := b1]) == (Forward, b[1 := b1])
  {
    var b' := b[1 := b1];
    assert b'[40..] == b[40..];
    assert ParsesV6(ext, b');
    MarkedFixedV6(b');
  }

  /** A packet that was forwarded is forwarded again, unchanged. */
  lemma {:induction false} MarkingIsIdempotent(ext: Extensions, b: seq<Byte>)
    ensures var (action, b') := Process(ext, b); action == Forward ==> Process(ext, b') == (Forward, b')
  {
    if ParsesV4(ext, b) && b[1] % 4 in {1, 2} {
      MarkingV4(ext, b);
      MarkedV4IsStable(ext, b, Process(ext, b).1);
    } else if ParsesV6(ext, b) && b[1] / 16 % 4 in {1, 2} {
      MarkingV6(ext, b);
      MarkedV6IsStable(ext, b, MarkedByteV6(b[1]));
    } else {
      OnlyMarkingChanges(ext, b);
    }
  }
}

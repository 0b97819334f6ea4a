/**
Which packets the congestion marking understands: exactly those written from a header and a payload
as long as the header says, with anything behind them.
*/
module EcnParsing {
  import opened Addr
  import opened Ecn

  // ----- IPv4 -----

  lemma {:induction false} WordRestored(x: U16)
    ensures FromBytes(Hi(x), Lo(x)) == x
  {
  }

  /** The flags and the fragment offset, out of the two bytes they are written to. */
  lemma {:induction false} FlagsRestored(df: nat, mf: nat, offset: U13)
    requires df < 2 && mf < 2
    ensures var b6 := 64 * df + 32 * mf + offset / 256;
            b6 / 64 % 2 == df && b6 / 32 % 2 == mf && b6 % 32 == offset / 256 && b6 % 128 == b6
  {
    var hi := offset / 256;
    var q := 2 * df + mf;
    assert hi < 32 && 64 * df + 32 * mf + hi == 32 * q + hi && q < 4;
    assert (32 * q + hi) / 32 == q && (32 * q + hi) % 32 == hi;
    assert (32 * q + hi) / 64 == q / 2 && q / 2 == df && q % 2 == mf;
  }

  lemma {:induction false} FirstByteV4(words: nat)
    requires words <= 10
    ensures var b0 := 64 + 5 + words; b0 / 16 == 4 && b0 % 16 == 5 + words
  {
  }

  lemma {:induction false} SecondByteV4(dscp: U6, ecn: U2)
    ensures var b1: nat := dscp * 4 + ecn; b1 / 4 == dscp && b1 % 4 == ecn
  {
  }

  /** Reading the fixed fields out of the bytes they were written to. */
  ghost predicate FieldsOf(h: Ipv4Header, b: seq<Byte>)
    requires |b| >= 12
  {
    && b[1] / 4 == h.dscp && b[1] % 4 == h.ecn
    && FromBytes(b[2], b[3]) == h.totalLen && FromBytes(b[4], b[5]) == h.identification
    && (b[6] / 64 % 2 == 1 <==> h.dontFragment) && (b[6] / 32 % 2 == 1 <==> h.moreFragments)
    && FromBytes(b[6] % 32, b[7]) == h.fragmentOffset
    && b[8] == h.ttl && b[9] == h.protocol && FromBytes(b[10], b[11]) == h.checksum
  }

  lemma {:induction false} FlagBytesV4(h: Ipv4Header)
    ensures var b6: Byte := FlagByte(h);
            && b6 % 128 == b6
            && (b6 / 64 % 2 == 1 <==> h.dontFragment) && (b6 / 32 % 2 == 1 <==> h.moreFragments)
            && FromBytes(b6 % 32, h.fragmentOffset % 256) == h.fragmentOffset
  {
    FlagsRestored(if h.dontFragment then 1 else 0, if h.moreFragments then 1 else 0, h.fragmentOffset);
    WordRestored(h.fragmentOffset);
  }

  lemma {:induction false} FixedFieldsV4(h: Ipv4Header)
    requires Writable(h)
    ensures var b := FixedBytesV4(h);
            b[0] / 16 == 4 && b[0] % 16 == 5 + |h.options| / 4 && b[6] % 128 == b[6] && FieldsOf(h, b)
  {
    var b: seq<Byte> := FixedBytesV4(h);
    assert b[0] / 16 == 4 && b[0] % 16 == 5 + |h.options| / 4 by {
      FirstByteV4(|h.options| / 4);
    }
    assert b[1] / 4 == h.dscp && b[1] % 4 == h.ecn by {
      SecondByteV4(h.dscp, h.ecn);
    }
    WordRestored(h.totalLen);
    WordRestored(h.identification);
    WordRestored(h.checksum);
    assert b[6] == FlagByte(h) && b[7] == h.fragmentOffset % 256;
    FlagBytesV4(h);
  }

  lemma {:induction false} MiddleSlice(pre: seq<Byte>, mid: seq<Byte>, post: seq<Byte>)
    ensures (pre + mid + post)[|pre|..|pre| + |mid|] == mid
  {
  }

  lemma {:induction false} WrittenSlices(fixed: seq<Byte>, a: seq<Byte>, b: seq<Byte>, c: seq<Byte>, rest: seq<Byte>)
    requires |fixed| == 12 && |a| == |b| == 4
    ensures var w, n := fixed + (a + b + c) + rest, 20 + |c|;
            && w[..12] == fixed && w[12..16] == a && w[16..20] == b && w[20..n] == c && w[n..] == rest
  {
    var w := fixed + (a + b + c) + rest;
    assert w == fixed + a + (b + c + rest);
    MiddleSlice(fixed, a, b + c + rest);
    assert w == (fixed + a) + b + (c + rest);
    MiddleSlice(fixed + a, b, c + rest);
    assert w == (fixed + a + b) + c + rest;
    MiddleSlice(fixed + a + b, c, rest);
  }

  /** A header reads back from what it was written as, whatever follows it. */
  lemma {:induction false} WrittenV4Parses(h: Ipv4Header, rest: seq<Byte>)
    requires Writable(h)
    ensures var b := ToBytesV4(h) + rest;
            && LayoutV4(b) && HeaderLen(b) == 20 + |h.options| && !ReservedFlag(b)
            && ParseV4(b) == h && b[HeaderLen(b)..] == rest
  {
    var fixed, b := FixedBytesV4(h), ToBytesV4(h) + rest;
    FixedFieldsV4(h);
    WrittenSlices(fixed, h.source, h.destination, h.options, rest);
    assert forall i :: 0 <= i < 12 ==> b[i] == fixed[i];
    assert |h.options| == 4 * (|h.options| / 4);
  }

  /** A header with its payload, as long as it says, behind which the parser accepts the payload. */
  ghost predicate PacketV4(ext: Extensions, h: Ipv4Header, payload: seq<Byte>) {
    Writable(h) && h.totalLen == 20 + |h.options| + |payload| && ext(h.protocol, payload)
  }

  /** Every such packet parses, with anything behind it, and exactly the ECN-capable ones are forwarded. */
  lemma {:induction false} PacketV4Parses(ext: Extensions, h: Ipv4Header, payload: seq<Byte>, trailing: seq<Byte>)
    requires PacketV4(ext, h, payload)
    ensures var b := ToBytesV4(h) + (payload + trailing);
            && ParsesV4(ext, b) && ParseV4(b) == h
            && (Process(ext, b).0 == Forward <==> h.ecn != NOT_ECT)
  {
    var b, n := ToBytesV4(h) + (payload + trailing), 20 + |h.options|;
    WrittenV4Parses(h, payload + trailing);
    FixedFieldsV4(h);
    assert forall i :: 0 <= i < 12 ==> b[i] == FixedBytesV4(h)[i];
    assert b[n..h.totalLen] == b[n..][..|payload|] == payload;
  }

  /** Exactly those packets parse; of the header, only the reserved flag is not looked at. */
  lemma {:induction false} ParsesV4Iff(ext: Extensions, b: seq<Byte>)
    ensures ParsesV4(ext, b) <==>
            && |b| > 6
            && exists h, payload, trailing ::
                PacketV4(ext, h, payload) && b[6 := b[6] % 128] == ToBytesV4(h) + (payload + trailing)
  {
    if ParsesV4(ext, b) {
      var h, n, total := ParseV4(b), HeaderLen(b), FromBytes(b[2], b[3]);
      RewriteV4(b);
      SplitPacket(b, n, total);
      assert PacketV4(ext, h, b[n..total]);
      assert b[6 := b[6] % 128] == ToBytesV4(h) + (b[n..total] + b[total..]);
    }
    if |b| > 6 && exists h, payload, trailing ::
         PacketV4(ext, h, payload) && b[6 := b[6] % 128] == ToBytesV4(h) + (payload + trailing) {
      var h, payload, trailing :|
        PacketV4(ext, h, payload) && b[6 := b[6] % 128] == ToBytesV4(h) + (payload + trailing);
      PacketV4Parses(ext, h, payload, trailing);
      ReservedFlagIgnored(ext, b);
    }
  }

  lemma {:induction false} SplitPacket(b: seq<Byte>, n: nat, total: nat)
    requires 6 < n <= total <= |b|
    ensures b[6 := b[6] % 128] == b[..n][6 := b[6] % 128] + (b[n..total] + b[total..])
  {
  }

  lemma {:induction false} ReservedFlagIgnored(ext: Extensions, b: seq<Byte>)
    requires |b| > 6 && ParsesV4(ext, b[6 := b[6] % 128])
    ensures ParsesV4(ext, b)
  {
    var b' := b[6 := b[6] % 128];
    var n, total := HeaderLen(b'), FromBytes(b'[2], b'[3]);
    assert b[n..total] == b'[n..total];
  }

  // ----- IPv6 -----

  lemma {:induction false} TrafficClassRestored(tc: Byte, flow: U20)
    ensures var b0, b1 := 96 + tc / 16, (tc % 16) * 16 + flow / 0x1_0000;
            b0 / 16 == 6 && b1 < 256 && (b0 % 16) * 16 + b1 / 16 == tc && b1 % 16 == flow / 0x1_0000
  {
    var top := flow / 0x1_0000;
    assert top < 16;
    assert ((tc % 16) * 16 + top) / 16 == tc % 16 && ((tc % 16) * 16 + top) % 16 == top;
  }

  lemma {:induction false} FlowLabelSplits(flow: U20)
    ensures (flow / 0x1_0000 * 256 + flow / 256 % 256) * 256 + flow % 256 == flow
  {
    assert flow / 256 == flow / 0x1_0000 * 256 + flow / 256 % 256;
  }

  lemma {:induction false} FixedFieldsV6(h: Ipv6Header)
    ensures var b := FixedBytesV6(h);
            && b[0] / 16 == 6 && (b[0] % 16) * 16 + b[1] / 16 == h.trafficClass
            && (FromBytes(b[1] % 16, b[2]) as nat) * 256 + b[3] == h.flowLabel
            && FromBytes(b[4], b[5]) == h.payloadLen && b[6] == h.nextHeader && b[7] == h.hopLimit
  {
    TrafficClassRestored(h.trafficClass, h.flowLabel);
    FlowLabelSplits(h.flowLabel);
    WordRestored(h.payloadLen);
  }

  lemma {:induction false} WrittenSlicesV6(fixed: seq<Byte>, a: seq<Byte>, b: seq<Byte>, rest: seq<Byte>)
    requires |fixed| == 8 && |a| == |b| == 16
    ensures var w := fixed + (a + b) + rest; w[..8] == fixed && w[8..24] == a && w[24..40] == b && w[40..] == rest
  {
  }

  lemma {:induction false} WrittenV6Parses(h: Ipv6Header, rest: seq<Byte>)
    requires |h.source| == |h.destination| == 16
    ensures var b := ToBytesV6(h) + rest; LayoutV6(b) && ParseV6(b) == h && b[40..] == rest
  {
    var fixed, b := FixedBytesV6(h), ToBytesV6(h) + rest;
    FixedFieldsV6(h);
    WrittenSlicesV6(fixed, h.source, h.destination, rest);
    assert forall i :: 0 <= i < 8 ==> b[i] == fixed[i];
  }

  /** A zero payload length stands for all that follows the header. */
  ghost predicate PacketV6(ext: Extensions, h: Ipv6Header, payload: seq<Byte>, trailing: seq<Byte>) {
    && |h.source| == |h.destination| == 16 && ext(h.nextHeader, payload)
    && (h.payloadLen == |payload| > 0 || (h.payloadLen == 0 && trailing == []))
  }

  lemma {:induction false} WrittenLengthV6(h: Ipv6Header, rest: seq<Byte>)
    requires |h.source| == |h.destination| == 16
    ensures var b := ToBytesV6(h) + rest;
            LayoutV6(b) && FromBytes(b[4], b[5]) == h.payloadLen && b[6] == h.nextHeader && b[40..] == rest
  {
    var b := ToBytesV6(h) + rest;
    assert b[4] == Hi(h.payloadLen) && b[5] == Lo(h.payloadLen) && b[6] == h.nextHeader;
    WordRestored(h.payloadLen);
    WrittenV6Parses(h, rest);
  }

  lemma {:induction false} PayloadFound(len: nat, payload: seq<Byte>, trailing: seq<Byte>)
    requires len == |payload| > 0 || (len == 0 && trailing == [])
    ensures len <= |payload + trailing| && PayloadV6(payload + trailing, len) == payload
  {
  }

  lemma {:induction false} PacketV6Accepted(ext: Extensions, h: Ipv6Header, payload: seq<Byte>, trailing: seq<Byte>)
    requires PacketV6(ext, h, payload, trailing)
    ensures ParsesV6(ext, ToBytesV6(h) + (payload + trailing))
  {
    WrittenLengthV6(h, payload + trailing);
    PayloadFound(h.payloadLen, payload, trailing);
  }

  lemma {:induction false} ForwardsV6(ext: Extensions, b: seq<Byte>)
    requires ParsesV6(ext, b)
    ensures Process(ext, b).0 == Forward <==> ParseV6(b).trafficClass % 4 != NOT_ECT
  {
    assert !LayoutV4(b);
  }

  /** Every such packet parses, and exactly the ECN-capable ones are forwarded. */
  lemma {:induction false} PacketV6Parses(ext: Extensions, h: Ipv6Header, payload: seq<Byte>, trailing: seq<Byte>)
    requires PacketV6(ext, h, payload, trailing)
    ensures var b := ToBytesV6(h) + (payload + trailing);
            && ParsesV6(ext, b) && ParseV6(b) == h
            && (Process(ext, b).0 == Forward <==> h.trafficClass % 4 != NOT_ECT)
  {
    PacketV6Accepted(ext, h, payload, trailing);
    WrittenV6Parses(h, payload + trailing);
    ForwardsV6(ext, ToBytesV6(h) + (payload + trailing));
  }

  /** Writing a parsed IPv6 header back restores every bit. */
  lemma {:induction false} RewriteV6(b: seq<Byte>)
    requires LayoutV6(b)
    ensures ToBytesV6(ParseV6(b)) == b[..40]
  {
    var h := ParseV6(b);
    HeadRestoredV6(b[0], b[1]);
    FlowLabelRestored(b[1] % 16, b[2], b[3]);
    HiLoRestored(b[4], b[5]);
    var w: seq<Byte> := FixedBytesV6(h);
    assert w[0] == b[0] && w[1] == b[1] && w[2] == b[2] && w[3] == b[3];
    assert w[4] == b[4] && w[5] == b[5] && w[6] == b[6] && w[7] == b[7];
    assert w == b[..8];
    ThreeSlices(b, 0, 8, 24, 40);
    assert b[0..8] == b[..8] && b[..8] + (b[8..24] + b[24..40]) == b[..8] + b[8..24] + b[24..40];
  }

  lemma {:induction false} HeadRestoredV6(b0: Byte, b1: Byte)
    requires b0 / 16 == 6
    ensures var tc: nat := (b0 % 16) * 16 + b1 / 16;
            tc < 256 && 96 + tc / 16 == b0 && (tc % 16) * 16 + b1 % 16 == b1
  {
    assert b1 / 16 < 16;
  }

  lemma {:induction false} SplitRest(rest: seq<Byte>, len: nat) returns (payload: seq<Byte>, trailing: seq<Byte>)
    requires len <= |rest|
    ensures payload == PayloadV6(rest, len) && rest == payload + trailing
    ensures len == |payload| > 0 || (len == 0 && trailing == [])
  {
    payload, trailing := PayloadV6(rest, len), if len == 0 then [] else rest[len..];
  }

  lemma {:induction false} ParsedV6IsPacket(ext: Extensions, b: seq<Byte>) returns (payload: seq<Byte>, trailing: seq<Byte>)
    requires ParsesV6(ext, b)
    ensures PacketV6(ext, ParseV6(b), payload, trailing) && b == ToBytesV6(ParseV6(b)) + (payload + trailing)
  {
    payload, trailing := SplitRest(b[40..], FromBytes(b[4], b[5]));
    RewriteV6(b);
    assert b == b[..40] + b[40..];
  }

  /** Exactly those packets parse. */
  lemma {:induction false} ParsesV6Iff(ext: Extensions, b: seq<Byte>)
    ensures ParsesV6(ext, b) <==>
            exists h, payload, trailing ::
              PacketV6(ext, h, payload, trailing) && b == ToBytesV6(h) + (payload + trailing)
  {
    if ParsesV6(ext, b) {
      var payload, trailing := ParsedV6IsPacket(ext, b);
    } else if h, payload, trailing :| PacketV6(ext, h, payload, trailing) && b == ToBytesV6(h) + (payload + trailing) {
      PacketV6Parses(ext, h, payload, trailing);
    }
  }
}

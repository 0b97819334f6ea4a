/** Sending one packet to a peer: size check, queue management, congestion marking. */
module SendPacket {
  import opened Wrappers
  import opened Addr
  import opened Ecn
  import opened Aqm

  const ECN_THRESHOLD := 0.5

  datatype Outcome = TooBig | Dropped | Sent(datagram: seq<Byte>)

  /** How full the send buffer is, from its free space and the most it ever has. */
  function Fullness(space: nat, maxSpace: nat): real
    requires maxSpace > 0
  {
    1.0 - space as real / maxSpace as real
  }

  /**
  The queue decision by buffer space. A buffer that never had any space gives, in floating point, a
  fullness of minus infinity, which is below the threshold, or if it is empty not a number, which
  fails every comparison.
  */
  predicate QueuesAt(space: nat, maxSpace: nat, draw: nat) {
    if maxSpace == 0 then space > 0 else Queues(ECN_THRESHOLD, Fullness(space, maxSpace), draw)
  }

  /** The draws that leave a packet alone, in whole numbers: `draw / DRAWS` is at least `1 - 2 * space / maxSpace`. */
  predicate LeftAlone(space: nat, maxSpace: nat, draw: nat) {
    if maxSpace == 0 then space > 0 else draw * maxSpace >= DRAWS * (maxSpace - 2 * space)
  }

  lemma {:induction false} QueuesIffLeftAlone(space: nat, maxSpace: nat, draw: nat)
    ensures QueuesAt(space, maxSpace, draw) <==> LeftAlone(space, maxSpace, draw)
  {
    if maxSpace > 0 {
      FullnessBounds(space, maxSpace);
      if 2 * space > maxSpace {
        assert DRAWS * (maxSpace - 2 * space) <= 0;
      } else {
        ScaleDecision(space as real, maxSpace as real, draw as real, DRAWS as real);
        WholeNumbers(space, maxSpace, draw);
      }
    }
  }

  /** The comparison with the draw, with both sides multiplied by twice the space and the number of draws. */
  lemma {:induction false} ScaleDecision(space: real, maxSpace: real, draw: real, draws: real)
    requires maxSpace > 0.0 && draws > 0.0
    ensures 1.0 - space / maxSpace - 0.5 <= (draw / draws) * (1.0 - 0.5) <==> draws * (maxSpace - 2.0 * space) <= draw * maxSpace
  {
    var ratio, share := space / maxSpace, draw / draws;
    assert ratio * maxSpace == space && share * draws == draw;
    var left, right := 1.0 - 2.0 * ratio, share;
    var m := draws * maxSpace;
    assert m > 0.0;
    LeftScaled(ratio, maxSpace, draws);
    RightScaled(share, maxSpace, draws);
    if left <= right {
      MulLe(left, right, m);
    } else {
      MulLt(right, left, m);
    }
  }

  lemma {:induction false} LeftScaled(ratio: real, maxSpace: real, draws: real)
    ensures (1.0 - 2.0 * ratio) * (draws * maxSpace) == draws * (maxSpace - 2.0 * (ratio * maxSpace))
  {
    assert ratio * (draws * maxSpace) == draws * (ratio * maxSpace);
  }

  lemma {:induction false} RightScaled(share: real, maxSpace: real, draws: real)
    ensures share * (draws * maxSpace) == (share * draws) * maxSpace
  {
  }

  lemma {:induction false} WholeNumbers(space: nat, maxSpace: nat, draw: nat)
    ensures DRAWS as real * (maxSpace as real - 2.0 * space as real) <= draw as real * maxSpace as real <==>
            DRAWS * (maxSpace - 2 * space) <= draw * maxSpace
  {
    assert draw as real * maxSpace as real == (draw * maxSpace) as real;
    assert DRAWS as real * (maxSpace as real - 2.0 * space as real) == (DRAWS * (maxSpace - 2 * space)) as real;
  }

  /** More free space leaves at least the same draws alone. */
  lemma {:induction false} SpaceHelps(space: nat, space': nat, maxSpace: nat, draw: nat)
    requires space <= space' && LeftAlone(space, maxSpace, draw)
    ensures LeftAlone(space', maxSpace, draw)
  {
  }

  method SendPacket(ext: Extensions, mtu: Option<nat>, space: nat, maxSpace: nat, draw: nat, buf: array<Byte>)
      returns (outcome: Outcome)
    requires draw < DRAWS
    modifies buf
    ensures outcome == TooBig <==> mtu.Some? && buf.Length > mtu.value
    ensures outcome == TooBig ==> buf[..] == old(buf[..])
    ensures outcome.Sent? ==> outcome.datagram == buf[..]
    // The share of the draws that leave the packet alone shrinks with the free space.
    ensures outcome != TooBig ==>
              if LeftAlone(space, maxSpace, draw) then outcome == Sent(old(buf[..]))
              else (outcome.Dropped?, buf[..]) == (Process(ext, old(buf[..])).0 == Drop, Process(ext, old(buf[..])).1)
    // At most half full: sent as it is.
    ensures outcome != TooBig && 2 * space >= maxSpace > 0 ==> outcome == Sent(old(buf[..]))
    // Completely full: whatever the draw, the packet carries the mark or is gone.
    ensures outcome != TooBig && space == 0 ==>
              (outcome.Dropped?, buf[..]) == (Process(ext, old(buf[..])).0 == Drop, Process(ext, old(buf[..])).1)
    ensures outcome == Dropped ==> buf[..] == old(buf[..])
  {
    if mtu.Some? && buf.Length > mtu.value {
      return TooBig;
    }
    QueuesIffLeftAlone(space, maxSpace, draw);
    if maxSpace > 0 {
      FullnessBounds(space, maxSpace);
      QueueEnds(Fullness(space, maxSpace), draw);
    }
    if !QueuesAt(space, maxSpace, draw) {
      OnlyMarkingChanges(ext, buf[..]);
      var action := ProcessPacketCongestion(ext, buf);
      if action == Drop {
        return Dropped;
      }
    }
    return Sent(buf[..]);
  }

  lemma {:induction false} FullnessBounds(space: nat, maxSpace: nat)
    requires maxSpace > 0
    ensures 2 * space >= maxSpace <==> Fullness(space, maxSpace) <= ECN_THRESHOLD
    ensures 2 * space > maxSpace <==> Fullness(space, maxSpace) < ECN_THRESHOLD
    ensures space == 0 ==> Fullness(space, maxSpace) == 1.0
  {
    var ratio := space as real / maxSpace as real;
    assert ratio * maxSpace as real == space as real;
    if ratio < 0.5 {
      MulLt(ratio, 0.5, maxSpace as real);
    } else if ratio > 0.5 {
      MulLt(0.5, ratio, maxSpace as real);
    }
  }

  /** Up to the threshold every draw queues the packet, and at a full buffer none does. */
  lemma {:induction false} QueueEnds(fill: real, draw: nat)
    requires draw < DRAWS
    ensures fill <= ECN_THRESHOLD ==> Queues(ECN_THRESHOLD, fill, draw)
    ensures fill == 1.0 ==> !Queues(ECN_THRESHOLD, fill, draw)
  {
    if fill == ECN_THRESHOLD || fill == 1.0 {
      QueuedShare(ECN_THRESHOLD, fill);
      QueuesAboveCutoff(ECN_THRESHOLD, fill, draw);
    }
  }
}

/**
The linear queue management rule, over the reals.

A random draw is one of `DRAWS` equally likely fractions `k / DRAWS`, as the program's generator
yields them; rounding of 32-bit floats is not modelled.
*/
module Aqm {
  const DRAWS := 0x100_0000

  /** Whether a packet is queued at the given fill ratio, on draw `k`. */
  predicate Queues(threshold: real, fill: real, k: nat) {
    fill < threshold || fill - threshold <= (k as real / DRAWS as real) * (1.0 - threshold)
  }

  /** How many of the first `n` draws queue the packet. */
  function QueuingDraws(threshold: real, fill: real, n: nat): nat {
    if n == 0 then 0
    else QueuingDraws(threshold, fill, n - 1) + if Queues(threshold, fill, n - 1) then 1 else 0
  }

  function Ceiling(x: real): int {
    -((-x).Floor)
  }

  /** The number of draws that drop a packet: the excess over the threshold, in draws, rounded up. */
  function DroppingDraws(threshold: real, fill: real): int
    requires threshold < 1.0
  {
    Ceiling(DRAWS as real * ((fill - threshold) / (1.0 - threshold)))
  }

  lemma {:induction false} ScaleThreshold(a: real, b: real, k: real, n: real)
    requires b > 0.0 && n > 0.0
    ensures a <= (k / n) * b <==> n * (a / b) <= k
  {
    assert a == (a / b) * b;
    assert k == (k / n) * n;
    if a / b <= k / n {
      MulLe(a / b, k / n, b);
      MulLe(a / b, k / n, n);
    } else {
      MulLt(k / n, a / b, b);
      MulLt(k / n, a / b, n);
    }
  }

  lemma {:induction false} MulLe(x: real, y: real, m: real)
    requires x <= y && m > 0.0
    ensures x * m <= y * m
  {
    assert (y - x) * m >= 0.0;
  }

  lemma {:induction false} MulLt(x: real, y: real, m: real)
    requires x < y && m > 0.0
    ensures x * m < y * m
  {
    assert (y - x) * m > 0.0;
  }

  lemma {:induction false} QuotientNonNegative(a: real, b: real)
    requires a >= 0.0 && b > 0.0
    ensures a / b >= 0.0
  {
  }

  /** A draw queues the packet exactly when it is not among the lowest `DroppingDraws`. */
  lemma {:induction false} QueuesAboveCutoff(threshold: real, fill: real, k: nat)
    requires threshold < 1.0 && threshold <= fill
    ensures Queues(threshold, fill, k) <==> k >= DroppingDraws(threshold, fill)
  {
    var x := DRAWS as real * ((fill - threshold) / (1.0 - threshold));
    ScaleThreshold(fill - threshold, 1.0 - threshold, k as real, DRAWS as real);
    assert x <= k as real <==> Ceiling(x) <= k;
  }

  lemma {:induction false} CountAboveCutoff(threshold: real, fill: real, n: nat)
    requires threshold < 1.0 && threshold <= fill
    ensures DroppingDraws(threshold, fill) >= 0
    ensures QueuingDraws(threshold, fill, n) ==
            if n <= DroppingDraws(threshold, fill) then 0 else n - DroppingDraws(threshold, fill)
  {
    QuotientNonNegative(fill - threshold, 1.0 - threshold);
    if n > 0 {
      CountAboveCutoff(threshold, fill, n - 1);
      QueuesAboveCutoff(threshold, fill, n - 1);
    }
  }

  /** Exactly this many of all draws queue a packet; all of them at the threshold, none at a full queue. */
  lemma {:induction false} QueuedShare(threshold: real, fill: real)
    requires threshold < 1.0 && threshold <= fill <= 1.0
    ensures QueuingDraws(threshold, fill, DRAWS) == DRAWS - DroppingDraws(threshold, fill)
    ensures fill == threshold ==> DroppingDraws(threshold, fill) == 0
    ensures fill == 1.0 ==> DroppingDraws(threshold, fill) == DRAWS
  {
    CountAboveCutoff(threshold, fill, DRAWS);
    var x := (fill - threshold) / (1.0 - threshold);
    ScaleThreshold(fill - threshold, 1.0 - threshold, DRAWS as real, DRAWS as real);
    assert DRAWS as real * x <= DRAWS as real;
    if fill == 1.0 {
      assert x == 1.0;
    }
  }

  /** On every draw, and so over any number of them, a fuller queue takes no more than an emptier one. */
  lemma {:induction false} FullerQueuesLess(threshold: real, fill: real, fill': real, n: nat)
    requires fill <= fill'
    ensures forall k: nat :: Queues(threshold, fill', k) ==> Queues(threshold, fill, k)
    ensures QueuingDraws(threshold, fill', n) <= QueuingDraws(threshold, fill, n) <= n
  {
    if n > 0 {
      FullerQueuesLess(threshold, fill, fill', n - 1);
    }
  }
}

/** The Internet checksum of RFC 1071: one's-complement sums of big-endian 16-bit words. */
module Checksum {
  import opened Addr

  function Word(b: seq<Byte>, i: nat): nat
    requires i + 1 < |b|
  {
    (b[i] as nat) * 256 + b[i + 1]
  }

  /** The plain sum of the words, carries deferred. */
  function SumWords(b: seq<Byte>): nat {
    if |b| < 2 then 0 else Word(b, 0) + SumWords(b[2..])
  }

  /** Folds the deferred carries back in. */
  function Fold(n: nat): (r: nat)
    ensures r <= 0xffff && r % 0xffff == n % 0xffff && (r == 0 <==> n == 0)
  {
    if n <= 0xffff then n
    else
      assert n == 0x1_0000 * (n / 0x1_0000) + n % 0x1_0000;
      Fold(n / 0x1_0000 + n % 0x1_0000)
  }

  lemma {:induction false} CongruentSums(w: nat, x: nat, y: nat)
    requires x % 0xffff == y % 0xffff
    ensures (w + x) % 0xffff == (w + y) % 0xffff
  {
  }

  /** A folded sum is determined by its residue and by whether it is zero. */
  lemma {:induction false} FoldedIsUnique(x: nat, y: nat)
    requires x <= 0xffff && y <= 0xffff && x % 0xffff == y % 0xffff && (x == 0 <==> y == 0)
    ensures x == y
  {
  }

  function ChecksumOf(b: seq<Byte>): nat {
    0xffff - Fold(SumWords(b))
  }

  /** One addition with end-around carry, as section 1 of RFC 1071 defines the sum. */
  function AddWithCarry(x: nat, y: nat): nat {
    if x + y > 0xffff then x + y - 0xffff else x + y
  }

  function OnesComplementSum(b: seq<Byte>): nat {
    if |b| < 2 then 0 else AddWithCarry(Word(b, 0), OnesComplementSum(b[2..]))
  }

  /** Folding a sum with one more word is one more addition with end-around carry. */
  lemma {:induction false} FoldAddsWord(w: nat, rest: nat)
    requires w <= 0xffff
    ensures Fold(w + rest) == AddWithCarry(w, Fold(rest)) <= 0xffff
  {
    var sum := Fold(rest);
    CongruentSums(w, rest, sum);
    CarryIsCongruent(w, sum);
    FoldedIsUnique(Fold(w + rest), AddWithCarry(w, sum));
  }

  lemma {:induction false} CarryIsCongruent(x: nat, y: nat)
    requires x <= 0xffff && y <= 0xffff
    ensures AddWithCarry(x, y) <= 0xffff && AddWithCarry(x, y) % 0xffff == (x + y) % 0xffff
    ensures AddWithCarry(x, y) == 0 <==> x + y == 0
  {
  }

  /** Deferring the carries gives the one's-complement sum. */
  lemma {:induction false} DeferredCarries(b: seq<Byte>)
    ensures Fold(SumWords(b)) == OnesComplementSum(b) <= 0xffff
    decreases |b|
  {
    if |b| >= 2 {
      DeferredCarries(b[2..]);
      FoldAddsWord(Word(b, 0), SumWords(b[2..]));
    }
  }

  lemma {:induction false} SumAfterWrite(b: seq<Byte>, i: nat, hi: Byte, lo: Byte)
    requires i + 1 < |b| && i % 2 == 0
    ensures SumWords(b[i := hi][i + 1 := lo]) == SumWords(b) - Word(b, i) + hi * 256 + lo
    decreases |b|
  {
    var c := b[i := hi][i + 1 := lo];
    if i == 0 {
      assert c[2..] == b[2..];
    } else {
      assert c[2..] == b[2..][i - 2 := hi][i - 1 := lo];
      SumAfterWrite(b[2..], i - 2, hi, lo);
    }
  }

  /** Writing the checksum of a header whose field is zero makes the whole header sum to all ones. */
  lemma {:induction false} WrittenChecksumVerifies(b: seq<Byte>, i: nat)
    requires i + 1 < |b| && i % 2 == 0 && Word(b, i) == 0
    ensures var c := ChecksumOf(b); c <= 0xffff && OnesComplementSum(b[i := c / 256][i + 1 := c % 256]) == 0xffff
  {
    var c, sum := ChecksumOf(b), SumWords(b);
    SumAfterWrite(b, i, c / 256, c % 256);
    CongruentSums(c, sum, Fold(sum));
    FoldedIsUnique(Fold(c + sum), 0xffff);
    DeferredCarries(b[i := c / 256][i + 1 := c % 256]);
  }
}

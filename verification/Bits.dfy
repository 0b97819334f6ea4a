/** Bitwise operations on natural numbers, and what they come to when one operand is a mask. */
module Bits {
  function Pow2(n: nat): (r: nat)
    ensures r >= 1
  {
    if n == 0 then 1 else 2 * Pow2(n - 1)
  }

  function Bit(x: nat, i: nat): bool {
    if i == 0 then x % 2 == 1 else Bit(x / 2, i - 1)
  }

  function And(x: nat, y: nat): nat {
    if x == 0 || y == 0 then 0
    else 2 * And(x / 2, y / 2) + if x % 2 == 1 && y % 2 == 1 then 1 else 0
  }

  function Or(x: nat, y: nat): nat {
    if x == 0 && y == 0 then 0
    else 2 * Or(x / 2, y / 2) + if x % 2 == 1 || y % 2 == 1 then 1 else 0
  }

  /** The complement of `x` as a `w`-bit number. */
  function Not(w: nat, x: nat): nat {
    if w == 0 then 0 else 2 * Not(w - 1, x / 2) + 1 - x % 2
  }

  /** The `w`-bit mask whose `p` leading bits are set. */
  function Netmask(w: nat, p: nat): nat
    requires p <= w
  {
    if p == w then Pow2(w) - 1 else 2 * Netmask(w - 1, p)
  }

  /** The number spelled by the `h` lowest bits of `x`. */
  function Low(x: nat, h: nat): (r: nat)
    ensures r < Pow2(h) && r <= x
  {
    if h == 0 then 0 else 2 * Low(x / 2, h - 1) + x % 2
  }

  lemma {:induction false} AndIsBitwise(x: nat, y: nat, i: nat)
    ensures Bit(And(x, y), i) == (Bit(x, i) && Bit(y, i))
  {
    AndHalves(x, y);
    if i > 0 {
      assert And(x, y) / 2 == And(x / 2, y / 2);
      AndIsBitwise(x / 2, y / 2, i - 1);
    }
  }

  lemma {:induction false} OrIsBitwise(x: nat, y: nat, i: nat)
    ensures Bit(Or(x, y), i) == (Bit(x, i) || Bit(y, i))
  {
    OrHalves(x, y);
    if i > 0 {
      assert Or(x, y) / 2 == Or(x / 2, y / 2);
      OrIsBitwise(x / 2, y / 2, i - 1);
    }
  }

  lemma {:induction false} NotIsBitwise(w: nat, x: nat, i: nat)
    ensures Bit(Not(w, x), i) == (i < w && !Bit(x, i))
  {
    ZeroHasNoBits(i);
    if w > 0 && i > 0 {
      NotIsBitwise(w - 1, x / 2, i - 1);
    }
  }

  lemma {:induction false} NetmaskIsLeadingBits(w: nat, p: nat, i: nat)
    requires p <= w
    ensures Bit(Netmask(w, p), i) == (w - p <= i < w)
  {
    ZeroHasNoBits(i);
    if w > 0 {
      HalveNetmask(w, p);
      if i > 0 {
        NetmaskIsLeadingBits(w - 1, if p == w then p - 1 else p, i - 1);
      }
    }
  }

  lemma {:induction false} ZeroHasNoBits(i: nat)
    ensures !Bit(0, i)
  {
    if i > 0 {
      ZeroHasNoBits(i - 1);
    }
  }

  // ----- Masks as arithmetic -----

  lemma {:induction false} QuotientOrders(m: nat, q: nat, r: nat, q': nat, r': nat)
    requires q < q' && r < m
    ensures q * m + r < q' * m + r'
  {
    assert q' * m == q * m + m + (q' - q - 1) * m;
    assert (q' - q - 1) * m >= 0;
  }

  lemma {:induction false} DivModUnique(x: nat, m: nat, q: nat, r: nat)
    requires x == q * m + r && r < m
    ensures x / m == q && x % m == r
  {
    if x / m < q {
      QuotientOrders(m, x / m, x % m, q, r);
    } else if q < x / m {
      QuotientOrders(m, q, r, x / m, x % m);
    }
  }

  lemma {:induction false} ModDouble(x: nat, m: nat)
    requires m > 0
    ensures x % (2 * m) == 2 * ((x / 2) % m) + x % 2
  {
    var q, r := (x / 2) / m, (x / 2) % m;
    assert x / 2 == q * m + r;
    assert x == q * (2 * m) + (2 * r + x % 2);
    DivModUnique(x, 2 * m, q, 2 * r + x % 2);
  }

  /** The lowest bits are the remainder by a power of two. */
  lemma {:induction false} LowIsRemainder(x: nat, h: nat)
    ensures Low(x, h) == x % Pow2(h)
  {
    if h > 0 {
      LowIsRemainder(x / 2, h - 1);
      ModDouble(x, Pow2(h - 1));
    }
  }

  /** A number is its own low bits when it is small enough. */
  lemma {:induction false} LowOfSmall(x: nat, h: nat)
    requires x < Pow2(h)
    ensures Low(x, h) == x
  {
    if h > 0 {
      LowOfSmall(x / 2, h - 1);
    }
  }

  /** Low bits of a sum whose first part has none. */
  lemma {:induction false} LowOfSum(x: nat, y: nat, h: nat)
    requires Low(x, h) == 0 && y < Pow2(h)
    ensures Low(x + y, h) == y
  {
    if h > 0 {
      LowOfSum(x / 2, y / 2, h - 1);
      assert (x + y) / 2 == x / 2 + y / 2;
    }
  }

  /** Dropping the last bit of a mask, and of its inverse. */
  lemma {:induction false} HalveNetmask(w: nat, p: nat)
    requires p <= w && w > 0
    ensures var m, p' := Netmask(w, p), if p == w then p - 1 else p;
            && m / 2 == Netmask(w - 1, p') && m % 2 == (if p == w then 1 else 0)
            && Not(w, m) / 2 == Not(w - 1, Netmask(w - 1, p')) && Not(w, m) % 2 == (if p == w then 0 else 1)
  {
  }

  lemma {:induction false} AndHalves(x: nat, y: nat)
    ensures And(x, y) == 2 * And(x / 2, y / 2) + if x % 2 == 1 && y % 2 == 1 then 1 else 0
  {
  }

  lemma {:induction false} LowHalves(x: nat, h: nat)
    ensures h > 0 ==> Low(x, h) == 2 * Low(x / 2, h - 1) + x % 2 && Pow2(h) == 2 * Pow2(h - 1)
    ensures x == 2 * (x / 2) + x % 2
  {
  }

  lemma {:induction false} OrHalves(x: nat, y: nat)
    ensures Or(x, y) == 2 * Or(x / 2, y / 2) + if x % 2 == 1 || y % 2 == 1 then 1 else 0
  {
  }

  /** Masking keeps the number less its low bits. */
  lemma {:induction false} AndNetmask(w: nat, p: nat, x: nat)
    requires p <= w && x < Pow2(w)
    ensures And(x, Netmask(w, p)) == x - Low(x, w - p)
  {
    if w > 0 {
      HalveNetmask(w, p);
      AndHalves(x, Netmask(w, p));
      AndNetmask(w - 1, if p == w then p - 1 else p, x / 2);
    }
  }

  /** The inverted mask keeps exactly the low bits. */
  lemma {:induction false} AndHostmask(w: nat, p: nat, x: nat)
    requires p <= w && x < Pow2(w)
    ensures And(x, Not(w, Netmask(w, p))) == Low(x, w - p)
  {
    if w > 0 {
      HalveNetmask(w, p);
      AndHalves(x, Not(w, Netmask(w, p)));
      AndHostmask(w - 1, if p == w then p - 1 else p, x / 2);
    }
  }

  /** Where one number has no bits, or-ing the other in adds it. */
  lemma {:induction false} OrDisjoint(h: nat, x: nat, y: nat)
    requires Low(x, h) == 0 && y < Pow2(h)
    ensures Or(x, y) == x + y
  {
    if h == 0 {
      OrZero(x);
    } else {
      OrDisjoint(h - 1, x / 2, y / 2);
    }
  }

  lemma {:induction false} OrZero(x: nat)
    ensures Or(x, 0) == x
  {
    if x > 0 {
      OrZero(x / 2);
    }
  }

  /** Or-ing the inverted mask in sets every low bit. */
  lemma {:induction false} OrHostmask(w: nat, p: nat, x: nat)
    requires p <= w && x < Pow2(w)
    ensures Or(x, Not(w, Netmask(w, p))) == x - Low(x, w - p) + Pow2(w - p) - 1 < Pow2(w)
  {
    if w > 0 {
      var y, p' := Not(w, Netmask(w, p)), if p == w then p - 1 else p;
      HalveNetmask(w, p);
      OrHalves(x, y);
      OrHostmask(w - 1, p', x / 2);
      LowHalves(x, w - p);
      assert Pow2(w) == 2 * Pow2(w - 1);
    }
  }

  lemma {:induction false} LowOfDouble(y: nat, c: nat, h: nat)
    requires c < 2
    ensures Low(2 * y + c, h + 1) == 2 * Low(y, h) + c
  {
    assert (2 * y + c) / 2 == y && (2 * y + c) % 2 == c;
  }

  lemma {:induction false} DoubleProduct(p: nat, r: nat)
    ensures (2 * p) * r == 2 * (p * r)
  {
  }

  /** Low bits of a number put together from a high part and `j` bits. */
  lemma {:induction false} LowOfShifted(r: nat, b: nat, j: nat, m: nat)
    requires b < Pow2(j)
    ensures Low(Pow2(j) * r + b, j + m) == Pow2(j) * Low(r, m) + b
  {
    if j > 0 {
      var p := Pow2(j - 1);
      DoubleProduct(p, r);
      DoubleProduct(p, Low(r, m));
      LowOfShifted(r, b / 2, j - 1, m);
      LowOfDouble(p * r + b / 2, b % 2, j - 1 + m);
      assert b == 2 * (b / 2) + b % 2;
    }
  }

  /** Cutting the low bits off leaves none. */
  lemma {:induction false} LowIsGone(x: nat, h: nat)
    ensures Low(x - Low(x, h), h) == 0
  {
    if h > 0 {
      LowIsGone(x / 2, h - 1);
      assert (x - Low(x, h)) / 2 == x / 2 - Low(x / 2, h - 1);
    }
  }

  /** Clearing the last bit. */
  lemma {:induction false} AndNotOne(w: nat, x: nat)
    requires w > 0 && x < Pow2(w)
    ensures And(x, Not(w, 1)) == x - x % 2
  {
    NotZero(w - 1);
    assert Not(w, 1) == Netmask(w, w - 1);
    AndNetmask(w, w - 1, x);
    assert Low(x, 1) == 2 * Low(x / 2, 0) + x % 2;
  }

  /** Leading bits of `x` and low bits of `y`, mixed under a mask. */
  lemma {:induction false} MixUnderMask(w: nat, p: nat, x: nat, y: nat)
    requires p <= w && x < Pow2(w) && y < Pow2(w)
    ensures Or(And(x, Netmask(w, p)), And(y, Not(w, Netmask(w, p)))) == x - Low(x, w - p) + Low(y, w - p)
  {
    var h, lead := w - p, x - Low(x, w - p);
    AndNetmask(w, p, x);
    AndHostmask(w, p, y);
    LowIsGone(x, h);
    OrDisjoint(h, lead, Low(y, h));
  }

  /** A number without low bits is even, and so is the size of its block. */
  lemma {:induction false} BlockIsEven(x: nat, h: nat)
    requires h > 0
    ensures (x - Low(x, h)) % 2 == 0 && Pow2(h) % 2 == 0
  {
    LowHalves(x, h);
    TwiceIsEven(x / 2 - Low(x / 2, h - 1));
    TwiceIsEven(Pow2(h - 1));
    assert x - Low(x, h) == 2 * (x / 2 - Low(x / 2, h - 1));
  }

  lemma {:induction false} TwiceIsEven(x: nat)
    ensures 2 * x % 2 == 0
  {
  }

  /** No low bits in either part, none in the sum; and fewer low bits are still none. */
  lemma {:induction false} NoLowBits(x: nat, y: nat, lo: nat, hi: nat)
    requires lo <= hi && Low(x, hi) == 0 && Low(y, lo) == 0
    ensures Low(x + y, lo) == 0
  {
    if lo > 0 {
      NoLowBits(x / 2, y / 2, lo - 1, hi - 1);
      assert (x + y) / 2 == x / 2 + y / 2;
    }
  }

  /** Placing `x` between bits `lo` and `hi` of a number that has none below `hi`. */
  lemma {:induction false} PlaceBits(base: nat, x: nat, lo: nat, hi: nat)
    requires lo <= hi && Low(base, hi) == 0 && Low(x, lo) == 0 && x < Pow2(hi)
    ensures Or(base, x) == base + x && Low(base + x, lo) == 0
  {
    OrDisjoint(hi, base, x);
    NoLowBits(base, x, lo, hi);
  }

  lemma {:induction false} NotZero(w: nat)
    ensures Not(w, 0) == Pow2(w) - 1
  {
    if w > 0 {
      NotZero(w - 1);
    }
  }

  lemma {:induction false} Pow2Add(a: nat, b: nat)
    ensures Pow2(a + b) == Pow2(a) * Pow2(b)
  {
    if a > 0 {
      Pow2Add(a - 1, b);
    }
  }

  lemma {:induction false} Pow2Values()
    ensures Pow2(15) == 0x8000 && Pow2(16) == 0x1_0000 && Pow2(32) == 0x1_0000_0000
    ensures Pow2(64) == 0x1_0000_0000_0000_0000
    ensures Pow2(79) == 0x8000_0000_0000_0000_0000
    ensures Pow2(80) == 0x1_0000_0000_0000_0000_0000
    ensures Pow2(128) == 0x1_0000_0000_0000_0000_0000_0000_0000_0000
  {
    assert Pow2(8) == 0x100;
    Pow2Add(8, 8);
    Pow2Add(16, 16);
    Pow2Add(32, 32);
    Pow2Add(64, 64);
    Pow2Add(64, 15);
    Pow2Add(64, 16);
  }
}

/**
 Bitwise operators on natural numbers, written out bit by bit so that the id macros can be
 stated exactly as the source writes them and still be reasoned about as arithmetic.
 */
module Bits {
  function Pow2(k: nat): (p: nat)
    ensures p >= 1
  {
    if k == 0 then 1 else 2 * Pow2(k - 1)
  }

  function And(a: nat, b: nat): nat {
    if a == 0 || b == 0 then 0
    else 2 * And(a / 2, b / 2) + (a % 2) * (b % 2)
  }

  function Or(a: nat, b: nat): nat {
    if a == 0 then b
    else if b == 0 then a
    else 2 * Or(a / 2, b / 2) + (if a % 2 + b % 2 > 0 then 1 else 0)
  }

  /** Left shift of a 64-bit word: bits shifted past bit 63 are lost. */
  function Shl64(a: nat, k: nat): nat {
    (a * Pow2(k)) % 0x1_0000_0000_0000_0000
  }

  function Shr(a: nat, k: nat): nat {
    DivMod(a, Pow2(k));
    a / Pow2(k)
  }

  lemma {:induction false} Pow2Add(a: nat, b: nat)
    ensures Pow2(a + b) == Pow2(a) * Pow2(b)
  {
    if a > 0 {
      Pow2Add(a - 1, b);
      assert Pow2(a + b) == 2 * Pow2(a + b - 1);
    }
  }

  /** The powers of two used by the id layouts. */
  lemma Pow2Values()
    ensures Pow2(7) == 0x80 && Pow2(8) == 0x100 && Pow2(16) == 0x1_0000
    ensures Pow2(32) == 0x1_0000_0000 && Pow2(48) == 0x1_0000_0000_0000
    ensures Pow2(56) == 0x100_0000_0000_0000
    ensures Pow2(60) == 0x1000_0000_0000_0000 && Pow2(61) == 0x2000_0000_0000_0000
  {
    assert Pow2(4) == 16;
    Pow2Add(4, 4);
    assert Pow2(8) == 2 * Pow2(7);
    Pow2Add(8, 8);
    Pow2Add(16, 16);
    Pow2Add(32, 16);
    Pow2Add(48, 8);
    Pow2Add(56, 4);
    assert Pow2(61) == 2 * Pow2(60);
  }

  /** `And` works separately on the bits from k upwards and on the bits below k. */
  lemma {:induction false} AndSplit(x: nat, y: nat, xh: nat, xl: nat, yh: nat, yl: nat, k: nat)
    requires xl < Pow2(k) && yl < Pow2(k)
    requires x == xh * Pow2(k) + xl && y == yh * Pow2(k) + yl
    ensures And(x, y) == And(xh, yh) * Pow2(k) + And(xl, yl)
    decreases k
  {
    if k > 0 {
      Halve(x, xh, xl, Pow2(k - 1));
      Halve(y, yh, yl, Pow2(k - 1));
      AndSplit(x / 2, y / 2, xh, xl / 2, yh, yl / 2, k - 1);
      AndStep(x, y);
      AndStep(xl, yl);
      Regroup(And(xh, yh), Pow2(k - 1), And(xl / 2, yl / 2));
    }
  }

  /** `Or` works separately on the bits from k upwards and on the bits below k. */
  lemma {:induction false} OrSplit(x: nat, y: nat, xh: nat, xl: nat, yh: nat, yl: nat, k: nat)
    requires xl < Pow2(k) && yl < Pow2(k)
    requires x == xh * Pow2(k) + xl && y == yh * Pow2(k) + yl
    ensures Or(x, y) == Or(xh, yh) * Pow2(k) + Or(xl, yl)
    decreases k
  {
    if k > 0 {
      Halve(x, xh, xl, Pow2(k - 1));
      Halve(y, yh, yl, Pow2(k - 1));
      OrSplit(x / 2, y / 2, xh, xl / 2, yh, yl / 2, k - 1);
      OrStep(x, y);
      OrStep(xl, yl);
      Regroup(Or(xh, yh), Pow2(k - 1), Or(xl / 2, yl / 2));
    }
  }

  lemma Halve(x: nat, xh: nat, xl: nat, h: nat)
    requires x == xh * (2 * h) + xl
    ensures x / 2 == xh * h + xl / 2 && x % 2 == xl % 2
  {}

  lemma Regroup(a: nat, h: nat, b: nat)
    ensures 2 * (a * h + b) == a * (2 * h) + 2 * b
  {}

  lemma AndStep(a: nat, b: nat)
    ensures And(a, b) == 2 * And(a / 2, b / 2) + (a % 2) * (b % 2)
  {}

  lemma OrStep(a: nat, b: nat)
    ensures Or(a, b) == 2 * Or(a / 2, b / 2) + (if a % 2 + b % 2 > 0 then 1 else 0)
  {}

  lemma {:induction false} AndOnes(x: nat, n: nat)
    requires x < Pow2(n)
    ensures And(x, Pow2(n) - 1) == x
  {
    if n > 0 {
      AndOnes(x / 2, n - 1);
      AndStep(x, Pow2(n) - 1);
      assert (Pow2(n) - 1) / 2 == Pow2(n - 1) - 1;
    }
  }

  lemma DivMod(x: nat, d: nat)
    requires d > 0
    ensures x == (x / d) * d + x % d && x % d < d && 0 <= x / d
  {}

  /** Masking with n ones keeps the low n bits. */
  lemma AndLow(x: nat, n: nat)
    ensures And(x, Pow2(n) - 1) == x % Pow2(n)
  {
    var p := Pow2(n);
    var h, l := x / p, x % p;
    DivMod(x, p);
    AndSplit(x, p - 1, h, l, 0, p - 1, n);
    AndOnes(l, n);
    assert And(h, 0) == 0;
  }

  /** Masking with n ones from bit k selects those n bits and leaves them in place. */
  lemma AndField(x: nat, n: nat, k: nat)
    ensures And(x, (Pow2(n) - 1) * Pow2(k)) == ((x / Pow2(k)) % Pow2(n)) * Pow2(k)
  {
    var p, ones := Pow2(k), Pow2(n) - 1;
    var h, l := x / p, x % p;
    DivMod(x, p);
    AndSplit(x, ones * p, h, l, ones, 0, k);
    AndLow(h, n);
    assert And(l, 0) == 0;
  }

  /** `AndField` with its powers of two named, so that callers deal in numerals only. */
  lemma MaskedField(x: nat, mask: nat, n: nat, size: nat, k: nat, unit: nat)
    requires size == Pow2(n) && unit == Pow2(k) && mask == (size - 1) * unit
    ensures And(x, mask) == ((x / unit) % size) * unit
    ensures Shr(And(x, mask), k) == (x / unit) % size
  {
    AndField(x, n, k);
    MulDiv((x / unit) % size, unit);
  }

  lemma MulDiv(a: nat, d: nat)
    requires d > 0
    ensures (a * d) / d == a
  {
    var x := a * d;
    DivMod(x, d);
    MulGap(a, x / d, d, x % d);
  }

  lemma MulGap(a: nat, q: nat, d: nat, r: nat)
    requires r < d && a * d == q * d + r
    ensures a == q
  {
    if a > q {
      MulAtLeast(a - q, d, q);
    } else if a < q {
      MulAtLeast(q - a, d, a);
    }
  }

  lemma MulAtLeast(t: nat, d: nat, b: nat)
    requires t > 0
    ensures (b + t) * d >= b * d + d
  {}

  /** A shift that loses no bits is multiplication. */
  lemma ShlExact(a: nat, k: nat, unit: nat)
    requires unit == Pow2(k) && a * unit < 0x1_0000_0000_0000_0000
    ensures Shl64(a, k) == a * unit
  {}

  /** Or-ing a word that is zero below bit k with one that fits below bit k is addition. */
  lemma OrDisjoint(xh: nat, yl: nat, k: nat)
    requires yl < Pow2(k)
    ensures Or(xh * Pow2(k), yl) == xh * Pow2(k) + yl
  {
    OrSplit(xh * Pow2(k), yl, xh, 0, 0, yl, k);
  }

  /** A mask that is all ones below bit k leaves the low k bits alone. */
  lemma AndKeepsLow(xh: nat, xl: nat, mh: nat, k: nat)
    requires xl < Pow2(k)
    ensures And(xh * Pow2(k) + xl, mh * Pow2(k) + (Pow2(k) - 1)) == And(xh, mh) * Pow2(k) + xl
  {
    AndSplit(xh * Pow2(k) + xl, mh * Pow2(k) + (Pow2(k) - 1), xh, xl, mh, Pow2(k) - 1, k);
    AndOnes(xl, k);
  }
}

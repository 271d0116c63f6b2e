/** Machine words as natural numbers, read bit by bit.
    The drivers shift, mask and merge words by variable amounts; every such operation is
    described here by what it does to each single bit. */
module Bits {

  function Pow2(k: nat): (p: nat)
    ensures p > 0
  {
    if k == 0 then 1 else 2 * Pow2(k - 1)
  }

  predicate Bit(x: nat, i: nat) {
    if i == 0 then x % 2 == 1 else Bit(x / 2, i - 1)
  }

  function Or(x: nat, y: nat): nat {
    if x == 0 then y
    else if y == 0 then x
    else (if x % 2 == 1 || y % 2 == 1 then 1 else 0) + 2 * Or(x / 2, y / 2)
  }

  function And(x: nat, y: nat): nat {
    if x == 0 || y == 0 then 0
    else (if x % 2 == 1 && y % 2 == 1 then 1 else 0) + 2 * And(x / 2, y / 2)
  }

  function Xor(x: nat, y: nat): nat {
    if x == 0 then y
    else if y == 0 then x
    else (if x % 2 != y % 2 then 1 else 0) + 2 * Xor(x / 2, y / 2)
  }

  /** x << k */
  function Shl(x: nat, k: nat): nat
    decreases k
  {
    if k == 0 then x else Shl(2 * x, k - 1)
  }

  /** x >> k */
  function Shr(x: nat, k: nat): nat
    decreases k
  {
    if k == 0 then x else Shr(x / 2, k - 1)
  }

  /** Bit i is the parity of the word without its i lowest bits. */
  lemma {:induction false} BitExactly(x: nat, i: nat)
    ensures Bit(x, i) <==> x / Pow2(i) % 2 == 1
    decreases i
  {
    if i > 0 {
      BitExactly(x / 2, i - 1);
      DivideTwice(x, Pow2(i - 1));
    }
  }

  lemma DivideTwice(x: nat, p: nat)
    requires p > 0
    ensures x / 2 / p == x / (2 * p)
  {
    var q := x / 2 / p;
    Remainder(x / 2, p);
    Spread(q, p);
    QuotientIs(x, 2 * p, q);
  }

  lemma Spread(q: nat, p: nat)
    ensures (q + 1) * p == q * p + p && q * (2 * p) == 2 * (q * p) && (q + 1) * (2 * p) == 2 * (q * p) + 2 * p
  {
  }

  lemma Remainder(x: nat, p: nat)
    requires p > 0
    ensures x / p * p <= x < (x / p + 1) * p
  {
  }

  lemma QuotientIs(x: nat, p: nat, q: nat)
    requires p > 0 && q * p <= x < (q + 1) * p
    ensures x / p == q
  {
    Remainder(x, p);
    var r := x / p;
    TimesOrder(r + 1, q, p);
    TimesOrder(q + 1, r, p);
  }

  lemma TimesOrder(a: nat, b: nat, p: nat)
    ensures a <= b ==> a * p <= b * p
  {
  }

  /** Powers of two, shifts left and right. */
  lemma {:induction false} ShiftsExactly(x: nat, k: nat)
    ensures Shl(x, k) == x * Pow2(k) && Shr(x, k) == x / Pow2(k)
    decreases k
  {
    if k > 0 {
      ShiftsExactly(2 * x, k - 1);
      ShiftsExactly(x / 2, k - 1);
      DivideTwice(x, Pow2(k - 1));
      Halved(x, Pow2(k - 1));
    }
  }

  lemma Halved(x: nat, p: nat)
    ensures 2 * x * p == x * (2 * p)
  {
  }

  lemma {:induction false} ZeroBits(i: nat)
    ensures !Bit(0, i)
  {
    if i > 0 { ZeroBits(i - 1); }
  }

  lemma {:induction false} OrBits(x: nat, y: nat, i: nat)
    ensures Bit(Or(x, y), i) <==> Bit(x, i) || Bit(y, i)
    decreases i
  {
    ZeroBits(i);
    if i > 0 && x > 0 && y > 0 { OrBits(x / 2, y / 2, i - 1); }
  }

  lemma {:induction false} AndBits(x: nat, y: nat, i: nat)
    ensures Bit(And(x, y), i) <==> Bit(x, i) && Bit(y, i)
    decreases i
  {
    ZeroBits(i);
    if i > 0 && x > 0 && y > 0 { AndBits(x / 2, y / 2, i - 1); }
  }

  lemma {:induction false} XorBits(x: nat, y: nat, i: nat)
    ensures Bit(Xor(x, y), i) <==> Bit(x, i) != Bit(y, i)
    decreases i
  {
    ZeroBits(i);
    if i > 0 && x > 0 && y > 0 { XorBits(x / 2, y / 2, i - 1); }
  }

  lemma {:induction false} ShlBits(x: nat, k: nat, i: nat)
    ensures Bit(Shl(x, k), i) <==> i >= k && Bit(x, i - k)
    decreases k
  {
    if k > 0 {
      ShlBits(2 * x, k - 1, i);
      if i >= k { assert Bit(2 * x, i - k + 1) == Bit(x, i - k); }
      if i == k - 1 { assert !Bit(2 * x, 0); }
    }
  }

  lemma {:induction false} ShrBits(x: nat, k: nat, i: nat)
    ensures Bit(Shr(x, k), i) <==> Bit(x, k + i)
    decreases k
  {
    if k > 0 { ShrBits(x / 2, k - 1, i); }
  }

  /** Two words with the same bits are the same word. */
  lemma {:induction false} SameBits(x: nat, y: nat)
    requires forall i: nat :: Bit(x, i) == Bit(y, i)
    ensures x == y
    decreases x + y
  {
    if x != y {
      assert Bit(x, 0) == Bit(y, 0);
      forall i: nat ensures Bit(x / 2, i) == Bit(y / 2, i) {
        assert Bit(x, i + 1) == Bit(y, i + 1);
      }
      SameBits(x / 2, y / 2);
    }
  }

  /** A word that is not zero has a bit set. */
  lemma {:induction false} NonZeroBit(x: nat) returns (i: nat)
    requires x != 0
    ensures Bit(x, i)
  {
    if x % 2 == 1 {
      i := 0;
    } else {
      var j := NonZeroBit(x / 2);
      i := j + 1;
    }
  }

  lemma {:induction false} HighBitClear(x: nat, n: nat, i: nat)
    requires x < Pow2(n) && i >= n
    ensures !Bit(x, i)
    decreases i
  {
    if n == 0 {
      ZeroBits(i);
    } else {
      HighBitClear(x / 2, n - 1, i - 1);
    }
  }

  lemma {:induction false} HighBitSet(x: nat, n: nat) returns (i: nat)
    requires x >= Pow2(n)
    ensures i >= n && Bit(x, i)
    decreases n
  {
    if n == 0 {
      i := NonZeroBit(x);
    } else {
      var j := HighBitSet(x / 2, n - 1);
      i := j + 1;
    }
  }

  /** A word fits n bits exactly when every bit from n on is clear. */
  lemma FitsBits(x: nat, n: nat)
    ensures x < Pow2(n) ==> forall i: nat :: i >= n ==> !Bit(x, i)
    ensures (forall i: nat :: i >= n ==> !Bit(x, i)) ==> x < Pow2(n)
  {
    if x < Pow2(n) {
      forall i: nat | i >= n ensures !Bit(x, i) { HighBitClear(x, n, i); }
    } else {
      var i := HighBitSet(x, n);
      assert !(i >= n ==> !Bit(x, i));
    }
  }

  /** The n lowest bits as a mask. */
  lemma {:induction false} LowMaskBits(n: nat, i: nat)
    ensures Bit(Pow2(n) - 1, i) <==> i < n
    decreases n
  {
    if n == 0 {
      ZeroBits(i);
    } else if i > 0 {
      assert (Pow2(n) - 1) / 2 == Pow2(n - 1) - 1;
      LowMaskBits(n - 1, i - 1);
    }
  }

  lemma {:induction false} OneBits(i: nat)
    ensures Bit(1, i) <==> i == 0
  {
    if i > 0 { ZeroBits(i - 1); }
  }
}

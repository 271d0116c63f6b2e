/** Polynomials over GF(2), bit i standing for x^i: the CRC is the remainder of the message, shifted by
    eight bits, by x^8 + x^2 + x + 1. */
module Crc8Polynomial {
  import opened Bits
  import opened Bytes
  import opened Crc8

  /** x^8 + x^2 + x + 1 */
  const GENERATOR: nat := 0x107

  /** The product without carries. */
  function Times(p: nat, q: nat): nat {
    if p == 0 then 0 else Xor(if p % 2 == 1 then q else 0, 2 * Times(p / 2, q))
  }

  /** A message as one number, its first byte the most significant. */
  function Message(data: seq<Byte>): nat {
    if data == [] then 0 else 256 * Message(data[..|data| - 1]) + data[|data| - 1]
  }

  // ---------- sums ----------

  lemma XorSwaps(a: nat, b: nat)
    ensures Xor(a, b) == Xor(b, a)
  {
    forall i: nat ensures Bit(Xor(a, b), i) == Bit(Xor(b, a), i) {
      XorBits(a, b, i);
      XorBits(b, a, i);
    }
    SameBits(Xor(a, b), Xor(b, a));
  }

  lemma XorGroups(a: nat, b: nat, c: nat)
    ensures Xor(Xor(a, b), c) == Xor(a, Xor(b, c))
  {
    forall i: nat ensures Bit(Xor(Xor(a, b), c), i) == Bit(Xor(a, Xor(b, c)), i) {
      XorBits(Xor(a, b), c, i);
      XorBits(a, b, i);
      XorBits(a, Xor(b, c), i);
      XorBits(b, c, i);
    }
    SameBits(Xor(Xor(a, b), c), Xor(a, Xor(b, c)));
  }

  lemma XorSelf(a: nat)
    ensures Xor(a, a) == 0
  {
    forall i: nat ensures Bit(Xor(a, a), i) == Bit(0, i) {
      XorBits(a, a, i);
      ZeroBits(i);
    }
    SameBits(Xor(a, a), 0);
  }

  /** Two sums of two terms each, added term by term. */
  lemma XorPairs(a: nat, b: nat, c: nat, d: nat)
    ensures Xor(Xor(a, b), Xor(c, d)) == Xor(Xor(a, c), Xor(b, d))
  {
    forall i: nat ensures Bit(Xor(Xor(a, b), Xor(c, d)), i) == Bit(Xor(Xor(a, c), Xor(b, d)), i) {
      XorBits(Xor(a, b), Xor(c, d), i);
      XorBits(a, b, i);
      XorBits(c, d, i);
      XorBits(Xor(a, c), Xor(b, d), i);
      XorBits(a, c, i);
      XorBits(b, d, i);
    }
    SameBits(Xor(Xor(a, b), Xor(c, d)), Xor(Xor(a, c), Xor(b, d)));
  }

  lemma XorDoubles(a: nat, b: nat)
    ensures Xor(2 * a, 2 * b) == 2 * Xor(a, b)
  {
  }

  lemma Twice(x: nat, p: nat)
    ensures x * (2 * p) == 2 * (x * p)
  {
  }

  lemma {:induction false} XorScales(a: nat, b: nat, n: nat)
    ensures Xor(a * Pow2(n), b * Pow2(n)) == Xor(a, b) * Pow2(n)
  {
    hide Xor;
    if n > 0 {
      var p := Pow2(n - 1);
      XorScales(a, b, n - 1);
      XorDoubles(a * p, b * p);
      Twice(a, p);
      Twice(b, p);
      Twice(Xor(a, b), p);
    }
  }

  /** A multiple of 2^n and a number below 2^n have no bit in common. */
  lemma {:induction false} XorJoins(a: nat, b: nat, n: nat)
    requires b < Pow2(n)
    ensures Xor(a * Pow2(n), b) == a * Pow2(n) + b
    decreases n
  {
    hide Xor;
    if n == 0 {
      XorZero(a);
    } else {
      var p := Pow2(n - 1);
      XorJoins(a, b / 2, n - 1);
      XorTail(a * p, b);
      Twice(a, p);
    }
  }

  lemma XorZero(a: nat)
    ensures Xor(a, 0) == a && Xor(0, a) == a
  {
  }

  lemma XorByte(a: nat, b: Byte)
    ensures Xor(256 * a, b) == 256 * a + b
  {
    Byte256();
    XorJoins(a, b, 8);
  }

  lemma Byte256()
    ensures Pow2(8) == 256
  {
    assert Pow2(4) == 16;
  }

  /** One step of a sum whose left side is even. */
  lemma XorTail(a: nat, b: nat)
    ensures Xor(2 * a, b) == b % 2 + 2 * Xor(a, b / 2)
  {
  }

  // ---------- products ----------

  lemma {:induction false} TimesAdds(p: nat, q: nat, y: nat)
    ensures Times(Xor(p, q), y) == Xor(Times(p, y), Times(q, y))
    decreases p + q
  {
    if p != 0 && q != 0 {
      var u, v := if p % 2 == 1 then y else 0, if q % 2 == 1 then y else 0;
      var s, t := 2 * Times(p / 2, y), 2 * Times(q / 2, y);
      TimesAdds(p / 2, q / 2, y);
      XorDoubles(Times(p / 2, y), Times(q / 2, y));
      XorPairs(u, s, v, t);
      XorSelf(y);
      assert Xor(p, q) % 2 == (if p % 2 != q % 2 then 1 else 0) && Xor(p, q) / 2 == Xor(p / 2, q / 2);
      assert Xor(u, v) == if p % 2 != q % 2 then y else 0;
    }
  }

  lemma {:induction false} TimesScales(p: nat, y: nat, n: nat)
    ensures Times(p * Pow2(n), y) == Times(p, y) * Pow2(n)
  {
    hide Times;
    if n > 0 {
      var s := p * Pow2(n - 1);
      TimesScales(p, y, n - 1);
      TimesDoubles(s, y);
      Twice(p, Pow2(n - 1));
      Twice(Times(p, y), Pow2(n - 1));
    }
  }

  lemma TimesDoubles(s: nat, y: nat)
    ensures Times(2 * s, y) == 2 * Times(s, y)
  {
    XorZero(2 * Times(s, y));
  }

  /** Every multiple of the generator but 0 has a bit beyond the lowest eight. */
  lemma {:induction false} MultiplesAreLong(q: nat)
    requires q > 0
    ensures Times(q, GENERATOR) >= 256
    decreases q
  {
    var u := if q % 2 == 1 then GENERATOR else 0;
    if q == 1 {
      assert Times(0, GENERATOR) == 0;
    } else {
      var t := Times(q / 2, GENERATOR);
      MultiplesAreLong(q / 2);
      assert Pow2(4) == 16;
      assert Pow2(8) == 256;
      assert Pow2(9) == 512;
      var i := HighBitSet(2 * t, 9);
      HighBitClear(u, 9, i);
      XorBits(u, 2 * t, i);
      if Xor(u, 2 * t) < 256 { HighBitClear(Xor(u, 2 * t), 8, i); }
    }
  }

  // ---------- the remainder ----------

  /** Shifting one zero bit into the CRC register multiplies by x, modulo the generator. */
  lemma ShiftOneReduces(c: Byte)
    ensures Xor(2 * c, ShiftOne(c)) == Times(if c < 0x80 then 0 else 1, GENERATOR)
  {
    if c < 0x80 {
      XorSelf(2 * c);
    } else {
      var low: Byte := 2 * c - 256;
      assert Times(0, GENERATOR) == 0;
      assert Xor(256, low) == 2 * c by { XorByte(1, low); }
      assert Xor(256, 0x07) == GENERATOR by { XorByte(1, 0x07); }
      assert Xor(Xor(256, low), Xor(low, 0x07)) == Xor(256, 0x07) by {
        XorGroups(256, low, Xor(low, 0x07));
        XorGroups(low, low, 0x07);
        XorSelf(low);
      }
    }
  }

  lemma CancelMiddle(a: nat, b: nat, c: nat)
    ensures Xor(Xor(a, b), Xor(b, c)) == Xor(a, c)
  {
    XorGroups(a, b, Xor(b, c));
    XorGroups(b, b, c);
    XorSelf(b);
  }

  /** Differing by a multiple of the generator is transitive. */
  lemma Chain(a: nat, b: nat, c: nat, p: nat, q: nat)
    requires Xor(a, b) == Times(p, GENERATOR) && Xor(b, c) == Times(q, GENERATOR)
    ensures Xor(a, c) == Times(Xor(p, q), GENERATOR)
  {
    TimesAdds(p, q, GENERATOR);
    CancelMiddle(a, b, c);
  }

  /** It is kept by multiplying with a power of x. */
  lemma Scale(a: nat, b: nat, p: nat, n: nat)
    requires Xor(a, b) == Times(p, GENERATOR)
    ensures Xor(a * Pow2(n), b * Pow2(n)) == Times(p * Pow2(n), GENERATOR)
  {
    XorScales(a, b, n);
    TimesScales(p, GENERATOR, n);
  }

  lemma {:induction false} ShiftManyReduces(c: Byte, n: nat) returns (q: nat)
    ensures Xor(c * Pow2(n), ShiftMany(c, n)) == Times(q, GENERATOR)
    decreases n, 1
  {
    if n == 0 {
      XorSelf(c);
      q := 0;
    } else {
      q := ShiftStep(c, n);
    }
  }

  lemma {:induction false} ShiftStep(c: Byte, n: nat) returns (q: nat)
    requires n > 0
    ensures Xor(c * Pow2(n), ShiftMany(c, n)) == Times(q, GENERATOR)
    decreases n, 0
  {
    hide Xor, Times, ShiftOne;
    var d := ShiftOne(c);
    var e: nat := if c < 0x80 then 0 else 1;
    var r := ShiftManyReduces(d, n - 1);
    ShiftOneReduces(c);
    Scale(2 * c, d, e, n - 1);
    Twice(c, Pow2(n - 1));
    var a := c * Pow2(n);
    assert a == 2 * c * Pow2(n - 1);
    q := Xor(e * Pow2(n - 1), r);
    Chain(a, d * Pow2(n - 1), ShiftMany(d, n - 1), e * Pow2(n - 1), r);
  }

  /** Message times x^8 and CRC differ by a multiple of the generator. */
  lemma {:induction false} CrcReduces(data: seq<Byte>) returns (q: nat)
    ensures Xor(256 * Message(data), Crc(0, data)) == Times(q, GENERATOR)
    decreases |data|
  {
    if data == [] {
      q := 0;
    } else {
      var front, b := data[..|data| - 1], data[|data| - 1];
      var p := CrcReduces(front);
      XorFits(Crc(0, front), b);
      q := NextByteReduces(Message(front), Crc(0, front), b, p);
    }
  }

  lemma NextByteReduces(w: nat, c: Byte, b: Byte, p: nat) returns (q: nat)
    requires Xor(256 * w, c) == Times(p, GENERATOR) && Xor(c, b) < 256
    ensures Xor(256 * (256 * w + b), ShiftMany(Xor(c, b), 8)) == Times(q, GENERATOR)
  {
    hide Xor, Times, ShiftMany, Pow2;
    var x: Byte := Xor(c, b);
    var m := 256 * w + b;
    XorByte(w, b);
    XorPairs(256 * w, b, c, b);
    XorSelf(b);
    XorZero(Xor(256 * w, c));
    assert Xor(m, x) == Times(p, GENERATOR);
    Scale(m, x, p, 8);
    var r := ShiftManyReduces(x, 8);
    Byte256();
    q := Xor(p * 256, r);
    Chain(256 * m, 256 * x, ShiftMany(x, 8), p * 256, r);
  }

  /** The CRC is the one value below 256 that differs from the message times x^8 by a multiple of the
      generator: the remainder of the division. */
  lemma CrcIsRemainder(data: seq<Byte>, r: Byte)
    ensures r == Crc(0, data) <==> exists q :: Xor(256 * Message(data), r) == Times(q, GENERATOR)
  {
    var m, c := 256 * Message(data), Crc(0, data);
    var p := CrcReduces(data);
    if q :| Xor(m, r) == Times(q, GENERATOR) {
      TimesAdds(p, q, GENERATOR);
      XorSwaps(m, c);
      CancelMiddle(c, m, r);
      XorFits(c, r);
      if Xor(p, q) > 0 { MultiplesAreLong(Xor(p, q)); }
      assert Xor(c, r) == 0;
      XorSelf(c);
      XorCancels(c, c, r);
    }
  }
}

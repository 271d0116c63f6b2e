/** The CRC with generator x^8 + x^2 + x + 1 and initial value 0 that protects single bytes on the
    bus. */
module Crc8 {
  import opened Bits
  import opened Bytes

  /** Shift in one zero bit. */
  function ShiftOne(c: Byte): (r: Byte) {
    if c < 0x80 then 2 * c
    else
      XorFits(2 * c - 256, 0x07);
      Xor(2 * c - 256, 0x07)
  }

  function ShiftMany(c: Byte, n: nat): Byte
    decreases n
  {
    if n == 0 then c else ShiftMany(ShiftOne(c), n - 1)
  }

  /** The CRC of data, continuing from crc. */
  function Crc(crc: Byte, data: seq<Byte>): Byte {
    if data == [] then crc
    else
      var before := Crc(crc, data[..|data| - 1]);
      XorFits(before, data[|data| - 1]);
      ShiftMany(Xor(before, data[|data| - 1]), 8)
  }

  lemma XorFits(x: nat, y: nat)
    requires x < 256 && y < 256
    ensures Xor(x, y) < 256
  {
    assert Pow2(8) == 256 by { assert Pow2(4) == 16; }
    if Xor(x, y) >= 256 {
      var i := HighBitSet(Xor(x, y), 8);
      XorBits(x, y, i);
      HighBitClear(x, 8, i);
      HighBitClear(y, 8, i);
    }
  }

  lemma XorCancels(x: nat, a: nat, b: nat)
    requires Xor(x, a) == Xor(x, b) || Xor(a, x) == Xor(b, x)
    ensures a == b
  {
    forall i: nat ensures Bit(a, i) == Bit(b, i) {
      XorBits(x, a, i);
      XorBits(x, b, i);
      XorBits(a, x, i);
      XorBits(b, x, i);
    }
    SameBits(a, b);
  }

  lemma ShiftOneInjective(a: Byte, b: Byte)
    requires ShiftOne(a) == ShiftOne(b)
    ensures a == b
  {
    XorOdd(2 * a - 256);
    XorOdd(2 * b - 256);
    if a >= 0x80 && b >= 0x80 { XorCancels(0x07, 2 * a - 256, 2 * b - 256); }
  }

  lemma XorOdd(x: int)
    ensures x >= 0 && x % 2 == 0 ==> Xor(x, 0x07) % 2 == 1
  {
    if x >= 0 { XorBits(x, 0x07, 0); }
  }

  lemma {:induction false} ShiftManyInjective(a: Byte, b: Byte, n: nat)
    requires ShiftMany(a, n) == ShiftMany(b, n)
    ensures a == b
    decreases n
  {
    if n > 0 {
      ShiftManyInjective(ShiftOne(a), ShiftOne(b), n - 1);
      ShiftOneInjective(a, b);
    }
  }

  /** Changing the last byte changes the CRC. */
  lemma CrcDetects(crc: Byte, head: seq<Byte>, a: Byte, b: Byte)
    requires Crc(crc, head + [a]) == Crc(crc, head + [b])
    ensures a == b
  {
    assert (head + [a])[..|head|] == head && (head + [b])[..|head|] == head;
    var before := Crc(crc, head);
    XorFits(before, a);
    XorFits(before, b);
    ShiftManyInjective(Xor(before, a), Xor(before, b), 8);
    XorCancels(before, a, b);
  }

  /** The same bytes keep two different CRCs apart. */
  lemma {:induction false} CrcKeepsApart(x: Byte, y: Byte, data: seq<Byte>)
    requires Crc(x, data) == Crc(y, data)
    ensures x == y
    decreases |data|
  {
    if data != [] {
      var n := |data| - 1;
      var p, q := Crc(x, data[..n]), Crc(y, data[..n]);
      XorFits(p, data[n]);
      XorFits(q, data[n]);
      ShiftManyInjective(Xor(p, data[n]), Xor(q, data[n]), 8);
      XorCancels(data[n], p, q);
      CrcKeepsApart(x, y, data[..n]);
    }
  }

  lemma {:induction false} CrcSplits(crc: Byte, a: seq<Byte>, b: seq<Byte>)
    ensures Crc(crc, a + b) == Crc(Crc(crc, a), b)
    decreases |b|
  {
    hide ShiftMany, Xor;
    if b == [] {
      assert a + b == a;
    } else {
      var n := |b| - 1;
      assert (a + b)[..|a| + n] == a + b[..n];
      CrcSplits(crc, a, b[..n]);
    }
  }

  /** Changing any one byte of a message changes its CRC. */
  lemma OneByteChangesCrc(crc: Byte, before: seq<Byte>, a: Byte, b: Byte, after: seq<Byte>)
    requires Crc(crc, before + [a] + after) == Crc(crc, before + [b] + after)
    ensures a == b
  {
    CrcSplits(crc, before + [a], after);
    CrcSplits(crc, before + [b], after);
    CrcKeepsApart(Crc(crc, before + [a]), Crc(crc, before + [b]), after);
    CrcDetects(crc, before, a, b);
  }

  /** Byte by byte, as a driver computes it. */
  method Compute(crc: Byte, data: seq<Byte>) returns (r: Byte)
    ensures r == Crc(crc, data)
  {
    r := crc;
    for i := 0 to |data|
      invariant r == Crc(crc, data[..i])
    {
      XorFits(r, data[i]);
      r := Xor(r, data[i]);
      ghost var start := r;
      for k := 0 to 8
        invariant ShiftMany(start, 8) == ShiftMany(r, 8 - k)
      {
        r := ShiftOne(r);
      }
      assert data[..i + 1][..i] == data[..i];
    }
    assert data[..|data|] == data;
  }
}

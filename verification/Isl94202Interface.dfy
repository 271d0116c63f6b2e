/** Register access and field encoders of the ISL94202 driver. */
module Isl94202Interface {
  import opened Bits
  import opened Bytes
  import opened Thresholds

  /** The addresses the driver refuses to write. */
  predicate Writable(reg: Byte, n: nat) {
    !(0x58 < reg < 0x7F) && reg + n <= 0xAB && n <= 4
  }

  class Chip {
    const mem: array<Byte>

    ghost predicate Valid() { mem.Length == 0xAC }

    constructor ()
      ensures Valid() && fresh(mem)
    {
      mem := new Byte[0xAC](_ => 0);
    }

    /** ok tells whether the bus transfer succeeds. */
    method WriteBytes(reg: Byte, data: seq<Byte>, ok: bool) returns (success: bool)
      requires Valid()
      modifies mem
      ensures success <==> ok && (reg <= 0x58 || reg >= 0x7F) && reg + |data| <= 0xAB && |data| <= 4
      ensures mem[..] == if success then Splice(old(mem[..]), reg, data) else old(mem[..])
    {
      if (reg > 0x58 && reg < 0x7F) || reg + |data| > 0xAB || |data| > 4 || !ok {
        return false;
      }
      ghost var before := mem[..];
      for i := 0 to |data|
        invariant mem[..] == Splice(before, reg, data[..i])
      {
        mem[reg + i] := data[i];
      }
      assert data[..|data|] == data;
      return true;
    }

    method WriteWord(reg: Byte, word: Word16, ok: bool) returns (success: bool)
      requires Valid()
      modifies mem
      ensures success <==> Writable(reg, 2) && ok
      ensures mem[..] == if success then Splice(old(mem[..]), reg, WordBytes(word)) else old(mem[..])
    {
      success := WriteBytes(reg, [word % 256, word / 256], ok);
    }

    /** Little-endian word. */
    function ReadWord(reg: Byte): (w: Word16)
      requires Valid() && reg <= 0xAA
      reads mem
      ensures mem[reg..reg + 2] == WordBytes(w)
      ensures w == mem[reg] as int + 256 * mem[reg + 1] as int
    {
      var low: int, high: int := mem[reg], mem[reg + 1];
      low + 256 * high
    }

    method WriteDelay(reg: Byte, unit: Byte, value: Word16, extra: Byte, ok: bool) returns (success: bool)
      requires Valid()
      modifies mem
      ensures success <==> DelayWord(unit, value, extra).Some? && Writable(reg, 2) && ok
      ensures mem[..] == if success then Splice(old(mem[..]), reg, WordBytes(DelayWord(unit, value, extra).word))
                         else old(mem[..])
    {
      if unit > DELAY_MIN || extra > 0xF {
        return false;
      }
      var unitFinal, valueFinal := unit, value;
      if valueFinal > 1023 {
        if unitFinal < DELAY_S {
          valueFinal := valueFinal / 1000;
        } else if unitFinal == DELAY_S {
          valueFinal := valueFinal / 60;
        } else {
          return false;
        }
        unitFinal := unitFinal + 1;
      }
      success := WriteWord(reg, PackDelay(valueFinal, unitFinal, extra), ok);
    }

    /** Writes threshold and delay; the limit that applies is returned. */
    method WriteCurrentLimit(reg: Byte, thresholdsMv: seq<nat>, limit: real, shuntMOhm: real,
                             unit: Byte, delay: Word16, ok: bool) returns (success: bool, applied: real)
      requires Valid() && shuntMOhm > 0.0 && 0 < |thresholdsMv| <= 256
      requires 0.0 <= limit * shuntMOhm < 65536.0
      modifies mem
      ensures var k := LargestBelow(thresholdsMv, (limit * shuntMOhm).Floor);
              && (success <==> DelayWord(unit, delay, k).Some? && Writable(reg, 2) && ok)
              && applied == (if success then thresholdsMv[k] as real / shuntMOhm else limit)
              && mem[..] == if success then Splice(old(mem[..]), reg, WordBytes(DelayWord(unit, delay, k).word))
                            else old(mem[..])
    {
      var thresholdRaw := 0;
      var actual := thresholdsMv[0] as real / shuntMOhm;
      var i := |thresholdsMv| - 1;
      var voltage := (limit * shuntMOhm).Floor;
      while i >= 0
        invariant -1 <= i < |thresholdsMv|
        invariant thresholdRaw == 0 && actual == thresholdsMv[0] as real / shuntMOhm
        invariant LargestBelow(thresholdsMv, voltage) == LargestBelow(thresholdsMv[..i + 1], voltage)
      {
        assert thresholdsMv[..i + 1][..i] == thresholdsMv[..i];
        if voltage >= thresholdsMv[i] {
          thresholdRaw := i;
          actual := thresholdsMv[i] as real / shuntMOhm;
          break;
        }
        i := i - 1;
      }
      applied := limit;
      success := WriteDelay(reg, unit, delay, thresholdRaw, ok);
      if success {
        applied := actual;
      }
    }
  }

  // ---------- delays ----------

  const DELAY_US: Byte := 0
  const DELAY_MS: Byte := 1
  const DELAY_S: Byte := 2
  const DELAY_MIN: Byte := 3

  datatype Encoded = None | Some(word: Word16)

  /** Three fields from the lowest bit up: ten for the value, two for the unit, four for the rest;
      cut to 16 bits. */
  function PackDelay(value: nat, unit: nat, extra: nat): Word16 {
    Or(Or(value, Shl(unit, 0xA)), Shl(extra, 0xC)) % 0x1_0000
  }

  /** Value and unit after a value too long for ten bits was moved to the next unit. */
  function Scaled(unit: nat, value: nat): (nat, nat) {
    if value <= 1023 then (value, unit)
    else if unit < DELAY_S then (value / 1000, unit + 1)
    else (value / 60, unit + 1)
  }

  function DelayWord(unit: Byte, value: Word16, extra: Byte): Encoded {
    if unit > DELAY_MIN || extra > 0xF || (value > 1023 && unit == DELAY_MIN) then None
    else Some(PackDelay(Scaled(unit, value).0, Scaled(unit, value).1, extra))
  }

  /** The fields as the chip reads them. */
  function ValueField(w: nat): nat { And(w, 0x3FF) }

  function UnitField(w: nat): nat { And(Shr(w, 0xA), 0x3) }

  function ExtraField(w: nat): nat { And(Shr(w, 0xC), 0xF) }

  function UnitMicros(unit: nat): nat {
    if unit == 0 then 1 else if unit == 1 then 1000 else if unit == 2 then 1_000_000 else 60_000_000
  }

  lemma PackedBits(value: nat, unit: nat, extra: nat, i: nat)
    requires value < 1024 && unit < 4 && extra < 16
    ensures Bit(Or(Or(value, Shl(unit, 10)), Shl(extra, 12)), i) ==
            if i < 10 then Bit(value, i) else if i < 12 then Bit(unit, i - 10) else Bit(extra, i - 12)
  {
    hide Or, Shl, Pow2, Bit;
    Powers();
    if i >= 10 { HighBitClear(value, 10, i); }
    if i >= 12 { HighBitClear(unit, 2, i - 10); }
    OrBits(Or(value, Shl(unit, 10)), Shl(extra, 12), i);
    OrBits(value, Shl(unit, 10), i);
    ShlBits(unit, 10, i);
    ShlBits(extra, 12, i);
  }

  lemma PackedWord(value: nat, unit: nat, extra: nat)
    requires value < 1024 && unit < 4 && extra < 16
    ensures PackDelay(value, unit, extra) == Or(Or(value, Shl(unit, 10)), Shl(extra, 12))
  {
    hide Or, Shl, Bit, Pow2;
    var w := Or(Or(value, Shl(unit, 10)), Shl(extra, 12));
    Powers();
    if w >= 65536 {
      var i := HighBitSet(w, 16);
      PackedBits(value, unit, extra, i);
      HighBitClear(extra, 4, i - 12);
    }
  }

  lemma PackedValue(value: nat, unit: nat, extra: nat)
    requires value < 1024 && unit < 4 && extra < 16
    ensures ValueField(PackDelay(value, unit, extra)) == value
  {
    hide Or, Shl, Pow2, Bit;
    var w := PackDelay(value, unit, extra);
    PackedWord(value, unit, extra);
    Powers();
    forall i: nat ensures Bit(value, i) <==> i < 10 && Bit(w, 0 + i) {
      PackedBits(value, unit, extra, i);
      if i >= 10 { HighBitClear(value, 10, i); }
    }
    Field(w, 0, 10, value);
  }

  lemma PackedUnit(value: nat, unit: nat, extra: nat)
    requires value < 1024 && unit < 4 && extra < 16
    ensures UnitField(PackDelay(value, unit, extra)) == unit
  {
    hide Or, Shl, Shr, Pow2, Bit;
    var w := PackDelay(value, unit, extra);
    PackedWord(value, unit, extra);
    Powers();
    forall i: nat ensures Bit(unit, i) <==> i < 2 && Bit(w, 10 + i) {
      PackedBits(value, unit, extra, 10 + i);
      if i >= 2 { HighBitClear(unit, 2, i); }
    }
    Field(w, 10, 2, unit);
  }

  lemma PackedExtra(value: nat, unit: nat, extra: nat)
    requires value < 1024 && unit < 4 && extra < 16
    ensures ExtraField(PackDelay(value, unit, extra)) == extra
  {
    hide Or, Shl, Shr, Pow2, Bit;
    var w := PackDelay(value, unit, extra);
    PackedWord(value, unit, extra);
    Powers();
    forall i: nat ensures Bit(extra, i) <==> i < 4 && Bit(w, 12 + i) {
      PackedBits(value, unit, extra, 12 + i);
      if i >= 4 { HighBitClear(extra, 4, i); }
    }
    Field(w, 12, 4, extra);
  }

  lemma PackedFields(value: nat, unit: nat, extra: nat)
    requires value < 1024 && unit < 4 && extra < 16
    ensures var w := PackDelay(value, unit, extra);
            ValueField(w) == value && UnitField(w) == unit && ExtraField(w) == extra
  {
    hide PackDelay, ValueField, UnitField, ExtraField;
    PackedValue(value, unit, extra);
    PackedUnit(value, unit, extra);
    PackedExtra(value, unit, extra);
  }

  lemma Powers()
    ensures Pow2(2) == 4 && Pow2(4) == 16 && Pow2(10) == 1024 && Pow2(16) == 65536
  {
    assert Pow2(4) == 16;
    assert Pow2(7) == 128;
    assert Pow2(10) == 1024;
    assert Pow2(13) == 8192;
  }

  lemma Field(w: nat, at: nat, size: nat, x: nat)
    requires forall i: nat :: Bit(x, i) <==> i < size && Bit(w, at + i)
    ensures And(Shr(w, at), Pow2(size) - 1) == x
  {
    forall i: nat ensures Bit(And(Shr(w, at), Pow2(size) - 1), i) == Bit(x, i) {
      AndBits(Shr(w, at), Pow2(size) - 1, i);
      ShrBits(w, at, i);
      LowMaskBits(size, i);
    }
    SameBits(And(Shr(w, at), Pow2(size) - 1), x);
  }

  /** A request is refused for an unknown unit, for extra bits that do not fit, and for more than 1023
      minutes. One that fits ten bits keeps its unit; a longer one moves to the next unit, by 1000
      from us and ms, by 60 from s. */
  lemma DelayFields(unit: Byte, value: Word16, extra: Byte)
    ensures DelayWord(unit, value, extra).None? <==> unit > 3 || extra > 15 || (value > 1023 && unit == 3)
    ensures unit <= 3 && extra <= 15 && value <= 1023 ==>
              DelayWord(unit, value, extra) == Some(value + 1024 * unit + 4096 * extra)
    ensures unit <= 1 && extra <= 15 && value > 1023 ==>
              DelayWord(unit, value, extra) == Some(value / 1000 + 1024 * (unit + 1) + 4096 * extra)
    ensures unit == 2 && extra <= 15 && 1023 < value < 61440 ==>
              DelayWord(unit, value, extra) == Some(value / 60 + 1024 * 3 + 4096 * extra)
  {
    hide PackDelay;
    var (v, u) := Scaled(unit, value);
    if v < 1024 && u < 4 && extra < 16 { PackedSum(v, u, extra); }
  }

  /** The three fields side by side add up to the word. */
  lemma PackedSum(value: nat, unit: nat, extra: nat)
    requires value < 1024 && unit < 4 && extra < 16
    ensures PackDelay(value, unit, extra) == value + 1024 * unit + 4096 * extra
  {
    hide PackDelay, Or, Shl, Bit;
    var w := value + 1024 * unit + 4096 * extra;
    PackedWord(value, unit, extra);
    forall i: nat ensures Bit(PackDelay(value, unit, extra), i) == Bit(w, i) {
      PackedBits(value, unit, extra, i);
      SumBits(value, unit, extra, i);
    }
    SameBits(PackDelay(value, unit, extra), w);
  }

  lemma SumBits(value: nat, unit: nat, extra: nat, i: nat)
    requires value < 1024 && unit < 4
    ensures Bit(value + 1024 * unit + 4096 * extra, i) ==
            if i < 10 then Bit(value, i) else if i < 12 then Bit(unit, i - 10) else Bit(extra, i - 12)
  {
    hide Bit;
    Powers();
    hide Pow2;
    JoinedBits(value, unit + 4 * extra, 10, i);
    if i >= 10 { JoinedBits(unit, extra, 2, i - 10); }
  }

  lemma {:induction false} JoinedBits(low: nat, high: nat, n: nat, i: nat)
    requires low < Pow2(n)
    ensures Bit(low + high * Pow2(n), i) == if i < n then Bit(low, i) else Bit(high, i - n)
    decreases n
  {
    if n > 0 {
      var p := Pow2(n - 1);
      var x := low + high * Pow2(n);
      assert high * Pow2(n) == 2 * (high * p);
      assert x % 2 == low % 2 && x / 2 == low / 2 + high * p;
      if i > 0 { JoinedBits(low / 2, high, n - 1, i - 1); }
    }
  }

  /** The register holds the requested delay, rounded down to the unit used, and the extra bits,
      unless the request is in seconds and lies above 61439. */
  lemma DelayRoundTrip(unit: Byte, value: Word16, extra: Byte)
    requires DelayWord(unit, value, extra).Some?
    requires !(unit == DELAY_S && value >= 61440)
    ensures var w := DelayWord(unit, value, extra).word;
            var step := UnitMicros(UnitField(w));
            && ExtraField(w) == extra
            && ValueField(w) * step <= value * UnitMicros(unit) < (ValueField(w) + 1) * step
  {
    hide PackDelay, ValueField, UnitField, ExtraField;
    ScaledBounds(unit, value);
    PackedFields(Scaled(unit, value).0, Scaled(unit, value).1, extra);
  }

  /** Moving to the next unit rounds down by less than one of it. */
  lemma ScaledBounds(unit: nat, value: nat)
    requires unit < 4 && value < 65536 && !(value > 1023 && unit == 3) && !(unit == 2 && value >= 61440)
    ensures var (v, u) := Scaled(unit, value);
            && v < 1024 && u < 4
            && v * UnitMicros(u) <= value * UnitMicros(unit) < (v + 1) * UnitMicros(u)
  {
    if value > 1023 {
      if unit == 0 { assert value / 1000 * 1000 <= value < (value / 1000 + 1) * 1000; }
      if unit == 1 { assert value / 1000 * 1_000_000 <= value * 1000 < (value / 1000 + 1) * 1_000_000; }
      if unit == 2 { assert value / 60 * 60_000_000 <= value * 1_000_000 < (value / 60 + 1) * 60_000_000; }
    }
  }

  /** From 61440 s on the value runs into the unit bits: the chip is told a delay below 69
      minutes instead of at least 1024. */
  lemma LongSecondsOverflow(value: Word16, extra: Byte)
    requires value >= 61440 && extra <= 0xF
    ensures var w := DelayWord(DELAY_S, value, extra).word;
            UnitField(w) == 3 && ValueField(w) == value / 60 - 1024 && ValueField(w) < 69
  {
    var v, low := value / 60, value / 60 - 1024;
    Powers();
    FitsBits(low, 10);
    assert Pow2(11) == 2048;
    forall i: nat ensures Bit(v, i) == (Bit(low, i) || i == 10) { TopBit(low, i); }
    forall i: nat ensures Bit(Or(v, Shl(3, 10)), i) == Bit(Or(low, Shl(3, 10)), i) {
      OrBits(v, Shl(3, 10), i);
      OrBits(low, Shl(3, 10), i);
      ShlBits(3, 10, i);
    }
    SameBits(Or(v, Shl(3, 10)), Or(low, Shl(3, 10)));
    PackedFields(low, 3, extra);
  }

  lemma TopBit(low: nat, i: nat)
    requires low < 1024
    ensures Bit(low + 1024, i) == (Bit(low, i) || i == 10)
  {
    AddPow2(low, 10, i);
    Powers();
  }

  lemma {:induction false} AddPow2(low: nat, n: nat, i: nat)
    requires low < Pow2(n)
    ensures Bit(low + Pow2(n), i) == (Bit(low, i) || i == n)
    decreases n
  {
    if n == 0 {
      ZeroBits(i);
      OneBits(i);
    } else if i > 0 {
      AddPow2(low / 2, n - 1, i - 1);
      assert (low + Pow2(n)) / 2 == low / 2 + Pow2(n - 1);
    }
  }

  // ---------- thresholds ----------

  /** The applied limit is never above the requested one unless that lies below the table, and
      asking for the applied limit again selects the same entry. */
  lemma CurrentLimitSettles(table: seq<nat>, limit: real, shuntMOhm: real)
    requires table != [] && Increasing(table) && shuntMOhm > 0.0
    ensures var k := LargestBelow(table, (limit * shuntMOhm).Floor);
            var applied := table[k] as real / shuntMOhm;
            && LargestBelow(table, (applied * shuntMOhm).Floor) == k
            && (applied <= limit <==> table[0] as real <= limit * shuntMOhm)
  {
    var x := limit * shuntMOhm;
    var k := LargestBelow(table, x.Floor);
    SameEntry(table, k);
    Quotient(table[k] as real, shuntMOhm);
    QuotientOrder(table[k] as real, limit, shuntMOhm);
    if k > 0 { assert table[0] < table[k]; }
  }

  lemma Quotient(t: real, d: real)
    requires d > 0.0
    ensures t / d * d == t
  {
  }

  lemma QuotientOrder(t: real, limit: real, d: real)
    requires d > 0.0
    ensures t <= limit * d <==> t / d <= limit
  {
    var q := t / d;
    assert q * d == t;
    if q <= limit { assert q * d <= limit * d; } else { assert q * d > limit * d; }
  }
}

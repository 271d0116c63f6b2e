/** Temperature limits of the ISL94202: the thermistor table is used forwards to set the limit
    registers and backwards to read the measured temperature. */
module Isl94202Temperature {
  import opened Bytes
  import opened Isl94202Interface
  import opened Interpolation

  const LUT_TEMP_VOLT: seq<real> := [0.153, 0.295, 0.463, 0.710, 0.755]
  const LUT_TEMP_DEGC: seq<real> := [80.0, 50.0, 25.0, 0.0, -40.0]

  /** Volts to ADC counts, before truncation. */
  function Counts(volt: real): real { volt * 4095.0 * 2.0 / 1.8 }

  /** The register code of a temperature, before the 12-bit mask. */
  function RawCode(degC: real): int { Counts(Interpolate(LUT_TEMP_DEGC, LUT_TEMP_VOLT, degC)).Floor }

  /** Bits 0-11. */
  function Code(degC: real): (c: Word16) { RawCode(degC) % 0x1000 }

  /** The temperature the driver reports for an ADC count. */
  function Measured(count: real): real {
    Interpolate(LUT_TEMP_VOLT, LUT_TEMP_DEGC, count * 1.8 / 4095.0 / 2.0)
  }

  lemma Tables()
    ensures StrictlyMonotone(LUT_TEMP_VOLT, true) && StrictlyMonotone(LUT_TEMP_DEGC, false)
    ensures Rising(LUT_TEMP_VOLT) && !Rising(LUT_TEMP_DEGC)
    ensures Monotone(LUT_TEMP_VOLT, true) && Monotone(LUT_TEMP_DEGC, false)
  {
  }

  /** The table entry by entry, in both directions. */
  lemma TableEntries()
    ensures var volts := degC => Interpolate(LUT_TEMP_DEGC, LUT_TEMP_VOLT, degC);
            volts(80.0) == 0.153 && volts(50.0) == 0.295 && volts(25.0) == 0.463 && volts(0.0) == 0.71
            && volts(-40.0) == 0.755
    ensures var degs := volt => Interpolate(LUT_TEMP_VOLT, LUT_TEMP_DEGC, volt);
            degs(0.153) == 80.0 && degs(0.295) == 50.0 && degs(0.463) == 25.0 && degs(0.71) == 0.0
            && degs(0.755) == -40.0
  {
    Tables();
    hide Interpolate;
    assert LUT_TEMP_VOLT[..] == [0.153, 0.295, 0.463, 0.71, 0.755];
    forall k: nat | k < 5
      ensures Interpolate(LUT_TEMP_DEGC, LUT_TEMP_VOLT, LUT_TEMP_DEGC[k]) == LUT_TEMP_VOLT[k]
      ensures Interpolate(LUT_TEMP_VOLT, LUT_TEMP_DEGC, LUT_TEMP_VOLT[k]) == LUT_TEMP_DEGC[k]
    {
      ValueAtEntry(LUT_TEMP_DEGC, LUT_TEMP_VOLT, false, k);
      ValueAtEntry(LUT_TEMP_VOLT, LUT_TEMP_DEGC, true, k);
    }
    assert LUT_TEMP_DEGC[0] == 80.0 && LUT_TEMP_DEGC[1] == 50.0 && LUT_TEMP_DEGC[2] == 25.0
           && LUT_TEMP_DEGC[3] == 0.0 && LUT_TEMP_DEGC[4] == -40.0;
  }

  /** The codes at the entries of the table: 4095 counts for 0.9 V, cut to an integer. */
  lemma CodesAtEntries()
    ensures Code(80.0) == 696 && Code(50.0) == 1342 && Code(25.0) == 2106 && Code(0.0) == 3230 && Code(-40.0) == 3435
    ensures forall volt: real :: Counts(volt) * 0.9 == volt * 4095.0
  {
    TableEntries();
    hide Interpolate;
    assert RawCode(80.0) == 696 && RawCode(50.0) == 1342 && RawCode(25.0) == 2106;
    assert RawCode(0.0) == 3230 && RawCode(-40.0) == 3435;
  }

  lemma CountsOrder(v: real, w: real)
    requires v <= w
    ensures Counts(v) <= Counts(w)
  {
  }

  /** No limit code is altered by the mask. */
  lemma MaskKeepsCode(degC: real)
    ensures 0 <= RawCode(degC) < 0x1000 && Code(degC) == RawCode(degC)
  {
    StaysInRange(LUT_TEMP_DEGC, LUT_TEMP_VOLT, degC, 0.153, 0.755);
    CountsOrder(0.153, Interpolate(LUT_TEMP_DEGC, LUT_TEMP_VOLT, degC));
    CountsOrder(Interpolate(LUT_TEMP_DEGC, LUT_TEMP_VOLT, degC), 0.755);
  }

  /** A warmer limit never has a higher code. */
  lemma CodeFalls(cold: real, warm: real)
    requires cold <= warm
    ensures Code(warm) <= Code(cold)
  {
    Tables();
    MaskKeepsCode(cold);
    MaskKeepsCode(warm);
    InterpolateMonotone(LUT_TEMP_DEGC, LUT_TEMP_VOLT, true, warm, cold);
    CountsOrder(Interpolate(LUT_TEMP_DEGC, LUT_TEMP_VOLT, warm), Interpolate(LUT_TEMP_DEGC, LUT_TEMP_VOLT, cold));
  }

  datatype Limits = Limits(chgOt: real, chgUt: real, disOt: real, disUt: real, hyst: real)

  /** The recovery codes lie on the safe side of the trip codes. */
  lemma RecoveryIsInside(l: Limits)
    requires l.hyst >= 0.0
    ensures Code(l.chgOt - l.hyst) >= Code(l.chgOt) && Code(l.disOt - l.hyst) >= Code(l.disOt)
    ensures Code(l.chgUt + l.hyst) <= Code(l.chgUt) && Code(l.disUt + l.hyst) <= Code(l.disUt)
  {
    CodeFalls(l.chgOt - l.hyst, l.chgOt);
    CodeFalls(l.disOt - l.hyst, l.disOt);
    CodeFalls(l.chgUt, l.chgUt + l.hyst);
    CodeFalls(l.disUt, l.disUt + l.hyst);
  }

  /** Setting and reading back undo each other, up to the table's ends. */
  lemma ExactRoundTrip(degC: real)
    ensures Measured(Counts(Interpolate(LUT_TEMP_DEGC, LUT_TEMP_VOLT, degC))) == ClampToTable(LUT_TEMP_DEGC, degC)
  {
    Tables();
    InterpolateInverts(LUT_TEMP_DEGC, LUT_TEMP_VOLT, false, true, degC);
  }

  lemma Steepness()
    ensures AtMostSteep(LUT_TEMP_VOLT, LUT_TEMP_DEGC, 889.0)
  {
  }

  lemma BelowTable(v: real)
    requires v <= 0.153
    ensures Interpolate(LUT_TEMP_VOLT, LUT_TEMP_DEGC, v) == 80.0
  {
    assert NotPast(true, v, LUT_TEMP_VOLT[0]);
  }

  /** The voltage behind the truncated code. */
  function CodeVolt(degC: real): real { Code(degC) as real * 1.8 / 4095.0 / 2.0 }

  lemma CodeVoltBounds(degC: real)
    ensures var v := Interpolate(LUT_TEMP_DEGC, LUT_TEMP_VOLT, degC);
            0.153 <= v <= 0.755 && CodeVolt(degC) <= v <= CodeVolt(degC) + 0.00022
  {
    MaskKeepsCode(degC);
    StaysInRange(LUT_TEMP_DEGC, LUT_TEMP_VOLT, degC, 0.153, 0.755);
  }

  lemma ReadBackOfTable(degC: real)
    requires -40.0 <= degC <= 80.0
    ensures Interpolate(LUT_TEMP_VOLT, LUT_TEMP_DEGC, Interpolate(LUT_TEMP_DEGC, LUT_TEMP_VOLT, degC)) == degC
  {
    Tables();
    InterpolateInverts(LUT_TEMP_DEGC, LUT_TEMP_VOLT, false, true, degC);
  }

  lemma InsideVolts(v: real)
    requires 0.153 <= v <= 0.755
    ensures ClampToTable(LUT_TEMP_VOLT, v) == v
  {
  }

  /** With the truncated code, the temperature read back is never below the limit and at most
      0.2 degrees above it. */
  lemma CodeRoundTrip(degC: real)
    requires -40.0 <= degC <= 80.0
    ensures degC <= Measured(Code(degC) as real) <= degC + 0.2
  {
    hide Interpolate, AtMostSteep, StrictlyMonotone, Monotone, ClampToTable;
    Tables();
    Steepness();
    CodeVoltBounds(degC);
    ReadBackOfTable(degC);
    var v, v' := Interpolate(LUT_TEMP_DEGC, LUT_TEMP_VOLT, degC), CodeVolt(degC);
    InterpolateMonotone(LUT_TEMP_VOLT, LUT_TEMP_DEGC, false, v', v);
    var low := if v' < 0.153 then 0.153 else v';
    if v' < 0.153 {
      BelowTable(v');
      BelowTable(low);
    }
    InsideVolts(low);
    InsideVolts(v);
    InterpolateSteep(LUT_TEMP_VOLT, LUT_TEMP_DEGC, 889.0, low, v);
  }

  const COTS: Byte := 0x30

  /** Eight limits in register order: trip and recovery of charge over-temperature, charge
      under-temperature, discharge over-temperature and discharge under-temperature. */
  function LimitAt(l: Limits, k: nat): real
    requires k < 8
  {
    match k
    case 0 => l.chgOt
    case 1 => l.chgOt - l.hyst
    case 2 => l.chgUt
    case 3 => l.chgUt + l.hyst
    case 4 => l.disOt
    case 5 => l.disOt - l.hyst
    case 6 => l.disUt
    case _ => l.disUt + l.hyst
  }

  /** The chip memory after the first n writes. */
  ghost function Written(mem: seq<Byte>, l: Limits, ok: seq<bool>, n: nat): (r: seq<Byte>)
    requires |mem| == 0xAC && |ok| == 8 && n <= 8
    ensures |r| == 0xAC
  {
    if n == 0 then mem
    else
      var r := Written(mem, l, ok, n - 1);
      if ok[n - 1] then Splice(r, COTS + 2 * (n - 1), WordBytes(Code(LimitAt(l, n - 1)))) else r
  }

  /** Every successful write leaves its code in its own register; nothing else changes. */
  lemma {:induction false} WrittenAt(mem: seq<Byte>, l: Limits, ok: seq<bool>, n: nat, i: nat)
    requires |mem| == 0xAC && |ok| == 8 && n <= 8 && i < 0xAC
    ensures var k := (i - COTS) / 2;
            Written(mem, l, ok, n)[i] ==
            if COTS <= i < COTS + 2 * n && ok[k] then WordBytes(Code(LimitAt(l, k)))[(i - COTS) % 2] else mem[i]
    decreases n
  {
    if n > 0 { WrittenAt(mem, l, ok, n - 1, i); }
  }

  /** Converts and writes the k-th limit of a series that started from memory before. */
  method WriteLimit(chip: Chip, reg: Byte, degC: real, ghost before: seq<Byte>, ghost l: Limits, ok: seq<bool>, k: nat)
    returns (success: bool)
    requires chip.Valid() && |ok| == 8 && k < 8 && |before| == 0xAC
    requires reg == COTS + 2 * k && degC == LimitAt(l, k)
    requires chip.mem[..] == Written(before, l, ok, k)
    modifies chip.mem
    ensures success == ok[k]
    ensures chip.mem[..] == Written(before, l, ok, k + 1)
  {
    var adcVoltage := InterpolateLoop(LUT_TEMP_DEGC, LUT_TEMP_VOLT, degC);
    MaskKeepsCode(degC);
    success := chip.WriteWord(reg, (adcVoltage * 4095.0 * 2.0 / 1.8).Floor % 0x1000, ok[k]);
  }

  /** Writes trip and recovery registers. The result of the last write is not looked at. */
  method ConfigureTempLimits(chip: Chip, l: Limits, ok: seq<bool>) returns (success: bool)
    requires chip.Valid() && |ok| == 8
    modifies chip.mem
    ensures success <==> forall k :: 0 <= k < 7 ==> ok[k]
    ensures chip.mem[..] == Written(old(chip.mem[..]), l, ok, 8)
  {
    hide Written, Code;
    ghost var before := chip.mem[..];
    NothingWritten(before, l, ok);
    var s0 := WriteLimit(chip, 0x30, l.chgOt, before, l, ok, 0);
    var s1 := WriteLimit(chip, 0x32, l.chgOt - l.hyst, before, l, ok, 1);
    var s2 := WriteLimit(chip, 0x34, l.chgUt, before, l, ok, 2);
    var s3 := WriteLimit(chip, 0x36, l.chgUt + l.hyst, before, l, ok, 3);
    var s4 := WriteLimit(chip, 0x38, l.disOt, before, l, ok, 4);
    var s5 := WriteLimit(chip, 0x3A, l.disOt - l.hyst, before, l, ok, 5);
    var s6 := WriteLimit(chip, 0x3C, l.disUt, before, l, ok, 6);
    var _ := WriteLimit(chip, 0x3E, l.disUt + l.hyst, before, l, ok, 7);
    success := s0 && s1 && s2 && s3 && s4 && s5 && s6;
  }

  function WordAt(mem: seq<Byte>, reg: nat): int
    requires reg + 1 < |mem|
  {
    mem[reg] as int + 256 * mem[reg + 1] as int
  }

  /** The eight registers by address, after any pattern of failing writes. */
  lemma RegistersExactly(mem: seq<Byte>, l: Limits, ok: seq<bool>)
    requires |mem| == 0xAC && |ok| == 8
    ensures var m := Written(mem, l, ok, 8);
            && WordAt(m, 0x30) == (if ok[0] then Code(l.chgOt) else WordAt(mem, 0x30))
            && WordAt(m, 0x32) == (if ok[1] then Code(l.chgOt - l.hyst) else WordAt(mem, 0x32))
            && WordAt(m, 0x34) == (if ok[2] then Code(l.chgUt) else WordAt(mem, 0x34))
            && WordAt(m, 0x36) == (if ok[3] then Code(l.chgUt + l.hyst) else WordAt(mem, 0x36))
            && WordAt(m, 0x38) == (if ok[4] then Code(l.disOt) else WordAt(mem, 0x38))
            && WordAt(m, 0x3A) == (if ok[5] then Code(l.disOt - l.hyst) else WordAt(mem, 0x3A))
            && WordAt(m, 0x3C) == (if ok[6] then Code(l.disUt) else WordAt(mem, 0x3C))
            && WordAt(m, 0x3E) == (if ok[7] then Code(l.disUt + l.hyst) else WordAt(mem, 0x3E))
            && (forall i :: 0 <= i < 0xAC && !(0x30 <= i < 0x40) ==> m[i] == mem[i])
  {
    hide Code, Written;
    var m := Written(mem, l, ok, 8);
    forall k: nat | k < 8
      ensures WordAt(m, 0x30 + 2 * k) == if ok[k] then Code(LimitAt(l, k)) else WordAt(mem, 0x30 + 2 * k)
    {
      WordWritten(mem, l, ok, k);
    }
    forall i | 0 <= i < 0xAC && !(0x30 <= i < 0x40) ensures m[i] == mem[i] { WrittenAt(mem, l, ok, 8, i); }
  }

  lemma WordWritten(mem: seq<Byte>, l: Limits, ok: seq<bool>, k: nat)
    requires |mem| == 0xAC && |ok| == 8 && k < 8
    ensures WordAt(Written(mem, l, ok, 8), 0x30 + 2 * k) ==
            if ok[k] then Code(LimitAt(l, k)) else WordAt(mem, 0x30 + 2 * k)
  {
    hide Code, Written, LimitAt;
    WrittenAt(mem, l, ok, 8, 0x30 + 2 * k);
    WrittenAt(mem, l, ok, 8, 0x31 + 2 * k);
  }

  /** With a hysteresis of at least 0, each recovery register ends on the safe side of its trip
      register: colder for over-temperature, warmer for under-temperature. */
  lemma RecoveryRegisters(mem: seq<Byte>, l: Limits, ok: seq<bool>)
    requires |mem| == 0xAC && |ok| == 8 && l.hyst >= 0.0
    requires forall k :: 0 <= k < 8 ==> ok[k]
    ensures var m := Written(mem, l, ok, 8);
            && WordAt(m, 0x32) >= WordAt(m, 0x30) && WordAt(m, 0x3A) >= WordAt(m, 0x38)
            && WordAt(m, 0x36) <= WordAt(m, 0x34) && WordAt(m, 0x3E) <= WordAt(m, 0x3C)
  {
    hide Code, Written;
    RegistersExactly(mem, l, ok);
    RecoveryIsInside(l);
  }

  lemma NothingWritten(mem: seq<Byte>, l: Limits, ok: seq<bool>)
    requires |mem| == 0xAC && |ok| == 8
    ensures Written(mem, l, ok, 0) == mem
  {
  }

  /** The temperature of the chip itself for an ADC count. */
  function ChipDegC(count: real): real { count * 1.8 / 4095.0 * 1000.0 / 1.8527 - 273.15 }

  /** The low 12 bits of a register, or of what the variable held before if the read fails. */
  function Sampled(word: Word16, ok: bool, before: Word16): (r: Word16)
    ensures r < 4096
    ensures ok ==> (word - r) % 4096 == 0
    ensures !ok ==> (before - r) % 4096 == 0
  {
    (if ok then word else before) % 0x1000
  }

  /** 1.8527 mV per kelvin, 4095 counts for 1.8 V. */
  lemma ChipDegCExactly(count: real)
    ensures (ChipDegC(count) + 273.15) * 1.8527 * 4095.0 == count * 1800.0
  {
  }

  method Thermistor(adcRaw: Word16) returns (degC: real)
    ensures degC == Measured(adcRaw as real)
  {
    degC := InterpolateLoop(LUT_TEMP_VOLT, LUT_TEMP_DEGC, adcRaw as real * 1.8 / 4095.0 / 2.0);
  }

  /** Reads the three sensors into one variable whose first value is before. A failed read is not
      noticed: the sensor then gets the reading of the one before it. */
  method ReadTemperatures(chip: Chip, ok: seq<bool>, before: Word16) returns (ic: real, cell: real, mosfet: real)
    requires chip.Valid() && |ok| == 3
    ensures var r0 := Sampled(chip.ReadWord(0xA0), ok[0], before);
            var r1 := Sampled(chip.ReadWord(0xA2), ok[1], r0);
            var r2 := Sampled(chip.ReadWord(0xA4), ok[2], r1);
            ic == ChipDegC(r0 as real) && cell == Measured(r1 as real) && mosfet == Measured(r2 as real)
    ensures !ok[2] ==> mosfet == cell
  {
    hide Measured, ChipDegC;
    var adcRaw := before;
    if ok[0] { adcRaw := chip.ReadWord(0xA0); }
    adcRaw := adcRaw % 0x1000;
    ic := ChipDegC(adcRaw as real);
    if ok[1] { adcRaw := chip.ReadWord(0xA2); }
    adcRaw := adcRaw % 0x1000;
    cell := Thermistor(adcRaw);
    if ok[2] { adcRaw := chip.ReadWord(0xA4); }
    adcRaw := adcRaw % 0x1000;
    mosfet := Thermistor(adcRaw);
  }
}

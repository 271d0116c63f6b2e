/** Cell voltage protection of the bq769x0: trip registers that hold the middle eight bits of a
    14-bit ADC code, and the shared delay register. */
module Bq769x0Trips {
  import opened Bytes
  import opened Thresholds

  /** Integer division that drops the fraction, as C does for negative values as well. */
  function Quotient(a: int, b: int): int
    requires b > 0
  {
    if a >= 0 then a / b else -(-a / b)
  }

  /** The ADC code of a limit, from the calibration of the chip (uV per step, mV). */
  function AdcCode(limitMv: int, gain: int, offset: int): int
    requires gain > 0
  {
    Quotient((limitMv - offset) * 1000, gain)
  }

  /** Bits 4 to 11 of a code. */
  function MiddleBits(code: int): Byte { code / 16 % 256 }

  /** The code at which the chip trips, as the driver reads its own registers back. */
  function OvCode(trip: Byte): int { 0x2000 + 16 * trip }

  function UvCode(trip: Byte): int { 0x1000 + 16 * trip }

  function OvTrip(code: int): Byte { MiddleBits(code) }

  /** Rounded up, and cut to the width of the register. */
  function UvTrip(code: int): Byte { (MiddleBits(code) as int + 1) % 256 }

  /** The over-voltage trip is the requested code rounded down by less than 16 steps, for exactly
      the codes 0x2000 to 0x2FFF. */
  lemma OvTripExactly(code: int)
    ensures OvCode(OvTrip(code)) <= code < OvCode(OvTrip(code)) + 16 <==> 0x2000 <= code <= 0x2FFF
  {
  }

  /** The under-voltage trip is the requested code rounded up by 1 to 16 steps, for exactly the
      codes 0x0FF0 to 0x1FEF; above, the register wraps to the bottom of its range. */
  lemma UvTripExactly(code: int)
    ensures code < UvCode(UvTrip(code)) <= code + 16 <==> 0x0FF0 <= code <= 0x1FEF
    ensures 0x1FF0 <= code <= 0x1FFF ==> UvCode(UvTrip(code)) == 0x1000
  {
  }

  /** The voltage of a code in mV. */
  function Millivolts(code: int, gain: int, offset: int): real {
    (code * gain) as real / 1000.0 + offset as real
  }

  lemma CodeBounds(limitMv: int, gain: int, offset: int)
    requires gain > 0 && limitMv >= offset
    ensures var c := AdcCode(limitMv, gain, offset);
            Millivolts(c, gain, offset) <= limitMv as real < Millivolts(c + 1, gain, offset)
  {
    var a := (limitMv - offset) * 1000;
    var c := a / gain;
    assert c * gain <= a < (c + 1) * gain by { DivideBounds(a, gain); }
  }

  lemma DivideBounds(a: int, d: int)
    requires a >= 0 && d > 0
    ensures a / d * d <= a < (a / d + 1) * d
  {
    assert a == a / d * d + a % d;
    assert (a / d + 1) * d == a / d * d + d;
  }

  lemma NegativeCode(limitMv: int, gain: int, offset: int)
    requires gain > 0 && limitMv < offset
    ensures AdcCode(limitMv, gain, offset) <= 0
  {
    NonNegativeQuotient((offset - limitMv) * 1000, gain);
  }

  lemma NonNegativeQuotient(a: int, d: int)
    requires a >= 0 && d > 0
    ensures a / d >= 0
  {
  }

  lemma MillivoltsOrder(c: int, d: int, gain: int, offset: int)
    requires gain > 0 && c <= d
    ensures Millivolts(c, gain, offset) <= Millivolts(d, gain, offset)
  {
    assert c * gain <= d * gain;
  }

  /** In volts: the cell is cut off at or below the over-voltage limit, less than 16 steps early. */
  lemma OvTripVoltage(limitMv: int, gain: int, offset: int)
    requires gain > 0 && 0x2000 <= AdcCode(limitMv, gain, offset) <= 0x2FFF
    ensures var t := OvCode(OvTrip(AdcCode(limitMv, gain, offset)));
            Millivolts(t, gain, offset) <= limitMv as real < Millivolts(t + 16, gain, offset)
  {
    var c := AdcCode(limitMv, gain, offset);
    OvTripExactly(c);
    if limitMv < offset { NegativeCode(limitMv, gain, offset); }
    CodeBounds(limitMv, gain, offset);
    MillivoltsOrder(OvCode(OvTrip(c)), c, gain, offset);
    MillivoltsOrder(c + 1, OvCode(OvTrip(c)) + 16, gain, offset);
  }

  /** In volts: the cell is cut off above the under-voltage limit, at most 16 steps early. */
  lemma UvTripVoltage(limitMv: int, gain: int, offset: int)
    requires gain > 0 && 0x0FF0 <= AdcCode(limitMv, gain, offset) <= 0x1FEF
    ensures var t := UvCode(UvTrip(AdcCode(limitMv, gain, offset)));
            limitMv as real < Millivolts(t, gain, offset) && Millivolts(t - 16, gain, offset) <= limitMv as real
  {
    var c := AdcCode(limitMv, gain, offset);
    UvTripExactly(c);
    if limitMv < offset { NegativeCode(limitMv, gain, offset); }
    CodeBounds(limitMv, gain, offset);
    MillivoltsOrder(c + 1, UvCode(UvTrip(c)), gain, offset);
    MillivoltsOrder(UvCode(UvTrip(c)) - 16, c, gain, offset);
  }

  /** A limit in V as whole mV, the fraction dropped towards zero. */
  function WholeMv(limit: real): int {
    var mv := limit * 1000.0;
    if mv >= 0.0 then mv.Floor else -(-mv).Floor
  }

  /** Volts to mV, the fraction dropped towards zero. */
  lemma WholeMvExactly(limit: real)
    ensures limit >= 0.0 ==> WholeMv(limit) as real <= 1000.0 * limit < (WholeMv(limit) + 1) as real
    ensures limit <= 0.0 ==> (WholeMv(limit) - 1) as real < 1000.0 * limit <= WholeMv(limit) as real
  {
  }

  /** The division of the driver drops the fraction towards zero. */
  lemma QuotientExactly(a: int, b: int)
    requires b > 0
    ensures a >= 0 ==> Quotient(a, b) * b <= a < (Quotient(a, b) + 1) * b
    ensures a <= 0 ==> (Quotient(a, b) - 1) * b < a <= Quotient(a, b) * b
  {
    if a >= 0 { DivideBounds(a, b); } else { DivideBounds(-a, b); }
  }

  /** From the limit in V to the trip in mV: over-voltage is cut off at or below the limit and less than
      16 steps and 1 mV early, under-voltage at most 16 steps early and never more than 1 mV late. */
  lemma TripsInVolts(limit: real, gain: int, offset: int)
    requires gain > 0 && limit >= 0.0
    ensures var c := AdcCode(WholeMv(limit), gain, offset);
            && (0x2000 <= c <= 0x2FFF ==>
                  && Millivolts(0x2000 + 16 * OvTrip(c), gain, offset) <= 1000.0 * limit
                  && 1000.0 * limit - 1.0 < Millivolts(0x2000 + 16 * OvTrip(c) + 16, gain, offset))
            && (0x0FF0 <= c <= 0x1FEF ==>
                  && 1000.0 * limit - 1.0 < Millivolts(0x1000 + 16 * UvTrip(c), gain, offset)
                  && Millivolts(0x1000 + 16 * UvTrip(c) - 16, gain, offset) <= 1000.0 * limit)
  {
    hide Millivolts, OvTrip, UvTrip, AdcCode;
    var mv := WholeMv(limit);
    var c := AdcCode(mv, gain, offset);
    WholeMvExactly(limit);
    if 0x2000 <= c <= 0x2FFF { OvTripVoltage(mv, gain, offset); }
    if 0x0FF0 <= c <= 0x1FEF { UvTripVoltage(mv, gain, offset); }
  }

  /** What the driver writes back for a trip at this code: mV, in unsigned 32-bit arithmetic. */
  function WrittenBack(code: nat, gain: int, offset: int): nat
    requires gain > 0
  {
    (code * gain % 0x1_0000_0000 / 1000 + offset) % 0x1_0000_0000
  }

  /** For calibrations of the chip's range that is the trip voltage, the fraction of a mV dropped. */
  lemma WrittenBackIsTrip(code: nat, gain: int, offset: int)
    requires code < 0x4000 && 0 < gain < 0x1_0000 && 0 <= offset < 256
    ensures var mv := WrittenBack(code, gain, offset) as real;
            mv <= Millivolts(code, gain, offset) < mv + 1.0
  {
    MicroBound(code, gain);
    var micro := code * gain;
    Thousandths(micro);
    NoWrap(micro, offset);
    assert WrittenBack(code, gain, offset) == micro / 1000 + offset;
    hide WrittenBack;
  }

  lemma MicroBound(code: nat, gain: nat)
    requires code < 0x4000 && gain < 0x1_0000
    ensures 0 <= code * gain < 0x4000_0000
  {
    ProductOrder(code, 0x3FFF, gain);
  }

  lemma ProductOrder(a: nat, b: nat, c: nat)
    requires a <= b
    ensures 0 <= a * c <= b * c
  {
  }

  lemma NoWrap(micro: nat, offset: nat)
    requires micro < 0x4000_0000 && offset < 256
    ensures (micro % 0x1_0000_0000 / 1000 + offset) % 0x1_0000_0000 == micro / 1000 + offset
  {
  }

  lemma Thousandths(micro: nat)
    ensures var whole := (micro / 1000) as real; whole <= micro as real / 1000.0 < whole + 1.0
  {
    var q := micro / 1000;
    assert 1000 * q <= micro < 1000 * q + 1000;
  }

  const OV_DELAYS: seq<nat> := [1, 2, 4, 8]
  const UV_DELAYS: seq<nat> := [1, 4, 8, 16]

  /** The delay fields: 0 to 3 stand for 1, 2, 4 and 8 over voltage, and 1, 4, 8 and 16 under voltage; a
      request gets the highest one that is not longer. */
  lemma DelaysExactly(delay: nat)
    ensures LargestBelow(OV_DELAYS, delay) ==
            if delay >= 8 then 3 else if delay >= 4 then 2 else if delay >= 2 then 1 else 0
    ensures LargestBelow(UV_DELAYS, delay) ==
            if delay >= 16 then 3 else if delay >= 8 then 2 else if delay >= 4 then 1 else 0
  {
    FourEntries(1, 2, 4, 8, delay);
    FourEntries(1, 4, 8, 16, delay);
  }

  lemma FourEntries(a: nat, b: nat, c: nat, d: nat, x: nat)
    ensures LargestBelow([a, b, c, d], x) == if x >= d then 3 else if x >= c then 2 else if x >= b then 1 else 0
  {
    var table := [a, b, c, d];
    var k := LargestBelow(table, x);
    assert k < 3 ==> table[3] > x;
    assert k < 2 ==> table[2] > x;
    assert k < 1 ==> table[1] > x;
  }

  /** PROTECT3. */
  datatype Protect3 = Protect3(reserved: nat, ovDelay: nat, uvDelay: nat)

  datatype Bus = Bus(readOk: bool, tripOk: bool, delayOk: bool)

  class Protection {
    const adcGain: int
    const adcOffset: int
    /** registers of the chip */
    var ovTrip: Byte
    var uvTrip: Byte
    var protect3: Protect3

    constructor (adcGain: int, adcOffset: int, protect3: Protect3)
      requires adcGain > 0
      ensures this.adcGain == adcGain && this.adcOffset == adcOffset && this.protect3 == protect3
    {
      this.adcGain, this.adcOffset, this.protect3 := adcGain, adcOffset, protect3;
      ovTrip, uvTrip := 0, 0;
    }

    /** limit in V. A failed transfer ends the configuration; after success the values that apply
        are handed back, the limit in mV. */
    method ConfigureCellOvp(limit: real, delay: nat, bus: Bus)
      returns (success: bool, applied: real, appliedDelay: nat)
      requires adcGain > 0
      modifies `ovTrip, `protect3
      ensures success <==> bus.readOk && bus.tripOk && bus.delayOk
      ensures ovTrip == if bus.readOk && bus.tripOk then OvTrip(AdcCode(WholeMv(limit), adcGain, adcOffset))
                        else old(ovTrip)
      ensures if success
              then && protect3 == old(protect3).(ovDelay := LargestBelow(OV_DELAYS, delay))
                   && applied == WrittenBack(OvCode(ovTrip), adcGain, adcOffset) as real
                   && appliedDelay == OV_DELAYS[protect3.ovDelay]
              else protect3 == old(protect3) && applied == limit && appliedDelay == delay
    {
      success, applied, appliedDelay := false, limit, delay;
      if !bus.readOk {
        return;
      }
      var reg := protect3;
      var raw := Quotient((WholeMv(limit) - adcOffset) * 1000, adcGain);
      if !bus.tripOk {
        return;
      }
      var trip := raw / 16 % 256;
      ovTrip := trip;
      var k := SearchDown(OV_DELAYS, delay);
      reg := reg.(ovDelay := k);
      if !bus.delayOk {
        return;
      }
      protect3 := reg;
      applied := WrittenBack(0x2000 + 16 * trip, adcGain, adcOffset) as real;
      appliedDelay := OV_DELAYS[k];
      success := true;
    }

    method ConfigureCellUvp(limit: real, delay: nat, bus: Bus)
      returns (success: bool, applied: real, appliedDelay: nat)
      requires adcGain > 0
      modifies `uvTrip, `protect3
      ensures success <==> bus.readOk && bus.tripOk && bus.delayOk
      ensures uvTrip == if bus.readOk && bus.tripOk then UvTrip(AdcCode(WholeMv(limit), adcGain, adcOffset))
                        else old(uvTrip)
      ensures if success
              then && protect3 == old(protect3).(uvDelay := LargestBelow(UV_DELAYS, delay))
                   && applied == WrittenBack(UvCode(uvTrip), adcGain, adcOffset) as real
                   && appliedDelay == UV_DELAYS[protect3.uvDelay]
              else protect3 == old(protect3) && applied == limit && appliedDelay == delay
    {
      success, applied, appliedDelay := false, limit, delay;
      if !bus.readOk {
        return;
      }
      var reg := protect3;
      var raw := Quotient((WholeMv(limit) - adcOffset) * 1000, adcGain);
      var trip := raw / 16 % 256 + 1;
      if !bus.tripOk {
        return;
      }
      uvTrip := trip % 256;
      var k := SearchDown(UV_DELAYS, delay);
      reg := reg.(uvDelay := k);
      if !bus.delayOk {
        return;
      }
      protect3 := reg;
      // a trip of 256 only sets bit 12 of the code once more
      applied := WrittenBack(0x1000 + 16 * (trip % 256), adcGain, adcOffset) as real;
      appliedDelay := UV_DELAYS[k];
      success := true;
    }

    /** Both limits, the second also after a failure of the first: each keeps what the other has set
        in the delay register, whatever fails. */
    method ConfigureVoltageLimits(ovLimit: real, ovDelay: nat, uvLimit: real, uvDelay: nat, ov: Bus, uv: Bus)
      returns (success: bool)
      requires adcGain > 0
      modifies this
      ensures success <==> ov == Bus(true, true, true) && uv == Bus(true, true, true)
      ensures ovTrip == if ov.readOk && ov.tripOk then OvTrip(AdcCode(WholeMv(ovLimit), adcGain, adcOffset))
                        else old(ovTrip)
      ensures uvTrip == if uv.readOk && uv.tripOk then UvTrip(AdcCode(WholeMv(uvLimit), adcGain, adcOffset))
                        else old(uvTrip)
      ensures protect3 == Protect3(
                old(protect3.reserved),
                if ov == Bus(true, true, true) then LargestBelow(OV_DELAYS, ovDelay) else old(protect3.ovDelay),
                if uv == Bus(true, true, true) then LargestBelow(UV_DELAYS, uvDelay) else old(protect3.uvDelay))
    {
      var first, _, _ := ConfigureCellOvp(ovLimit, ovDelay, ov);
      var second, _, _ := ConfigureCellUvp(uvLimit, uvDelay, uv);
      success := first && second;
    }
  }
}

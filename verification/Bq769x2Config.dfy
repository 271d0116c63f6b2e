/** Protection settings of the bq769x2: limits are rounded to register steps, clamped, written to
    data memory, and the values that apply are written back into the configuration. */
module Bq769x2Config {
  import opened Thresholds

  /** Rounding to the nearest integer, halves away from zero. */
  function Round(x: real): int {
    if x >= 0.0 then (x + 0.5).Floor else -((0.5 - x).Floor)
  }

  function Clamp(x: int, lo: int, hi: int): int { if x < lo then lo else if x > hi then hi else x }

  /** Conversion to an 8-bit, 16-bit, or signed 16-bit integer. */
  function U8(x: int): int { x % 0x100 }

  function U16(x: int): int { x % 0x1_0000 }

  function I16(x: int): int { (x + 0x8000) % 0x1_0000 - 0x8000 }

  function Max0(x: real): real { if x > 0.0 then x else 0.0 }

  lemma RoundNear(x: real, k: int)
    requires -0.5 < x - k as real < 0.5
    ensures Round(x) == k
  {
  }

  /** Within one half; halves go away from zero. */
  lemma RoundExactly(x: real)
    ensures x >= 0.0 ==> x - 0.5 < Round(x) as real <= x + 0.5
    ensures x <= 0.0 ==> x - 0.5 <= Round(x) as real < x + 0.5
  {
  }

  lemma RoundOrder(x: real, y: real)
    requires x <= y
    ensures Round(x) <= Round(y)
  {
  }

  // ---------- cell voltage ----------

  /** Threshold, hysteresis and delay in register steps. */
  datatype VoltageCodes = VoltageCodes(threshold: int, hyst: int, delay: int)

  datatype VoltageLimit = VoltageLimit(limit: real, reset: real, delayMs: nat)

  function Steps(volt: real): real { volt * 1000.0 / 50.6 }

  function Volts(steps: int): real { steps as real * 50.6 / 1000.0 }

  function DelaySteps(ms: nat): int { Clamp(U16(Round(ms as real / 3.3)), 1, 2047) }

  function DelayMs(steps: nat): nat { (steps as real * 3.3).Floor }

  /** gap is the distance from limit to reset on the safe side. */
  function Codes(limit: real, gap: real, delayMs: nat, highest: int): VoltageCodes {
    VoltageCodes(Clamp(U8(Round(Steps(limit))), 20, highest),
                 Clamp(U8(Round(Steps(Max0(gap)))), 2, 20),
                 DelaySteps(delayMs))
  }

  function OvCodes(l: VoltageLimit): (c: VoltageCodes)
    ensures 20 <= c.threshold <= 110 && 2 <= c.hyst <= 20 && 1 <= c.delay <= 2047
  {
    Codes(l.limit, l.limit - l.reset, l.delayMs, 110)
  }

  function UvCodes(l: VoltageLimit): (c: VoltageCodes)
    ensures 20 <= c.threshold <= 90 && 2 <= c.hyst <= 20 && 1 <= c.delay <= 2047
  {
    Codes(l.limit, l.reset - l.limit, l.delayMs, 90)
  }

  function OvApplied(c: VoltageCodes): VoltageLimit
    requires c.delay >= 0
  {
    VoltageLimit(Volts(c.threshold), Volts(c.threshold - c.hyst), DelayMs(c.delay))
  }

  function UvApplied(c: VoltageCodes): VoltageLimit
    requires c.delay >= 0
  {
    VoltageLimit(Volts(c.threshold), Volts(c.threshold + c.hyst), DelayMs(c.delay))
  }

  lemma StepsOfVolts(k: int)
    ensures Steps(Volts(k)) == k as real
  {
  }

  lemma VoltsDiffer(j: int, k: int)
    ensures Volts(j) - Volts(k) == Volts(j - k)
  {
  }

  lemma RoundExact(k: int)
    ensures Round(k as real) == k
  {
    RoundNear(k as real, k);
  }

  lemma DelaySettles(steps: nat)
    requires 1 <= steps <= 2047
    ensures DelaySteps(DelayMs(steps)) == steps
  {
    var ms := DelayMs(steps);
    assert steps as real * 3.3 - 1.0 < ms as real <= steps as real * 3.3;
    RoundNear(ms as real / 3.3, steps);
  }

  lemma CodesSettle(threshold: int, hyst: int, delay: nat, highest: int)
    requires 20 <= threshold <= highest < 256 && 2 <= hyst <= 20 && 1 <= delay <= 2047
    ensures Codes(Volts(threshold), Volts(hyst), DelayMs(delay), highest) == VoltageCodes(threshold, hyst, delay)
  {
    StepsOfVolts(threshold);
    StepsOfVolts(hyst);
    RoundExact(threshold);
    RoundExact(hyst);
    DelaySettles(delay);
    assert Volts(hyst) > 0.0;
  }

  /** Applying the values written back selects the same registers and writes back the same values,
      for all settings. */
  lemma OverVoltageSettles(l: VoltageLimit)
    ensures OvCodes(OvApplied(OvCodes(l))) == OvCodes(l)
  {
    var c := OvCodes(l);
    VoltsDiffer(c.threshold, c.threshold - c.hyst);
    CodesSettle(c.threshold, c.hyst, c.delay, 110);
  }

  lemma UnderVoltageSettles(l: VoltageLimit)
    ensures UvCodes(UvApplied(UvCodes(l))) == UvCodes(l)
  {
    var c := UvCodes(l);
    VoltsDiffer(c.threshold + c.hyst, c.threshold);
    CodesSettle(c.threshold, c.hyst, c.delay, 90);
  }

  /** A voltage limit that is not clamped moves by at most half a step, 25.3 mV. */
  lemma VoltageMovesLittle(limit: real, gap: real, delayMs: nat, highest: int)
    requires 20 <= Round(Steps(limit)) <= highest < 256
    ensures var applied := Volts(Codes(limit, gap, delayMs, highest).threshold);
            limit - 0.0253 <= applied <= limit + 0.0253
  {
    var k := Round(Steps(limit));
    assert k as real - 0.5 <= Steps(limit) <= k as real + 0.5;
  }

  /** Over-voltage registers by the values they stand for: steps of 50.6 mV for the limit and for its
      distance to the reset value, steps of 3.3 ms for the delay. A request nearer to one setting
      than to any other gets that one; a request beyond the range gets its end. */
  lemma OvCodesExactly(l: VoltageLimit, k: int)
    ensures 20 <= k <= 110 && -25.3 < 50.6 * k as real - 1000.0 * l.limit < 25.3 ==> OvCodes(l).threshold == k
    ensures 2 <= k <= 20 && -25.3 < 50.6 * k as real - 1000.0 * (l.limit - l.reset) < 25.3 ==> OvCodes(l).hyst == k
    ensures l.reset >= l.limit ==> OvCodes(l).hyst == 2
    ensures 1 <= k <= 2047 && -1.65 < 3.3 * k as real - l.delayMs as real < 1.65 ==> OvCodes(l).delay == k
    ensures 0.0 <= 1000.0 * l.limit <= 1012.0 ==> OvCodes(l).threshold == 20
    ensures 5566.0 <= 1000.0 * l.limit <= 12903.0 ==> OvCodes(l).threshold == 110
  {
    CodesExactly(l.limit, Max0(l.limit - l.reset), l.delayMs, 110, k);
    hide Codes;
  }

  /** The same under voltage, the reset value lying above the limit. */
  lemma UvCodesExactly(l: VoltageLimit, k: int)
    ensures 20 <= k <= 90 && -25.3 < 50.6 * k as real - 1000.0 * l.limit < 25.3 ==> UvCodes(l).threshold == k
    ensures 2 <= k <= 20 && -25.3 < 50.6 * k as real - 1000.0 * (l.reset - l.limit) < 25.3 ==> UvCodes(l).hyst == k
    ensures l.reset <= l.limit ==> UvCodes(l).hyst == 2
    ensures 1 <= k <= 2047 && -1.65 < 3.3 * k as real - l.delayMs as real < 1.65 ==> UvCodes(l).delay == k
    ensures 0.0 <= 1000.0 * l.limit <= 1012.0 ==> UvCodes(l).threshold == 20
    ensures 4554.0 <= 1000.0 * l.limit <= 12903.0 ==> UvCodes(l).threshold == 90
  {
    CodesExactly(l.limit, Max0(l.reset - l.limit), l.delayMs, 90, k);
    hide Codes;
  }

  lemma CodesExactly(limit: real, gap: real, delayMs: nat, highest: int, k: int)
    requires 20 <= highest <= 255 && gap >= 0.0
    ensures var c := Codes(limit, gap, delayMs, highest);
            && (20 <= k <= highest && -25.3 < 50.6 * k as real - 1000.0 * limit < 25.3 ==> c.threshold == k)
            && (2 <= k <= 20 && -25.3 < 50.6 * k as real - 1000.0 * gap < 25.3 ==> c.hyst == k)
            && (gap == 0.0 ==> c.hyst == 2)
            && (1 <= k <= 2047 && -1.65 < 3.3 * k as real - delayMs as real < 1.65 ==> c.delay == k)
            && (0.0 <= 1000.0 * limit <= 1012.0 ==> c.threshold == 20)
            && (50.6 * highest as real <= 1000.0 * limit <= 12903.0 ==> c.threshold == highest)
  {
    RoundExactly(Steps(limit));
    RoundExactly(Steps(gap));
    RoundExactly(delayMs as real / 3.3);
    if -25.3 < 50.6 * k as real - 1000.0 * limit < 25.3 { RoundNear(Steps(limit), k); }
    if -25.3 < 50.6 * k as real - 1000.0 * gap < 25.3 { RoundNear(Steps(gap), k); }
    if -1.65 < 3.3 * k as real - delayMs as real < 1.65 { RoundNear(delayMs as real / 3.3, k); }
    hide Round;
  }

  /** The values that apply, from the registers. */
  lemma VoltageAppliedExactly(c: VoltageCodes)
    requires c.delay >= 0
    ensures var o, u := OvApplied(c), UvApplied(c);
            && 1000.0 * o.limit == 50.6 * c.threshold as real && 1000.0 * u.limit == 50.6 * c.threshold as real
            && 1000.0 * (o.limit - o.reset) == 50.6 * c.hyst as real
            && 1000.0 * (u.reset - u.limit) == 50.6 * c.hyst as real
            && o.delayMs as real <= 3.3 * c.delay as real < (o.delayMs + 1) as real && u.delayMs == o.delayMs
  {
  }

  // ---------- overcurrent ----------

  datatype OcCodes = OcCodes(threshold: int, delay: int)

  datatype OcLimit = OcLimit(limit: real, delayMs: nat)

  /** Fixed by the board: the highest current (A) and the shunt (uOhm). */
  datatype Board = Board(maxCurrent: nat, shunt: nat)

  function Least(x: real, y: real): real { if x < y then x else y }

  function OcSteps(amps: real, b: Board): real { amps * b.shunt as real / 2000.0 }

  function OcDelaySteps(ms: nat): int { Clamp(I16(Round((ms as real - 6.6) / 3.3)), 1, 127) }

  function OcDelayMs(steps: int): int { Round(6.6 + steps as real * 3.3) }

  function OcCode(amps: real, b: Board, highest: int): int { Clamp(U8(Round(OcSteps(amps, b))), 2, highest) }

  function OverCurrentCodes(l: OcLimit, b: Board, highest: int): (c: OcCodes)
    ensures highest >= 2 ==> 2 <= c.threshold <= highest
    ensures 1 <= c.delay <= 127
  {
    OcCodes(OcCode(Least(l.limit, b.maxCurrent as real), b, highest), OcDelaySteps(l.delayMs))
  }

  function OverCurrentApplied(c: OcCodes, b: Board): OcLimit
    requires b.shunt > 0 && c.delay >= 1
  {
    assert 6.6 + c.delay as real * 3.3 >= 0.0;
    OcLimit(c.threshold as real * 2000.0 / b.shunt as real, OcDelayMs(c.delay))
  }

  lemma OcDelaySettles(steps: int)
    requires 1 <= steps <= 127
    ensures 0 <= OcDelayMs(steps) && OcDelaySteps(OcDelayMs(steps)) == steps
  {
    var x := 6.6 + steps as real * 3.3;
    var ms := Round(x);
    assert x - 0.5 <= ms as real <= x + 0.5;
    RoundNear((ms as real - 6.6) / 3.3, steps);
  }

  lemma OcStepsOfCode(k: int, b: Board)
    requires b.shunt > 0
    ensures OcSteps(k as real * 2000.0 / b.shunt as real, b) == k as real
  {
    var s := b.shunt as real;
    assert k as real * 2000.0 / s * s == k as real * 2000.0;
  }

  lemma OcStepsOrder(x: real, y: real, b: Board)
    requires x <= y
    ensures OcSteps(x, b) <= OcSteps(y, b)
  {
    assert x * b.shunt as real <= y * b.shunt as real;
  }

  /** In terms of the register: the code stays unless it lies above that of the highest current of
      the board. */
  lemma CodeSettlesExactly(l: OcLimit, b: Board, highest: int)
    requires b.shunt > 0 && 2 <= highest < 128
    ensures var c := OverCurrentCodes(l, b, highest);
            OverCurrentCodes(OverCurrentApplied(c, b), b, highest) == c <==>
            c.threshold == 2 || c.threshold <= Round(OcSteps(b.maxCurrent as real, b))
  {
    var c := OverCurrentCodes(l, b, highest);
    OcDelaySettles(c.delay);
    ThresholdSettles(c.threshold, b, highest);
  }

  lemma ThresholdSettles(k: int, b: Board, highest: int)
    requires b.shunt > 0 && 2 <= k <= highest < 128
    ensures OcCode(Least(k as real * 2000.0 / b.shunt as real, b.maxCurrent as real), b, highest) == k <==>
            k == 2 || k <= Round(OcSteps(b.maxCurrent as real, b))
  {
    hide OcSteps;
    var amps, most := k as real * 2000.0 / b.shunt as real, b.maxCurrent as real;
    OcStepsOfCode(k, b);
    RoundExact(k);
    ZeroSteps(b);
    OcStepsOrder(0.0, most, b);
    RoundOrder(0.0, OcSteps(most, b));
    if amps <= most {
      OcStepsOrder(amps, most, b);
      RoundOrder(k as real, OcSteps(most, b));
    } else {
      OcStepsOrder(most, amps, b);
      RoundOrder(OcSteps(most, b), k as real);
    }
  }

  lemma ZeroSteps(b: Board)
    ensures OcSteps(0.0, b) == 0.0
  {
  }

  /** It always settles for a limit that is not negative. */
  lemma OverCurrentSettles(l: OcLimit, b: Board, highest: int)
    requires b.shunt > 0 && 2 <= highest < 128 && l.limit >= 0.0
    ensures var c := OverCurrentCodes(l, b, highest);
            OverCurrentCodes(OverCurrentApplied(c, b), b, highest) == c
  {
    var x, most := Least(l.limit, b.maxCurrent as real), b.maxCurrent as real;
    CodeSettlesExactly(l, b, highest);
    ZeroSteps(b);
    OcStepsOrder(0.0, x, b);
    OcStepsOrder(x, most, b);
    RoundOrder(0.0, OcSteps(x, b));
    RoundOrder(OcSteps(x, b), OcSteps(most, b));
    WrapSmaller(Round(OcSteps(x, b)), highest);
  }

  /** The requests that settle: every limit that is not negative, and the negative ones whose code,
      cut to eight bits, is clamped to the lowest one or to one within the current of the board. */
  predicate SettlingLimit(limit: real, b: Board, highest: int) {
    limit >= 0.0 ||
    var code := U8(Round(OcSteps(limit, b)));
    code <= 2 || highest == 2 || Clamp(code, 2, highest) <= Round(OcSteps(b.maxCurrent as real, b))
  }

  /** Applying the written-back overcurrent values again changes nothing exactly for these. */
  lemma OverCurrentSettlesExactly(l: OcLimit, b: Board, highest: int)
    requires b.shunt > 0 && 2 <= highest < 128
    ensures var c := OverCurrentCodes(l, b, highest);
            OverCurrentCodes(OverCurrentApplied(c, b), b, highest) == c <==> SettlingLimit(l.limit, b, highest)
  {
    CodeSettlesExactly(l, b, highest);
    if l.limit >= 0.0 { OverCurrentSettles(l, b, highest); }
  }

  /** Negative limits of less than half a step settle on every board. */
  lemma SmallNegativeLimitSettles(limit: real, b: Board, highest: int)
    requires b.shunt > 0 && -1000.0 < limit * b.shunt as real < 0.0
    ensures SettlingLimit(limit, b, highest)
  {
    var p := limit * b.shunt as real;
    assert OcSteps(limit, b) == p / 2000.0;
    RoundNear(p / 2000.0, 0);
  }

  lemma WrapSmaller(r: int, highest: int)
    requires r >= 0 && 2 <= highest < 128
    ensures Clamp(U8(r), 2, highest) == 2 || Clamp(U8(r), 2, highest) <= r
  {
  }

  /** An instance that does not: -2 A wraps to the highest code, which the highest current of a small
      board takes back. */
  lemma NegativeLimitUnsettled()
    ensures var b := Board(10, 1000);
            var c := OverCurrentCodes(OcLimit(-2.0, 100), b, 62);
            && !SettlingLimit(-2.0, b, 62) && c.threshold == 62
            && OverCurrentCodes(OverCurrentApplied(c, b), b, 62).threshold == 5
  {
    var b := Board(10, 1000);
    RoundNear(-1.0, -1);
    assert OcSteps(-2.0, b) == -1.0;
    OcStepsOfCode(62, b);
    assert OcSteps(10.0, b) == 5.0;
    RoundNear(5.0, 5);
  }

  /** Over-current registers by the values they stand for: 2 mV at the shunt for each step of the limit,
      6.6 ms and 3.3 ms for each step of the delay. Nothing above the current of the board counts. */
  lemma OverCurrentExactly(l: OcLimit, b: Board, highest: int, uv: real, k: int)
    requires uv == (if l.limit < b.maxCurrent as real then l.limit else b.maxCurrent as real) * b.shunt as real
    requires 2 <= highest < 128
    ensures var c := OverCurrentCodes(l, b, highest);
            && (2 <= k <= highest && -1000.0 < 2000.0 * k as real - uv < 1000.0 ==> c.threshold == k)
            && (0.0 <= uv <= 4000.0 ==> c.threshold == 2)
            && (2000.0 * highest as real <= uv <= 510_000.0 ==> c.threshold == highest)
            && (1 <= k <= 127 && -1.65 < 6.6 + 3.3 * k as real - l.delayMs as real < 1.65 ==> c.delay == k)
            && (l.delayMs <= 9 ==> c.delay == 1)
            && (426 <= l.delayMs <= 100_000 ==> c.delay == 127)
  {
    hide OcDelaySteps, OcCode;
    var amps := Least(l.limit, b.maxCurrent as real);
    OcCodeExactly(amps, uv, b, highest, k);
    OcDelayExactly(l.delayMs, k);
  }

  lemma OcCodeExactly(amps: real, uv: real, b: Board, highest: int, k: int)
    requires 2 <= highest < 128 && uv == amps * b.shunt as real
    ensures var code := OcCode(amps, b, highest);
            && (2 <= k <= highest && -1000.0 < 2000.0 * k as real - uv < 1000.0 ==> code == k)
            && (0.0 <= uv <= 4000.0 ==> code == 2)
            && (2000.0 * highest as real <= uv <= 510_000.0 ==> code == highest)
  {
    hide Round, Clamp, U8;
    assert OcSteps(amps, b) == uv / 2000.0;
    OcThresholdExactly(uv, highest, k);
    hide OcSteps;
  }

  /** The values that apply, from the registers. */
  lemma OverCurrentAppliedExactly(c: OcCodes, b: Board)
    requires b.shunt > 0 && c.delay >= 1
    ensures var a := OverCurrentApplied(c, b);
            && a.limit * b.shunt as real == 2000.0 * c.threshold as real
            && -0.5 <= a.delayMs as real - (6.6 + 3.3 * c.delay as real) <= 0.5
  {
    RoundExactly(6.6 + c.delay as real * 3.3);
    QuotientTimes(c.threshold as real * 2000.0, b.shunt as real);
    hide Round;
  }

  lemma QuotientTimes(x: real, d: real)
    requires d > 0.0
    ensures x / d * d == x
  {
  }

  lemma OcThresholdExactly(mv: real, highest: int, k: int)
    requires 2 <= highest < 128
    ensures var code := Clamp(U8(Round(mv / 2000.0)), 2, highest);
            && (2 <= k <= highest && -1000.0 < 2000.0 * k as real - mv < 1000.0 ==> code == k)
            && (0.0 <= mv <= 4000.0 ==> code == 2)
            && (2000.0 * highest as real <= mv <= 510_000.0 ==> code == highest)
  {
    RoundExactly(mv / 2000.0);
    if -1000.0 < 2000.0 * k as real - mv < 1000.0 { RoundNear(mv / 2000.0, k); }
    hide Round;
  }

  lemma OcDelayExactly(ms: nat, k: int)
    ensures 1 <= k <= 127 && -1.65 < 6.6 + 3.3 * k as real - ms as real < 1.65 ==> OcDelaySteps(ms) == k
    ensures ms <= 9 ==> OcDelaySteps(ms) == 1
    ensures 426 <= ms <= 100_000 ==> OcDelaySteps(ms) == 127
  {
    var x := (ms as real - 6.6) / 3.3;
    RoundExactly(x);
    if -1.65 < 6.6 + 3.3 * k as real - ms as real < 1.65 { RoundNear(x, k); }
    hide Round;
  }

  // ---------- short circuit ----------

  const SCD_THRESHOLDS: seq<nat> := [10, 20, 40, 60, 80, 100, 125, 150, 175, 200, 250, 300, 350, 400, 450, 500]

  datatype ScCodes = ScCodes(threshold: nat, delay: nat)

  datatype ScLimit = ScLimit(limit: real, delayUs: nat)

  /** Shunt voltage in mV. */
  function ShuntMv(amps: real, b: Board): real { amps * b.shunt as real / 1000.0 }

  function ShuntAmps(mv: nat, b: Board): real
    requires b.shunt > 0
  {
    mv as real * 1000.0 / b.shunt as real
  }

  function ScDelaySteps(us: nat): (d: nat)
    ensures 1 <= d <= 31
  {
    Clamp((us as real / 15.0 + 1.0).Floor, 1, 31)
  }

  /** The settings that fit the 16-bit variables of the driver. */
  predicate ScFits(l: ScLimit, b: Board) {
    0.0 <= ShuntMv(l.limit, b) < 65536.0 && l.delayUs < 983_025
  }

  function ShortCircuitCodes(l: ScLimit, b: Board): (c: ScCodes)
    ensures c.threshold < 16 && 1 <= c.delay <= 31
  {
    ScCodes(LargestBelow(SCD_THRESHOLDS, ShuntMv(l.limit, b).Floor), ScDelaySteps(l.delayUs))
  }

  function ShortCircuitApplied(c: ScCodes, b: Board): ScLimit
    requires b.shunt > 0 && c.threshold < 16 && c.delay >= 1
  {
    ScLimit(ShuntAmps(SCD_THRESHOLDS[c.threshold], b), (c.delay - 1) * 15)
  }

  lemma ScdTable(k: nat)
    requires k < 16
    ensures Increasing(SCD_THRESHOLDS) && SCD_THRESHOLDS[k] <= 500
  {
  }

  lemma BackToMillivolts(mv: nat, b: Board)
    requires b.shunt > 0
    ensures ShuntMv(ShuntAmps(mv, b), b) == mv as real
  {
    var s := b.shunt as real;
    assert mv as real * 1000.0 / s * s == mv as real * 1000.0;
  }

  lemma ScDelayBack(d: nat)
    requires 1 <= d <= 31
    ensures ScDelaySteps((d - 1) * 15) == d
  {
    assert ((d - 1) * 15) as real / 15.0 + 1.0 == d as real;
  }

  /** Short-circuit settings settle as well, and the values written back always fit. */
  lemma ShortCircuitSettles(l: ScLimit, b: Board)
    requires b.shunt > 0
    ensures var c := ShortCircuitCodes(l, b); var a := ShortCircuitApplied(c, b);
            ScFits(a, b) && ShortCircuitCodes(a, b) == c
  {
    var c := ShortCircuitCodes(l, b);
    hide LargestBelow, ShuntMv, ShuntAmps, ScDelaySteps;
    ScdTable(c.threshold);
    BackToMillivolts(SCD_THRESHOLDS[c.threshold], b);
    SameEntry(SCD_THRESHOLDS, c.threshold);
    ScDelayBack(c.delay);
  }

  /** The threshold of each code in mV: 10, then steps of 20 to 100, of 25 to 200, of 50 to 500. */
  lemma ScThresholds(k: nat)
    requires k < 16
    ensures SCD_THRESHOLDS[k] ==
            if k == 0 then 10 else if k <= 5 then 20 * k else if k <= 9 then 25 * (k - 1) else 50 * (k - 5)
  {
  }

  /** Short-circuit registers by the values they stand for: the highest threshold that the voltage at
      the shunt does not stay below, and steps of 15 us, none of them for code 1. */
  lemma ShortCircuitExactly(l: ScLimit, b: Board)
    requires b.shunt > 0
    ensures var c := ShortCircuitCodes(l, b); var mv := ShuntMv(l.limit, b);
            && (forall k: nat :: k < 16 && k > c.threshold ==> mv < SCD_THRESHOLDS[k] as real)
            && (c.threshold > 0 ==> mv >= SCD_THRESHOLDS[c.threshold] as real)
            && (l.delayUs < 465 ==> 15 * (c.delay - 1) <= l.delayUs < 15 * c.delay)
            && (l.delayUs >= 465 ==> c.delay == 31)
  {
    hide LargestBelow, ScDelaySteps, ShuntMv;
    ScTimes(l.delayUs);
    ScSearch(ShuntMv(l.limit, b));
  }

  lemma ShuntMvExactly(amps: real, b: Board)
    ensures 1000.0 * ShuntMv(amps, b) == amps * b.shunt as real
  {
  }

  lemma ScSearch(mv: real)
    ensures var t := LargestBelow(SCD_THRESHOLDS, mv.Floor);
            && (forall k: nat :: k < 16 && k > t ==> mv < SCD_THRESHOLDS[k] as real)
            && (t > 0 ==> mv >= SCD_THRESHOLDS[t] as real)
  {
    var table := SCD_THRESHOLDS;
    var t := LargestBelow(table, mv.Floor);
    forall k: nat | t < k < 16 ensures mv < table[k] as real {
      assert table[k] > mv.Floor;
    }
  }

  lemma ScTimes(us: nat)
    ensures us < 465 ==> 15 * (ScDelaySteps(us) - 1) <= us < 15 * ScDelaySteps(us)
    ensures us >= 465 ==> ScDelaySteps(us) == 31
  {
    var x := us as real / 15.0 + 1.0;
    assert x.Floor as real <= x < x.Floor as real + 1.0;
  }

  lemma ShortCircuitAppliedExactly(c: ScCodes, b: Board)
    requires b.shunt > 0 && c.threshold < 16 && c.delay >= 1
    ensures var a := ShortCircuitApplied(c, b);
            a.limit * b.shunt as real == 1000.0 * SCD_THRESHOLDS[c.threshold] as real && a.delayUs == 15 * (c.delay - 1)
  {
    QuotientTimes(SCD_THRESHOLDS[c.threshold] as real * 1000.0, b.shunt as real);
  }
}

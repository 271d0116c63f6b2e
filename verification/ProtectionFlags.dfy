/** Error flags of the bq769x0 driver: chip faults from SYS_STAT, charge over-current, and four
    temperature flags with hysteresis kept in software. */
module ProtectionFlags {
  import Latch
  import opened BmsErrors

  datatype Limits = Limits(chgOc: real, chgOt: real, chgUt: real, disOt: real, disUt: real, hyst: real)

  /** One poll: the SYS_STAT byte, if it could be read, and the measurements. */
  datatype Sample = Sample(ok: bool, stat: bv8, current: real, tMin: real, tMax: real)

  datatype TempFlag = ChgOver | ChgUnder | DisOver | DisUnder

  function Mask(f: TempFlag): bv32 {
    match f
    case ChgOver => CHG_OVERTEMP
    case ChgUnder => CHG_UNDERTEMP
    case DisOver => DIS_OVERTEMP
    case DisUnder => DIS_UNDERTEMP
  }

  function Limit(l: Limits, f: TempFlag): real {
    match f case ChgOver => l.chgOt case ChgUnder => l.chgUt case DisOver => l.disOt case DisUnder => l.disUt
  }

  predicate IsOver(f: TempFlag) { f == ChgOver || f == DisOver }

  /** The limit, moved by the hysteresis while the flag is set, is exceeded. */
  predicate Tripped(l: Limits, f: TempFlag, prev: bv32, s: Sample) {
    var hyst := if Has(prev, Mask(f)) then l.hyst else 0.0;
    if IsOver(f) then s.tMax > Limit(l, f) - hyst else s.tMin < Limit(l, f) + hyst
  }

  /** The flag word with each flag under its own condition. */
  function Word(uv: bool, ov: bool, sc: bool, oc: bool, cc: bool, co: bool, cu: bool, do: bool, du: bool): bv32 {
    FlagIf(uv, CELL_UNDERVOLTAGE) | FlagIf(ov, CELL_OVERVOLTAGE) | FlagIf(sc, SHORT_CIRCUIT)
    | FlagIf(oc, DIS_OVERCURRENT) | FlagIf(cc, CHG_OVERCURRENT) | FlagIf(co, CHG_OVERTEMP)
    | FlagIf(cu, CHG_UNDERTEMP) | FlagIf(do, DIS_OVERTEMP) | FlagIf(du, DIS_UNDERTEMP)
  }

  lemma WordBits(uv: bool, ov: bool, sc: bool, oc: bool, cc: bool, co: bool, cu: bool, do: bool, du: bool)
    ensures var w := Word(uv, ov, sc, oc, cc, co, cu, do, du);
            && Has(w, CELL_UNDERVOLTAGE) == uv && Has(w, CELL_OVERVOLTAGE) == ov && Has(w, SHORT_CIRCUIT) == sc
            && Has(w, DIS_OVERCURRENT) == oc && Has(w, CHG_OVERCURRENT) == cc && Has(w, CHG_OVERTEMP) == co
            && Has(w, CHG_UNDERTEMP) == cu && Has(w, DIS_OVERTEMP) == do && Has(w, DIS_UNDERTEMP) == du
            && !Has(w, !0x03DF)
  {
  }

  function FlagsOf(prev: bv32, s: Sample, l: Limits): bv32 {
    Word(s.stat & 0x08 != 0, s.stat & 0x04 != 0, s.stat & 0x02 != 0, s.stat & 0x01 != 0, s.current > l.chgOc,
         Tripped(l, ChgOver, prev, s), Tripped(l, ChgUnder, prev, s), Tripped(l, DisOver, prev, s),
         Tripped(l, DisUnder, prev, s))
  }

  /** Chip faults and over-current follow the sample alone, the temperature flags the sample and
      their own previous value; no other flag is ever raised. */
  lemma FlagsExactly(prev: bv32, s: Sample, l: Limits, f: TempFlag)
    ensures var w := FlagsOf(prev, s, l);
            && Has(w, Mask(f)) == Tripped(l, f, prev, s)
            && Has(w, CELL_UNDERVOLTAGE) == (s.stat & 0x08 != 0)
            && Has(w, CELL_OVERVOLTAGE) == (s.stat & 0x04 != 0)
            && Has(w, SHORT_CIRCUIT) == (s.stat & 0x02 != 0)
            && Has(w, DIS_OVERCURRENT) == (s.stat & 0x01 != 0)
            && Has(w, CHG_OVERCURRENT) == (s.current > l.chgOc)
            && !Has(w, !0x03DF)
  {
    WordBits(s.stat & 0x08 != 0, s.stat & 0x04 != 0, s.stat & 0x02 != 0, s.stat & 0x01 != 0, s.current > l.chgOc,
           Tripped(l, ChgOver, prev, s), Tripped(l, ChgUnder, prev, s), Tripped(l, DisOver, prev, s),
           Tripped(l, DisUnder, prev, s));
  }

  /** One poll; a failed read leaves the flags alone. */
  function Poll(flags: bv32, s: Sample, l: Limits): bv32 {
    if s.ok then FlagsOf(flags, s, l) else flags
  }

  /** The flag word after a series of polls. */
  function Run(flags: bv32, samples: seq<Sample>, l: Limits): bv32 {
    if samples == [] then flags
    else Poll(Run(flags, samples[..|samples| - 1], l), samples[|samples| - 1], l)
  }

  /** Each temperature flag after a poll, by its own limit, from which the hysteresis is given way
      while the flag is set. */
  lemma TemperatureFlags(flags: bv32, s: Sample, l: Limits)
    requires s.ok
    ensures var w := Poll(flags, s, l);
            && (Has(w, CHG_OVERTEMP) <==>
                  s.tMax > l.chgOt - if Has(flags, CHG_OVERTEMP) then l.hyst else 0.0)
            && (Has(w, CHG_UNDERTEMP) <==>
                  s.tMin < l.chgUt + if Has(flags, CHG_UNDERTEMP) then l.hyst else 0.0)
            && (Has(w, DIS_OVERTEMP) <==>
                  s.tMax > l.disOt - if Has(flags, DIS_OVERTEMP) then l.hyst else 0.0)
            && (Has(w, DIS_UNDERTEMP) <==>
                  s.tMin < l.disUt + if Has(flags, DIS_UNDERTEMP) then l.hyst else 0.0)
  {
    hide Word, Has;
    FlagsExactly(flags, s, l, ChgOver);
    FlagsExactly(flags, s, l, ChgUnder);
    FlagsExactly(flags, s, l, DisOver);
    FlagsExactly(flags, s, l, DisUnder);
  }

  predicate Crossed(l: Limits, f: TempFlag, s: Sample) {
    s.ok && if IsOver(f) then s.tMax > Limit(l, f) else s.tMin < Limit(l, f)
  }

  /** Back on the safe side of the limit by at least the hysteresis. */
  predicate Returned(l: Limits, f: TempFlag, s: Sample) {
    s.ok && if IsOver(f) then s.tMax <= Limit(l, f) - l.hyst else s.tMin >= Limit(l, f) + l.hyst
  }

  function History(l: Limits, f: TempFlag, samples: seq<Sample>): (e: seq<Latch.Event>)
    ensures |e| == |samples|
  {
    seq(|samples|, k requires 0 <= k < |samples| => Latch.Event(Crossed(l, f, samples[k]), Returned(l, f, samples[k])))
  }

  /** Some sample crossed the limit and none after it has returned. */
  ghost predicate CrossedAndNotReturned(l: Limits, f: TempFlag, samples: seq<Sample>) {
    exists k: nat :: Latch.SetAndHeld(History(l, f, samples), k)
  }

  lemma {:induction false} FlagIsLatch(l: Limits, f: TempFlag, flags: bv32, samples: seq<Sample>)
    requires l.hyst >= 0.0
    ensures Has(Run(flags, samples, l), Mask(f)) == Latch.After(Has(flags, Mask(f)), History(l, f, samples))
    decreases |samples|
  {
    if samples != [] {
      var n := |samples| - 1;
      FlagIsLatch(l, f, flags, samples[..n]);
      assert History(l, f, samples)[..n] == History(l, f, samples[..n]);
      FlagsExactly(Run(flags, samples[..n], l), samples[n], l, f);
    }
  }

  /** Each temperature flag is a summary of the history, for every series of polls. */
  lemma FlagIsHistory(l: Limits, f: TempFlag, samples: seq<Sample>)
    requires l.hyst >= 0.0
    ensures Has(Run(0, samples, l), Mask(f)) <==> CrossedAndNotReturned(l, f, samples)
  {
    FlagIsLatch(l, f, 0, samples);
    Latch.AfterIsHistory(false, History(l, f, samples));
  }

  /** A negative hysteresis always has a series of two polls that breaks the summary: the second
      one is past the limit and yet clears the flag. */
  lemma NegativeHysteresisFails(l: Limits, f: TempFlag) returns (samples: seq<Sample>)
    requires l.hyst < 0.0
    ensures CrossedAndNotReturned(l, f, samples) && !Has(Run(0, samples, l), Mask(f))
  {
    var t := if IsOver(f) then Limit(l, f) - l.hyst / 2.0 else Limit(l, f) + l.hyst / 2.0;
    var s := Sample(true, 0, 0.0, t, t);
    samples := [s, s];
    var one := samples[..1];
    assert one[..0] == [];
    FlagsExactly(0, s, l, f);
    assert Run(0, one, l) == FlagsOf(0, s, l);
    FlagsExactly(FlagsOf(0, s, l), s, l, f);
    assert Latch.SetAndHeld(History(l, f, samples), 1);
  }

  class Protection {
    var errorFlags: bv32
    var current: real
    var tMin: real
    var tMax: real
    var limits: Limits

    constructor (limits: Limits)
      ensures errorFlags == 0 && this.limits == limits
    {
      errorFlags, current, tMin, tMax, this.limits := 0, 0.0, 0.0, 0.0, limits;
    }

    method ReadErrorFlags(readOk: bool, stat: bv8) returns (success: bool)
      modifies `errorFlags
      ensures success == readOk
      ensures errorFlags == Poll(old(errorFlags), Sample(readOk, stat, current, tMin, tMax), limits)
    {
      if !readOk {
        return false;
      }
      hide Word, Tripped;
      var s := Sample(true, stat, current, tMin, tMax);
      var chgOver := CheckTemperature(s, ChgOver);
      var chgUnder := CheckTemperature(s, ChgUnder);
      var disOver := CheckTemperature(s, DisOver);
      var disUnder := CheckTemperature(s, DisUnder);
      errorFlags := Word(stat & 0x08 != 0, stat & 0x04 != 0, stat & 0x02 != 0, stat & 0x01 != 0,
                         current > limits.chgOc, chgOver, chgUnder, disOver, disUnder);
      return true;
    }

    method CheckTemperature(s: Sample, f: TempFlag) returns (tripped: bool)
      ensures tripped == Tripped(limits, f, errorFlags, s)
    {
      var hyst := 0.0;
      if Has(errorFlags, Mask(f)) {
        hyst := limits.hyst;
      }
      if IsOver(f) {
        tripped := s.tMax > Limit(limits, f) - hyst;
      } else {
        tripped := s.tMin < Limit(limits, f) + hyst;
      }
    }
  }
}

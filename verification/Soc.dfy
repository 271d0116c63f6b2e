/** State of charge: a coulomb counter that is folded into the reported value only after
    significant changes, against the exact saturating integrator. */
module Soc {
  import opened Interpolation

  function Clamp(x: real, lo: real, hi: real): real {
    if x < lo then lo else if x > hi then hi else x
  }

  /** The reported percentage and the charge not yet folded into it, in percent. */
  datatype Estimate = Estimate(soc: real, pending: real)

  /** One measurement, as percent of the capacity moved since the last one, or a reset. */
  datatype Event = Sample(delta: real) | Reset(percent: real)

  function Step(e: Estimate, ev: Event): Estimate {
    match ev
    case Sample(delta) =>
      var p := e.pending + delta;
      if p > 0.1 || p < -0.1 then Estimate(Clamp(e.soc + p, 0.0, 100.0), 0.0) else Estimate(e.soc, p)
    case Reset(percent) => Estimate(percent, e.pending)
  }

  /** The reported value moves exactly when the charge not yet folded in leaves -0.1 to 0.1 percent;
      then nothing stays pending. */
  lemma MovesExactly(e: Estimate, delta: real)
    ensures var p := e.pending + delta; var t := Step(e, Sample(delta));
            && (-0.1 <= p <= 0.1 ==> t.soc == e.soc && t.pending == p)
            && (p < -0.1 || p > 0.1 ==> t.pending == 0.0 && 0.0 <= t.soc <= 100.0)
            && ((p < -0.1 || p > 0.1) && 0.0 <= e.soc + p <= 100.0 ==> t.soc == e.soc + p)
            && (e.soc + p > 100.1 ==> 0.0 <= e.soc <= 100.0 ==> t.soc == 100.0)
            && (e.soc + p < -0.1 ==> 0.0 <= e.soc <= 100.0 ==> t.soc == 0.0)
  {
  }

  /** The exact integrator, clamped at every sample. */
  function Exact(x: real, ev: Event): real {
    match ev
    case Sample(delta) => Clamp(x + delta, 0.0, 100.0)
    case Reset(percent) => percent
  }

  function Run(e: Estimate, events: seq<Event>): Estimate {
    if events == [] then e else Step(Run(e, events[..|events| - 1]), events[|events| - 1])
  }

  function ExactRun(x: real, events: seq<Event>): real {
    if events == [] then x else Exact(ExactRun(x, events[..|events| - 1]), events[|events| - 1])
  }

  predicate InScale(x: real) { 0.0 <= x <= 100.0 }

  ghost predicate ResetsInScale(events: seq<Event>) {
    forall k :: 0 <= k < |events| && events[k].Reset? ==> InScale(events[k].percent)
  }

  /** What every event keeps. */
  predicate Tracks(e: Estimate, x: real) {
    && InScale(e.soc) && InScale(x)
    && Abs(e.pending) <= 0.1
    && Abs(e.soc + e.pending - x) <= 0.1
  }

  lemma StepTracks(e: Estimate, x: real, ev: Event)
    requires Tracks(e, x) && (ev.Reset? ==> InScale(ev.percent))
    ensures Tracks(Step(e, ev), Exact(x, ev))
  {
  }

  /** Over every run the reported value stays within 0.2 percent of the exact one and in scale,
      however long the run and however small the samples. */
  lemma {:induction false} TracksOverRuns(e: Estimate, x: real, events: seq<Event>)
    requires Tracks(e, x) && ResetsInScale(events)
    ensures Tracks(Run(e, events), ExactRun(x, events))
    ensures Abs(Run(e, events).soc - ExactRun(x, events)) <= 0.2
    decreases |events|
  {
    if events != [] {
      TracksOverRuns(e, x, events[..|events| - 1]);
      StepTracks(Run(e, events[..|events| - 1]), ExactRun(x, events[..|events| - 1]), events[|events| - 1]);
    }
  }

  /** The bound is met on both sides: charging 0.1 percent at the top and then discharging 0.2
      percent, and the reverse at the bottom. */
  lemma BoundIsTight()
    ensures var e := Estimate(0.0, 0.0);
            var events := [Sample(-0.1), Sample(0.2)];
            Tracks(e, 0.0) && ExactRun(0.0, events) - Run(e, events).soc == 0.2
    ensures var e := Estimate(100.0, 0.0);
            var events := [Sample(0.1), Sample(-0.2)];
            Tracks(e, 100.0) && Run(e, events).soc - ExactRun(100.0, events) == 0.2
  {
    var events := [Sample(0.1), Sample(-0.2)];
    assert events[..1] == [Sample(0.1)] && [Sample(0.1)][..0] == [];
    assert Run(Estimate(100.0, 0.0), events[..1]) == Step(Estimate(100.0, 0.0), Sample(0.1));
    assert ExactRun(100.0, events[..1]) == 100.0;
    var others := [Sample(-0.1), Sample(0.2)];
    assert others[..1] == [Sample(-0.1)] && [Sample(-0.1)][..0] == [];
    assert Run(Estimate(0.0, 0.0), others[..1]) == Step(Estimate(0.0, 0.0), Sample(-0.1));
    assert ExactRun(0.0, others[..1]) == 0.0;
  }

  /** The plain sum of the samples. */
  function Total(events: seq<Event>): real {
    if events == [] then 0.0
    else Total(events[..|events| - 1]) + match events[|events| - 1] case Sample(d) => d case Reset(_) => 0.0
  }

  /** As long as the plain sum stays in scale, nothing is lost: reported and pending charge
      together are the start plus every sample. */
  lemma {:induction false} ChargeIsConserved(start: real, events: seq<Event>)
    requires forall k :: 0 <= k < |events| ==> events[k].Sample?
    requires forall k :: 0 <= k <= |events| ==> 0.0 <= start + Total(events[..k]) <= 100.0
    ensures var e := Run(Estimate(start, 0.0), events); e.soc + e.pending == start + Total(events)
    decreases |events|
  {
    assert events[..|events|] == events;
    if events != [] {
      var n := |events| - 1;
      forall k | 0 <= k <= n ensures 0.0 <= start + Total(events[..n][..k]) <= 100.0 {
        assert events[..n][..k] == events[..k];
      }
      ChargeIsConserved(start, events[..n]);
    }
  }

  // ---------- setting the value ----------

  /** What a reset may fall back on when no percentage is given: the average cell voltage, the
      open-circuit voltage curve if there is one, and the charge and discharge voltage limits. */
  datatype Ocv = Ocv(cellAvg: real, hasCurve: bool, volts: seq<real>, percents: seq<real>, chgLimit: real,
                     disLimit: real)

  predicate UsableCurve(o: Ocv) {
    o.hasCurve ==> |o.volts| == |o.percents| && o.volts != []
  }

  function ResetValue(percent: int, o: Ocv): real
    requires UsableCurve(o)
  {
    if 0 <= percent <= 100 then percent as real
    else if o.hasCurve then Interpolate(o.volts, o.percents, o.cellAvg)
    else Interpolate([o.chgLimit, o.disLimit], [100.0, 0.0], o.cellAvg)
  }

  /** A reset never leaves the scale, whatever the voltages, as long as the curve does not. */
  lemma ResetStaysInScale(percent: int, o: Ocv)
    requires UsableCurve(o) && forall k :: 0 <= k < |o.percents| ==> InScale(o.percents[k])
    ensures InScale(ResetValue(percent, o))
  {
    if o.hasCurve { StaysInRange(o.volts, o.percents, o.cellAvg, 0.0, 100.0); }
    StaysInRange([o.chgLimit, o.disLimit], [100.0, 0.0], o.cellAvg, 0.0, 100.0);
  }

  /** What a reset sets: the percentage if it is one; otherwise the curve's percentage at each of its
      voltages, or without a curve the straight line from 0 at the discharge limit to 100 at the
      charge limit, and those values beyond. */
  lemma ResetExactly(percent: int, o: Ocv, k: nat)
    requires UsableCurve(o)
    ensures 0 <= percent <= 100 ==> ResetValue(percent, o) == percent as real
    ensures !(0 <= percent <= 100) && o.hasCurve && k < |o.volts| && o.cellAvg == o.volts[k]
            && (StrictlyMonotone(o.volts, true) || StrictlyMonotone(o.volts, false))
            ==> ResetValue(percent, o) == o.percents[k]
    ensures !(0 <= percent <= 100) && !o.hasCurve && o.disLimit < o.chgLimit ==>
              var soc := ResetValue(percent, o);
              && (o.cellAvg >= o.chgLimit ==> soc == 100.0)
              && (o.cellAvg <= o.disLimit ==> soc == 0.0)
              && (o.disLimit <= o.cellAvg <= o.chgLimit ==>
                    soc * (o.chgLimit - o.disLimit) == 100.0 * (o.cellAvg - o.disLimit))
  {
    hide Interpolate, StrictlyMonotone;
    if !(0 <= percent <= 100) && o.hasCurve && k < |o.volts| && o.cellAvg == o.volts[k] {
      if StrictlyMonotone(o.volts, true) { ValueAtEntry(o.volts, o.percents, true, k); }
      if StrictlyMonotone(o.volts, false) { ValueAtEntry(o.volts, o.percents, false, k); }
    }
    if !(0 <= percent <= 100) && !o.hasCurve && o.disLimit < o.chgLimit {
      var table := [o.chgLimit, o.disLimit];
      var v := o.cellAvg;
      ValueExactly(table, [100.0, 0.0], v, if v >= o.chgLimit then 0 else if v >= o.disLimit then 1 else 2);
      var soc := Interpolate(table, [100.0, 0.0], v);
      if o.disLimit <= v < o.chgLimit {
        MirroredLine(soc, v, o.chgLimit, o.disLimit);
        if v == o.disLimit { SameFactor(soc, 0.0, o.chgLimit - o.disLimit); }
      }
    }
  }

  lemma MirroredLine(y: real, x: real, high: real, low: real)
    requires (y - 100.0) * (low - high) == -100.0 * (x - high)
    ensures y * (high - low) == 100.0 * (x - low)
  {
    assert (y - 100.0) * (low - high) == 100.0 * (high - low) - y * (high - low);
  }

  class Estimator {
    var soc: real
    var nominalCapacityAh: real
    var coulombCounterMAs: real
    var lastUpdate: int

    predicate Valid()
      reads this
    {
      nominalCapacityAh > 0.0
    }

    /** Charge of one percent of the capacity, in mAs. */
    function PerPercent(): real
      requires Valid()
      reads this
    {
      nominalCapacityAh * 36000.0
    }

    function View(): Estimate
      requires Valid()
      reads this
    {
      Estimate(soc, coulombCounterMAs / PerPercent())
    }

    constructor (capacityAh: real)
      requires capacityAh > 0.0
      ensures Valid() && nominalCapacityAh == capacityAh && View() == Estimate(0.0, 0.0) && lastUpdate == 0
    {
      soc, nominalCapacityAh, coulombCounterMAs, lastUpdate := 0.0, capacityAh, 0.0, 0;
    }

    /** Sets the reported value; the pending charge stays. */
    method SetPercent(percent: int, o: Ocv)
      requires Valid() && UsableCurve(o)
      modifies `soc
      ensures Valid() && View() == Step(old(View()), Reset(ResetValue(percent, o)))
    {
      if percent <= 100 && percent >= 0 {
        soc := percent as real;
      } else if o.hasCurve {
        soc := InterpolateLoop(o.volts, o.percents, o.cellAvg);
      } else {
        soc := InterpolateLoop([o.chgLimit, o.disLimit], [100.0, 0.0], o.cellAvg);
      }
    }

    /** Called after each current measurement (A) at uptime now (ms). One hour at the nominal current
        is 3.6 million ms and moves 100 percent. */
    method Update(current: real, now: int)
      requires Valid()
      modifies `soc, `coulombCounterMAs, `lastUpdate
      ensures Valid() && lastUpdate == now
      ensures var ms := (now - old(lastUpdate)) as real;
              View() == Step(old(View()), Sample(100.0 * current * ms / (nominalCapacityAh * 3_600_000.0)))
      ensures View().pending == coulombCounterMAs * 100.0 / (nominalCapacityAh * 3_600_000.0)
    {
      ghost var moved := current * (now - lastUpdate) as real;
      coulombCounterMAs := coulombCounterMAs + current * (now - lastUpdate) as real;
      var socDelta := coulombCounterMAs / (nominalCapacityAh * 36000.0);
      SumOfQuotients(old(coulombCounterMAs), moved, PerPercent());
      SameShare(moved, nominalCapacityAh);
      assert 100.0 * current * (now - lastUpdate) as real == 100.0 * moved;
      if socDelta > 0.1 || socDelta < -0.1 {
        soc := Clamp(soc + socDelta, 0.0, 100.0);
        coulombCounterMAs := 0.0;
      }
      lastUpdate := now;
    }
  }

  /** 36000 mAs per Ah and percent are 3.6 million mAs per Ah. */
  lemma SameShare(mAs: real, capacityAh: real)
    requires capacityAh > 0.0
    ensures mAs / (capacityAh * 36000.0) == 100.0 * mAs / (capacityAh * 3_600_000.0)
  {
    var d := capacityAh * 36000.0;
    var q := mAs / d;
    assert q * d == mAs;
    assert capacityAh * 3_600_000.0 == 100.0 * d;
    assert q * (100.0 * d) == 100.0 * mAs;
    QuotientIs(100.0 * mAs, 100.0 * d, q);
  }

  lemma QuotientIs(x: real, d: real, q: real)
    requires d != 0.0 && q * d == x
    ensures x / d == q
  {
    TimesQuotient(x, d);
    SameFactor(x / d, q, d);
  }

  lemma SumOfQuotients(x: real, y: real, d: real)
    requires d > 0.0
    ensures (x + y) / d == x / d + y / d
  {
  }
}

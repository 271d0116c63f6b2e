/** Clearing chip faults: the alert handler of the bq769x0 driver retries once a second while a
    fault is present, each fault on its own schedule. */
module AlertHandler {

  /** The bits of SYS_STAT that are cleared by writing them back. */
  datatype Fault = CcReady | DeviceXReady | OverrideAlert | UnderVoltage | OverVoltage | ShortCircuit | OverCurrent

  /** One run whose read of SYS_STAT succeeds: the bits that are set, and the cell voltages. */
  datatype Visit = Visit(stat: set<Fault>, vMin: real, vMax: real)

  datatype Resets = Resets(uv: real, ov: real)

  /** The order in which the faults of one run are cleared. */
  function Rank(f: Fault): nat {
    match f
    case CcReady => 0
    case DeviceXReady => 1
    case OverrideAlert => 2
    case UnderVoltage => 3
    case OverVoltage => 4
    case ShortCircuit => 5
    case OverCurrent => 6
  }

  predicate InOrder(faults: seq<Fault>) {
    forall j, k :: 0 <= j < k < |faults| ==> Rank(faults[j]) < Rank(faults[k])
  }

  /** Faults in order, all of them before rank n. */
  ghost predicate Listed(faults: seq<Fault>, n: nat, due: set<Fault>) {
    && InOrder(faults)
    && (forall f :: f in faults ==> Rank(f) < n)
    && (forall f :: Rank(f) < n ==> (f in faults <==> f in due))
  }

  /** The next fault goes behind the others. */
  lemma NextListed(faults: seq<Fault>, f: Fault, due: set<Fault>)
    requires Listed(faults, Rank(f), due)
    ensures Listed(if f in due then faults + [f] else faults, Rank(f) + 1, due)
  {
    var r := if f in due then faults + [f] else faults;
    assert forall g :: g in r <==> g in faults || (f in due && g == f);
    forall g | Rank(g) < Rank(f) + 1 ensures g in r <==> g in due {
      if Rank(g) == Rank(f) { assert g == f; }
    }
  }

  lemma AllListed(faults: seq<Fault>, due: set<Fault>)
    requires Listed(faults, 7, due)
    ensures InOrder(faults) && forall f :: f in faults <==> f in due
  {
    assert forall f :: Rank(f) < 7;
  }

  predicate Shows(v: Visit, f: Fault) { f in v.stat }

  /** A bit other than the one for a new current reading is set. */
  predicate IsError(v: Visit) { v.stat - {CcReady} != {} }

  /** The counter during an error run. */
  function Age(counter: int): nat { if counter < 0 then 0 else counter }

  function NextCounter(counter: int, v: Visit): int {
    if IsError(v) then Age(counter) + 1 else -1
  }

  /** Whether a fault that shows is due to be cleared after age error runs in a row. */
  predicate Due(age: nat, v: Visit, r: Resets, f: Fault) {
    match f
    case CcReady => true
    case DeviceXReady => age % 3 == 0
    case OverrideAlert => age % 10 == 0
    case UnderVoltage => v.vMin > r.uv
    case OverVoltage => v.vMax < r.ov
    case ShortCircuit | OverCurrent => age % 60 == 0
  }

  /** What one run clears. */
  function Clears(counter: int, v: Visit, r: Resets): set<Fault> {
    set f: Fault | Shows(v, f) && (IsError(v) || f == CcReady) && Due(Age(counter), v, r, f)
  }

  /** The counter before run n. */
  function Counter(visits: seq<Visit>, n: nat): int
    requires n <= |visits|
  {
    if n == 0 then 0 else NextCounter(Counter(visits, n - 1), visits[n - 1])
  }

  /** The first run of the unbroken series of error runs that leads up to run n. */
  function StreakStart(visits: seq<Visit>, n: nat): (s: nat)
    requires n <= |visits|
    ensures s <= n
    ensures forall j :: s <= j < n ==> IsError(visits[j])
    ensures s > 0 ==> !IsError(visits[s - 1])
  {
    if n == 0 then 0 else if !IsError(visits[n - 1]) then n else StreakStart(visits, n - 1)
  }

  lemma {:induction false} CounterIsStreak(visits: seq<Visit>, n: nat)
    requires n <= |visits|
    ensures Age(Counter(visits, n)) == n - StreakStart(visits, n)
    decreases n
  {
    if n > 0 { CounterIsStreak(visits, n - 1); }
  }

  lemma ClearsIfDue(visits: seq<Visit>, n: nat, r: Resets, f: Fault)
    requires n < |visits|
    ensures f in Clears(Counter(visits, n), visits[n], r) <==>
            Shows(visits[n], f) && Due(n - StreakStart(visits, n), visits[n], r, f)
  {
    CounterIsStreak(visits, n);
    if Shows(visits[n], f) && f != CcReady { assert f in visits[n].stat - {CcReady}; }
  }

  /** What run n clears depends only on its own readings and on the number age of error runs, with a
      bit other than CC_READY set, that came right before it. */
  lemma ScheduleExactly(visits: seq<Visit>, n: nat, r: Resets, age: nat)
    requires age <= n < |visits|
    requires forall j :: n - age <= j < n ==> !(visits[j].stat <= {CcReady})
    requires age < n ==> visits[n - age - 1].stat <= {CcReady}
    ensures var c, v := Clears(Counter(visits, n), visits[n], r), visits[n];
            && (CcReady in c <==> CcReady in v.stat)
            && (DeviceXReady in c <==> DeviceXReady in v.stat && age % 3 == 0)
            && (OverrideAlert in c <==> OverrideAlert in v.stat && age % 10 == 0)
            && (UnderVoltage in c <==> UnderVoltage in v.stat && v.vMin > r.uv)
            && (OverVoltage in c <==> OverVoltage in v.stat && v.vMax < r.ov)
            && (ShortCircuit in c <==> ShortCircuit in v.stat && age % 60 == 0)
            && (OverCurrent in c <==> OverCurrent in v.stat && age % 60 == 0)
  {
    forall j | n - age <= j < n ensures IsError(visits[j]) {
      var f :| f in visits[j].stat && f != CcReady;
      assert f in visits[j].stat - {CcReady};
    }
    assert age < n ==> visits[n - age - 1].stat - {CcReady} == {};
    var start := StreakStart(visits, n);
    if start < n - age { assert false; }
    if start > n - age { assert false; }
    forall f: Fault
      ensures f in Clears(Counter(visits, n), visits[n], r) <==> Shows(visits[n], f) && Due(age, visits[n], r, f)
    {
      ClearsIfDue(visits, n, r, f);
    }
    hide Clears;
  }

  /** The order of the clearing writes. */
  lemma WritesInOrder(faults: seq<Fault>, j: nat, k: nat)
    requires InOrder(faults) && j < k < |faults|
    ensures var order := [CcReady, DeviceXReady, OverrideAlert, UnderVoltage, OverVoltage, ShortCircuit, OverCurrent];
            exists a, b :: 0 <= a < b < 7 && faults[j] == order[a] && faults[k] == order[b]
  {
    var order := [CcReady, DeviceXReady, OverrideAlert, UnderVoltage, OverVoltage, ShortCircuit, OverCurrent];
    assert faults[j] == order[Rank(faults[j])] && faults[k] == order[Rank(faults[k])];
  }

  class Handler {
    var errorSecondsCounter: int
    var resets: Resets

    constructor (resets: Resets)
      ensures errorSecondsCounter == 0 && this.resets == resets
    {
      errorSecondsCounter, this.resets := 0, resets;
    }

    /** cleared lists the clearing writes to SYS_STAT in their order; again says that the next run is
        a second away. */
    method Handle(readOk: bool, v: Visit) returns (cleared: seq<Fault>, again: bool)
      modifies `errorSecondsCounter
      ensures InOrder(cleared)
      ensures !readOk ==> cleared == [] && !again && errorSecondsCounter == old(errorSecondsCounter)
      ensures readOk ==>
                && (forall f :: f in cleared <==> f in Clears(old(errorSecondsCounter), v, resets))
                && again == IsError(v)
                && errorSecondsCounter == NextCounter(old(errorSecondsCounter), v)
    {
      cleared, again := [], false;
      if !readOk {
        return;
      }
      if Shows(v, CcReady) { cleared := [CcReady]; }
      if v.stat - {CcReady} != {} {
        if errorSecondsCounter < 0 {
          errorSecondsCounter := 0;
        }
        var retried := RetryFaults(v);
        cleared := cleared + retried;
        errorSecondsCounter := errorSecondsCounter + 1;
        again := true;
      } else {
        errorSecondsCounter := -1;
      }
    }

    method RetryFaults(v: Visit) returns (cleared: seq<Fault>)
      requires errorSecondsCounter >= 0
      ensures InOrder(cleared)
      ensures forall f :: f in cleared <==> f != CcReady && Shows(v, f) && Due(errorSecondsCounter, v, resets, f)
    {
      ghost var due := set f: Fault | f != CcReady && Shows(v, f) && Due(errorSecondsCounter, v, resets, f);
      cleared := [];
      assert Listed(cleared, 1, due);
      hide Listed, InOrder;
      cleared := Try(cleared, DeviceXReady, Shows(v, DeviceXReady) && errorSecondsCounter % 3 == 0, due);
      cleared := Try(cleared, OverrideAlert, Shows(v, OverrideAlert) && errorSecondsCounter % 10 == 0, due);
      cleared := Try(cleared, UnderVoltage, Shows(v, UnderVoltage) && v.vMin > resets.uv, due);
      cleared := Try(cleared, OverVoltage, Shows(v, OverVoltage) && v.vMax < resets.ov, due);
      cleared := Try(cleared, ShortCircuit, Shows(v, ShortCircuit) && errorSecondsCounter % 60 == 0, due);
      cleared := Try(cleared, OverCurrent, Shows(v, OverCurrent) && errorSecondsCounter % 60 == 0, due);
      AllListed(cleared, due);
    }
  }

  /** Writes back one more fault. */
  method Try(cleared: seq<Fault>, f: Fault, now: bool, ghost due: set<Fault>) returns (r: seq<Fault>)
    requires Listed(cleared, Rank(f), due) && (now <==> f in due)
    ensures Listed(r, Rank(f) + 1, due)
  {
    NextListed(cleared, f, due);
    r := if now then cleared + [f] else cleared;
  }
}

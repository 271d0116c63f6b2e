/** FET switching in the ISL94202 driver: the control register of the chip, the driver's shadow of
    the commands, and the error flags that compare the two. */
module Isl94202Switches {
  import Latch
  import opened BmsErrors

  datatype Fet = ChgFet | DisFet

  /** Command bits and register bits have swapped positions. */
  const SWITCH_CHG: bv8 := 0x01
  const SWITCH_DIS: bv8 := 0x02
  const CTRL1_DFET: bv8 := 0x01
  const CTRL1_CFET: bv8 := 0x02

  function SwitchBit(f: Fet): bv8 { if f == ChgFet then SWITCH_CHG else SWITCH_DIS }

  function RegBit(f: Fet): bv8 { if f == ChgFet then CTRL1_CFET else CTRL1_DFET }

  predicate IsOn(word: bv8, bit: bv8) { word & bit != 0 }

  function With(word: bv8, bit: bv8, on: bool): bv8 {
    if on then word | bit else word & !bit
  }

  /** CTRL1 in the chip and the fet_state of the driver. */
  datatype System = System(ctrl1: bv8, fetState: bv8)

  /** A switch command with the fate of its two transfers (stale is what the read buffer holds
      when the read fails), or the chip changing the register by itself. */
  datatype Event =
    | Command(switches: bv8, enabled: bool, readOk: bool, stale: bv8, writeOk: bool)
    | Hardware(ctrl1: bv8)

  predicate Accepted(e: Event) { e.Command? && e.switches & 0xFC == 0 }

  predicate Touches(e: Event, f: Fet) { Accepted(e) && IsOn(e.switches, SwitchBit(f)) }

  function Update(word: bv8, switches: bv8, chgBit: bv8, disBit: bv8, on: bool): bv8 {
    var w := if IsOn(switches, SWITCH_CHG) then With(word, chgBit, on) else word;
    if IsOn(switches, SWITCH_DIS) then With(w, disBit, on) else w
  }

  function Step(s: System, e: Event): System {
    match e
    case Hardware(ctrl1) => s.(ctrl1 := ctrl1)
    case Command(sw, on, readOk, stale, writeOk) =>
      if sw & 0xFC != 0 then s
      else
        var reg := Update(if readOk then s.ctrl1 else stale, sw, CTRL1_CFET, CTRL1_DFET, on);
        System(if writeOk then reg else s.ctrl1, Update(s.fetState, sw, SWITCH_CHG, SWITCH_DIS, on))
  }

  function Run(s: System, events: seq<Event>): System {
    if events == [] then s else Step(Run(s, events[..|events| - 1]), events[|events| - 1])
  }

  lemma UpdateBits(word: bv8, switches: bv8, on: bool)
    ensures var r := Update(word, switches, CTRL1_CFET, CTRL1_DFET, on);
            && IsOn(r, CTRL1_CFET) == (if IsOn(switches, SWITCH_CHG) then on else IsOn(word, CTRL1_CFET))
            && IsOn(r, CTRL1_DFET) == (if IsOn(switches, SWITCH_DIS) then on else IsOn(word, CTRL1_DFET))
            && r & 0xFC == word & 0xFC
    ensures var r := Update(word, switches, SWITCH_CHG, SWITCH_DIS, on);
            && IsOn(r, SWITCH_CHG) == (if IsOn(switches, SWITCH_CHG) then on else IsOn(word, SWITCH_CHG))
            && IsOn(r, SWITCH_DIS) == (if IsOn(switches, SWITCH_DIS) then on else IsOn(word, SWITCH_DIS))
  {
  }

  /** A command by bits: switch 0 is the charge FET and bit 1 of CTRL1, switch 1 the discharge FET and
      bit 0 of CTRL1; the other bits are written as they were read. */
  lemma CommandRegister(s: System, e: Event)
    requires e.Command? && e.switches & 0xFC == 0 && e.writeOk
    ensures var reg := Step(s, e).ctrl1; var read := if e.readOk then s.ctrl1 else e.stale;
            && (reg & 0x02 != 0) == (if e.switches & 0x01 != 0 then e.enabled else read & 0x02 != 0)
            && (reg & 0x01 != 0) == (if e.switches & 0x02 != 0 then e.enabled else read & 0x01 != 0)
            && reg & 0xFC == read & 0xFC
  {
    hide Update, IsOn, With;
    var read := if e.readOk then s.ctrl1 else e.stale;
    assert Step(s, e).ctrl1 == Update(read, e.switches, CTRL1_CFET, CTRL1_DFET, e.enabled);
    UpdateMasks(read, e.switches, e.enabled);
    hide Step;
  }

  /** The shadow keeps the positions of the switches, and a failed write leaves only the register
      alone. */
  lemma CommandShadow(s: System, e: Event)
    requires e.Command? && e.switches & 0xFC == 0
    ensures var t := Step(s, e);
            && (t.fetState & 0x01 != 0) == (if e.switches & 0x01 != 0 then e.enabled else s.fetState & 0x01 != 0)
            && (t.fetState & 0x02 != 0) == (if e.switches & 0x02 != 0 then e.enabled else s.fetState & 0x02 != 0)
    ensures !e.writeOk ==> Step(s, e).ctrl1 == s.ctrl1
  {
    hide Update, IsOn, With;
    assert Step(s, e).fetState == Update(s.fetState, e.switches, SWITCH_CHG, SWITCH_DIS, e.enabled);
    UpdateMasks(s.fetState, e.switches, e.enabled);
  }

  lemma UpdateMasks(word: bv8, switches: bv8, on: bool)
    ensures var r := Update(word, switches, CTRL1_CFET, CTRL1_DFET, on);
            && (r & 0x02 != 0) == (if switches & 0x01 != 0 then on else word & 0x02 != 0)
            && (r & 0x01 != 0) == (if switches & 0x02 != 0 then on else word & 0x01 != 0)
            && r & 0xFC == word & 0xFC
    ensures var r := Update(word, switches, SWITCH_CHG, SWITCH_DIS, on);
            && (r & 0x01 != 0) == (if switches & 0x01 != 0 then on else word & 0x01 != 0)
            && (r & 0x02 != 0) == (if switches & 0x02 != 0 then on else word & 0x02 != 0)
  {
  }

  /** The last accepted command for a FET; off before the first. */
  function Wanted(events: seq<Event>, f: Fet): bool {
    if events == [] then false
    else
      var e := events[|events| - 1];
      if Touches(e, f) then e.enabled else Wanted(events[..|events| - 1], f)
  }

  /** The shadow shows the last command for each FET over every run, whatever the bus and the chip
      do. */
  lemma {:induction false} ShadowIsLastCommand(s: System, events: seq<Event>, f: Fet)
    requires !IsOn(s.fetState, SwitchBit(f))
    ensures IsOn(Run(s, events).fetState, SwitchBit(f)) == Wanted(events, f)
    decreases |events|
  {
    if events != [] {
      var n := |events| - 1;
      ShadowIsLastCommand(s, events[..n], f);
      var e := events[n];
      if e.Command? { UpdateBits(Run(s, events[..n]).fetState, e.switches, e.enabled); }
    }
  }

  /** The register bits outside the two FETs change only by hardware while transfers succeed. */
  lemma CommandKeepsOtherBits(s: System, e: Event)
    requires e.Command? && (e.readOk || !e.writeOk)
    ensures Step(s, e).ctrl1 & 0xFC == s.ctrl1 & 0xFC
  {
    UpdateBits(if e.readOk then s.ctrl1 else e.stale, e.switches, e.enabled);
  }

  // ---------- error flags ----------

  function Stat0Flags(stat0: bv8): bv32 {
    FlagIf(IsOn(stat0, 0x04), CELL_UNDERVOLTAGE)
    | FlagIf(IsOn(stat0, 0x01), CELL_OVERVOLTAGE)
    | FlagIf(IsOn(stat0, 0x20), DIS_UNDERTEMP)
    | FlagIf(IsOn(stat0, 0x10), DIS_OVERTEMP)
    | FlagIf(IsOn(stat0, 0x80), CHG_UNDERTEMP)
    | FlagIf(IsOn(stat0, 0x40), CHG_OVERTEMP)
  }

  function Stat1Flags(stat1: bv8): bv32 {
    FlagIf(IsOn(stat1, 0x08), SHORT_CIRCUIT)
    | FlagIf(IsOn(stat1, 0x04), DIS_OVERCURRENT)
    | FlagIf(IsOn(stat1, 0x02), CHG_OVERCURRENT)
    | FlagIf(IsOn(stat1, 0x20), OPEN_WIRE)
    | FlagIf(IsOn(stat1, 0x01), INT_OVERTEMP)
    | FlagIf(IsOn(stat1, 0x10), CELL_FAILURE)
  }

  function DroppedFlags(ctrl1: bv8, fetState: bv8): bv32 {
    FlagIf(!IsOn(ctrl1, CTRL1_DFET) && IsOn(fetState, SWITCH_DIS), DIS_OFF)
    | FlagIf(!IsOn(ctrl1, CTRL1_CFET) && IsOn(fetState, SWITCH_CHG), CHG_OFF)
  }

  /** STAT0, STAT1 and CTRL1 as they are read. */
  function ErrorFlags(stat0: bv8, stat1: bv8, ctrl1: bv8, fetState: bv8): bv32 {
    Stat0Flags(stat0) | Stat1Flags(stat1) | DroppedFlags(ctrl1, fetState)
  }

  lemma Stat0Bits(stat0: bv8)
    ensures var w := Stat0Flags(stat0);
            && Has(w, CELL_OVERVOLTAGE) == (stat0 & 0x01 != 0) && Has(w, CELL_UNDERVOLTAGE) == (stat0 & 0x04 != 0)
            && Has(w, DIS_OVERTEMP) == (stat0 & 0x10 != 0) && Has(w, DIS_UNDERTEMP) == (stat0 & 0x20 != 0)
            && Has(w, CHG_OVERTEMP) == (stat0 & 0x40 != 0) && Has(w, CHG_UNDERTEMP) == (stat0 & 0x80 != 0)
            && w & !0x03C3 == 0
  {
  }

  lemma Stat1Bits(stat1: bv8)
    ensures var w := Stat1Flags(stat1);
            && Has(w, INT_OVERTEMP) == (stat1 & 0x01 != 0) && Has(w, CHG_OVERCURRENT) == (stat1 & 0x02 != 0)
            && Has(w, DIS_OVERCURRENT) == (stat1 & 0x04 != 0) && Has(w, SHORT_CIRCUIT) == (stat1 & 0x08 != 0)
            && Has(w, CELL_FAILURE) == (stat1 & 0x10 != 0) && Has(w, OPEN_WIRE) == (stat1 & 0x20 != 0)
            && w & !0x0C3C == 0
  {
  }

  lemma DroppedBits(ctrl1: bv8, fetState: bv8)
    ensures var w := DroppedFlags(ctrl1, fetState);
            && Has(w, DIS_OFF) == (ctrl1 & 0x01 == 0 && fetState & 0x02 != 0)
            && Has(w, CHG_OFF) == (ctrl1 & 0x02 == 0 && fetState & 0x01 != 0)
            && w & !0x3000 == 0
  {
  }

  /** A flag belongs to one of the three words. */
  lemma JoinedFlags(a: bv32, b: bv32, c: bv32)
    requires a & !0x03C3 == 0 && b & !0x0C3C == 0 && c & !0x3000 == 0
    ensures (a | b | c) & 0x03C3 == a && (a | b | c) & 0x0C3C == b && (a | b | c) & 0x3000 == c
  {
  }

  lemma FlagsOf0(w: bv32, a: bv32)
    requires w & 0x03C3 == a
    ensures Has(w, CELL_OVERVOLTAGE) == Has(a, CELL_OVERVOLTAGE)
    ensures Has(w, CELL_UNDERVOLTAGE) == Has(a, CELL_UNDERVOLTAGE)
    ensures Has(w, DIS_OVERTEMP) == Has(a, DIS_OVERTEMP) && Has(w, DIS_UNDERTEMP) == Has(a, DIS_UNDERTEMP)
    ensures Has(w, CHG_OVERTEMP) == Has(a, CHG_OVERTEMP) && Has(w, CHG_UNDERTEMP) == Has(a, CHG_UNDERTEMP)
  {
  }

  lemma FlagsOf1(w: bv32, b: bv32)
    requires w & 0x0C3C == b
    ensures Has(w, INT_OVERTEMP) == Has(b, INT_OVERTEMP) && Has(w, CHG_OVERCURRENT) == Has(b, CHG_OVERCURRENT)
    ensures Has(w, DIS_OVERCURRENT) == Has(b, DIS_OVERCURRENT) && Has(w, SHORT_CIRCUIT) == Has(b, SHORT_CIRCUIT)
    ensures Has(w, CELL_FAILURE) == Has(b, CELL_FAILURE) && Has(w, OPEN_WIRE) == Has(b, OPEN_WIRE)
  {
  }

  lemma FlagsOf2(w: bv32, c: bv32)
    requires w & 0x3000 == c
    ensures Has(w, DIS_OFF) == Has(c, DIS_OFF) && Has(w, CHG_OFF) == Has(c, CHG_OFF)
  {
  }

  datatype Status = Uv | Ov | Sc | DisOc | ChgOc | OpenWire | DisUt | DisOt | ChgUt | ChgOt | IntOt | CellFail

  /** Register (0 or 1), bit and flag of a status. */
  function Place(s: Status): (bv8, bv8, bv32) {
    match s
    case Ov => (0, 0x01, CELL_OVERVOLTAGE)
    case Uv => (0, 0x04, CELL_UNDERVOLTAGE)
    case DisOt => (0, 0x10, DIS_OVERTEMP)
    case DisUt => (0, 0x20, DIS_UNDERTEMP)
    case ChgOt => (0, 0x40, CHG_OVERTEMP)
    case ChgUt => (0, 0x80, CHG_UNDERTEMP)
    case IntOt => (1, 0x01, INT_OVERTEMP)
    case ChgOc => (1, 0x02, CHG_OVERCURRENT)
    case DisOc => (1, 0x04, DIS_OVERCURRENT)
    case Sc => (1, 0x08, SHORT_CIRCUIT)
    case CellFail => (1, 0x10, CELL_FAILURE)
    case OpenWire => (1, 0x20, OPEN_WIRE)
  }

  lemma MaskedFlags(stat0: bv8, stat1: bv8, ctrl1: bv8, fetState: bv8)
    ensures var w := ErrorFlags(stat0, stat1, ctrl1, fetState);
            && w & 0x03C3 == Stat0Flags(stat0) && w & 0x0C3C == Stat1Flags(stat1)
            && w & 0x3000 == DroppedFlags(ctrl1, fetState)
  {
    Stat0Bits(stat0);
    Stat1Bits(stat1);
    DroppedBits(ctrl1, fetState);
    hide Has, Stat0Flags, Stat1Flags, DroppedFlags;
    JoinedFlags(Stat0Flags(stat0), Stat1Flags(stat1), DroppedFlags(ctrl1, fetState));
  }

  /** Each flag follows its own bit: those of STAT0, */
  lemma Status0Bits(stat0: bv8, stat1: bv8, ctrl1: bv8, fetState: bv8)
    ensures var w := ErrorFlags(stat0, stat1, ctrl1, fetState);
            && Has(w, CELL_OVERVOLTAGE) == (stat0 & 0x01 != 0) && Has(w, CELL_UNDERVOLTAGE) == (stat0 & 0x04 != 0)
            && Has(w, DIS_OVERTEMP) == (stat0 & 0x10 != 0) && Has(w, DIS_UNDERTEMP) == (stat0 & 0x20 != 0)
            && Has(w, CHG_OVERTEMP) == (stat0 & 0x40 != 0) && Has(w, CHG_UNDERTEMP) == (stat0 & 0x80 != 0)
  {
    hide Has, ErrorFlags, Stat0Flags;
    MaskedFlags(stat0, stat1, ctrl1, fetState);
    FlagsOf0(ErrorFlags(stat0, stat1, ctrl1, fetState), Stat0Flags(stat0));
    Stat0Bits(stat0);
  }

  /** those of STAT1, */
  lemma Status1Bits(stat0: bv8, stat1: bv8, ctrl1: bv8, fetState: bv8)
    ensures var w := ErrorFlags(stat0, stat1, ctrl1, fetState);
            && Has(w, INT_OVERTEMP) == (stat1 & 0x01 != 0) && Has(w, CHG_OVERCURRENT) == (stat1 & 0x02 != 0)
            && Has(w, DIS_OVERCURRENT) == (stat1 & 0x04 != 0) && Has(w, SHORT_CIRCUIT) == (stat1 & 0x08 != 0)
            && Has(w, CELL_FAILURE) == (stat1 & 0x10 != 0) && Has(w, OPEN_WIRE) == (stat1 & 0x20 != 0)
  {
    hide Has, ErrorFlags, Stat1Flags;
    MaskedFlags(stat0, stat1, ctrl1, fetState);
    FlagsOf1(ErrorFlags(stat0, stat1, ctrl1, fetState), Stat1Flags(stat1));
    Stat1Bits(stat1);
  }

  /** and those that compare CTRL1 with the shadow. */
  lemma OffBits(stat0: bv8, stat1: bv8, ctrl1: bv8, fetState: bv8)
    ensures var w := ErrorFlags(stat0, stat1, ctrl1, fetState);
            && Has(w, DIS_OFF) == (ctrl1 & 0x01 == 0 && fetState & 0x02 != 0)
            && Has(w, CHG_OFF) == (ctrl1 & 0x02 == 0 && fetState & 0x01 != 0)
  {
    hide Has, ErrorFlags, DroppedFlags;
    MaskedFlags(stat0, stat1, ctrl1, fetState);
    FlagsOf2(ErrorFlags(stat0, stat1, ctrl1, fetState), DroppedFlags(ctrl1, fetState));
    DroppedBits(ctrl1, fetState);
  }

  /** The same for a given status. */
  lemma FlagExactly(stat0: bv8, stat1: bv8, ctrl1: bv8, fetState: bv8, s: Status)
    ensures var (reg, bit, flag) := Place(s);
            Has(ErrorFlags(stat0, stat1, ctrl1, fetState), flag) == IsOn(if reg == 0 then stat0 else stat1, bit)
  {
    Status0Bits(stat0, stat1, ctrl1, fetState);
    Status1Bits(stat0, stat1, ctrl1, fetState);
    hide Has, ErrorFlags;
    match s
    case Ov =>
    case Uv =>
    case DisOt =>
    case DisUt =>
    case ChgOt =>
    case ChgUt =>
    case IntOt =>
    case ChgOc =>
    case DisOc =>
    case Sc =>
    case CellFail =>
    case OpenWire =>
  }

  function OffFlag(f: Fet): bv32 { if f == ChgFet then CHG_OFF else DIS_OFF }

  lemma OffFlagMeans(stat0: bv8, stat1: bv8, s: System, f: Fet)
    ensures Has(ErrorFlags(stat0, stat1, s.ctrl1, s.fetState), OffFlag(f)) <==>
            !IsOn(s.ctrl1, RegBit(f)) && IsOn(s.fetState, SwitchBit(f))
  {
    OffBits(stat0, stat1, s.ctrl1, s.fetState);
    hide Has, ErrorFlags;
  }

  // ---------- dropped FETs ----------

  /** The chip switches a FET off by itself. */
  predicate Drops(e: Event, f: Fet) { e.Hardware? && !IsOn(e.ctrl1, RegBit(f)) }

  /** Transfers succeed and hardware never turns a FET on. */
  ghost predicate Orderly(s: System, events: seq<Event>) {
    events == [] ||
    var before := Run(s, events[..|events| - 1]);
    && Orderly(s, events[..|events| - 1])
    && match events[|events| - 1]
       case Command(_, _, readOk, _, writeOk) => readOk && writeOk
       case Hardware(ctrl1) => ctrl1 & !before.ctrl1 & 0x03 == 0
  }

  function DropEvents(events: seq<Event>, f: Fet): (d: seq<Latch.Event>)
    ensures |d| == |events|
  {
    seq(|events|, k requires 0 <= k < |events| => Latch.Event(Drops(events[k], f), Touches(events[k], f)))
  }

  /** Some change of the chip dropped the FET and no accepted command touched it since. */
  ghost predicate DroppedSince(events: seq<Event>, f: Fet) {
    exists k: nat :: Latch.SetAndHeld(DropEvents(events, f), k)
  }

  lemma HardwareOnlyClears(before: bv8, after: bv8, f: Fet)
    requires after & !before & 0x03 == 0 && IsOn(after, RegBit(f))
    ensures IsOn(before, RegBit(f))
  {
  }

  lemma CommandBit(s: System, e: Event, f: Fet)
    requires e.Command? && e.readOk && e.writeOk
    ensures IsOn(Step(s, e).ctrl1, RegBit(f)) == if Touches(e, f) then e.enabled else IsOn(s.ctrl1, RegBit(f))
  {
    UpdateBits(s.ctrl1, e.switches, e.enabled);
  }

  lemma {:induction false} RegisterBit(s: System, events: seq<Event>, f: Fet)
    requires s.ctrl1 & 0x03 == 0 && Orderly(s, events)
    ensures IsOn(Run(s, events).ctrl1, RegBit(f)) ==
            (Wanted(events, f) && !Latch.After(false, DropEvents(events, f)))
    decreases |events|
  {
    if events != [] {
      hide IsOn, Update, Accepted;
      var n := |events| - 1;
      var before, e := Run(s, events[..n]), events[n];
      RegisterBit(s, events[..n], f);
      assert DropEvents(events, f)[..n] == DropEvents(events[..n], f);
      if e.Command? {
        CommandBit(before, e, f);
      } else if IsOn(e.ctrl1, RegBit(f)) {
        HardwareOnlyClears(before.ctrl1, e.ctrl1, f);
      }
    } else {
      FetsOff(s.ctrl1, f);
    }
  }

  lemma FetsOff(ctrl1: bv8, f: Fet)
    requires ctrl1 & 0x03 == 0
    ensures !IsOn(ctrl1, RegBit(f))
  {
  }

  /** A FET is reported as off exactly when it is wanted on and the chip dropped it after the last
      command for it. */
  lemma OffFlagExactly(s: System, events: seq<Event>, stat0: bv8, stat1: bv8, f: Fet)
    requires s.ctrl1 & 0x03 == 0 && !IsOn(s.fetState, SwitchBit(f)) && Orderly(s, events)
    ensures var t := Run(s, events);
            Has(ErrorFlags(stat0, stat1, t.ctrl1, t.fetState), OffFlag(f)) <==>
            Wanted(events, f) && DroppedSince(events, f)
  {
    OffFlagMeans(stat0, stat1, Run(s, events), f);
    ShadowIsLastCommand(s, events, f);
    RegisterBit(s, events, f);
    Latch.AfterIsHistory(false, DropEvents(events, f));
  }

  class Driver {
    /** the control register inside the chip */
    var ctrl1: bv8
    var fetState: bv8

    constructor ()
      ensures ctrl1 == 0 && fetState == 0
    {
      ctrl1, fetState := 0, 0;
    }

    ghost function View(): System
      reads this
    {
      System(ctrl1, fetState)
    }

    /** The result of the read is not looked at. */
    method SetSwitches(switches: bv8, enabled: bool, readOk: bool, stale: bv8, writeOk: bool) returns (success: bool)
      modifies this
      ensures success <==> switches & 0xFC == 0 && writeOk
      ensures View() == Step(old(View()), Command(switches, enabled, readOk, stale, writeOk))
    {
      OnlyFets(switches);
      hide With, IsOn;
      if switches & (SWITCH_CHG | SWITCH_DIS) != switches {
        return false;
      }
      var reg := if readOk then ctrl1 else stale;
      if IsOn(switches, SWITCH_CHG) {
        reg := With(reg, CTRL1_CFET, enabled);
        fetState := With(fetState, SWITCH_CHG, enabled);
      }
      if IsOn(switches, SWITCH_DIS) {
        reg := With(reg, CTRL1_DFET, enabled);
        fetState := With(fetState, SWITCH_DIS, enabled);
      }
      if writeOk {
        ctrl1 := reg;
      }
      return writeOk;
    }
  }

  lemma OnlyFets(switches: bv8)
    ensures switches & (SWITCH_CHG | SWITCH_DIS) == switches <==> switches & 0xFC == 0
  {
  }
}

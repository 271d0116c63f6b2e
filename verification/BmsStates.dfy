/** The supervisory state machine of the BMS on top of the bq769x0 switch register. */
module BmsStates {
  import Latch
  import opened BmsErrors

  datatype State = Off | Chg | Dis | Normal | Shutdown

  // ---------- what is allowed ----------

  predicate ChgError(flags: bv32) {
    flags & (CELL_OVERVOLTAGE | CHG_OVERCURRENT | OPEN_WIRE | CHG_UNDERTEMP | CHG_OVERTEMP | INT_OVERTEMP
             | CELL_FAILURE | CHG_OFF) != 0
  }

  predicate DisError(flags: bv32) {
    flags & (CELL_UNDERVOLTAGE | SHORT_CIRCUIT | DIS_OVERCURRENT | OPEN_WIRE | DIS_UNDERTEMP | DIS_OVERTEMP
             | INT_OVERTEMP | CELL_FAILURE | DIS_OFF) != 0
  }

  predicate ChgAllowed(flags: bv32, full: bool, enable: bool) {
    !ChgError(flags & !CHG_OFF) && !full && enable
  }

  predicate DisAllowed(flags: bv32, empty: bool, enable: bool) {
    !DisError(flags & !DIS_OFF) && !empty && enable
  }

  /** Seven flags block charging; a FET that dropped out does not. */
  lemma ChgAllowedExactly(flags: bv32, full: bool, enable: bool)
    ensures ChgAllowed(flags, full, enable) <==>
            && enable && !full
            && !Has(flags, CELL_OVERVOLTAGE) && !Has(flags, CHG_OVERCURRENT) && !Has(flags, OPEN_WIRE)
            && !Has(flags, CHG_UNDERTEMP) && !Has(flags, CHG_OVERTEMP) && !Has(flags, INT_OVERTEMP)
            && !Has(flags, CELL_FAILURE)
  {
    assert flags & !CHG_OFF & (CELL_OVERVOLTAGE | CHG_OVERCURRENT | OPEN_WIRE | CHG_UNDERTEMP | CHG_OVERTEMP
                               | INT_OVERTEMP | CELL_FAILURE | CHG_OFF) == flags & 0x0F32;
  }

  lemma DisAllowedExactly(flags: bv32, empty: bool, enable: bool)
    ensures DisAllowed(flags, empty, enable) <==>
            && enable && !empty
            && !Has(flags, CELL_UNDERVOLTAGE) && !Has(flags, SHORT_CIRCUIT) && !Has(flags, DIS_OVERCURRENT)
            && !Has(flags, OPEN_WIRE) && !Has(flags, DIS_UNDERTEMP) && !Has(flags, DIS_OVERTEMP)
            && !Has(flags, INT_OVERTEMP) && !Has(flags, CELL_FAILURE)
  {
    assert flags & !DIS_OFF & (CELL_UNDERVOLTAGE | SHORT_CIRCUIT | DIS_OVERCURRENT | OPEN_WIRE | DIS_UNDERTEMP
                               | DIS_OVERTEMP | INT_OVERTEMP | CELL_FAILURE | DIS_OFF) == flags & 0x0CED;
  }

  // ---------- the switch register ----------

  const SWITCH_CHG: bv8 := 1
  const SWITCH_DIS: bv8 := 2

  predicate ChgOn(reg: bv8) { reg & 1 != 0 }

  predicate DisOn(reg: bv8) { reg & 2 != 0 }

  /** Everything in SYS_CTRL2 but the two FET bits. */
  function OtherBits(reg: bv8): bv8 { reg & 0xFC }

  datatype Command = Command(switches: bv8, on: bool)

  /** SYS_CTRL2 after a command whose read and write both succeed. */
  function Switched(reg: bv8, c: Command): bv8 {
    var r := if c.switches & SWITCH_CHG != 0 then (if c.on then reg | 1 else reg & 0xFE) else reg;
    if c.switches & SWITCH_DIS != 0 then (if c.on then r | 2 else r & 0xFD) else r
  }

  /** Which of the at most two commands of one step reach the chip. */
  datatype Bus = Bus(first: bool, second: bool)

  function Issue(reg: bv8, commands: seq<Command>, ok: Bus): bv8
    requires |commands| <= 2
  {
    var r := if |commands| >= 1 && ok.first then Switched(reg, commands[0]) else reg;
    if |commands| == 2 && ok.second then Switched(r, commands[1]) else r
  }

  lemma SwitchedBits(reg: bv8, c: Command)
    ensures ChgOn(Switched(reg, c)) == if c.switches & SWITCH_CHG != 0 then c.on else ChgOn(reg)
    ensures DisOn(Switched(reg, c)) == if c.switches & SWITCH_DIS != 0 then c.on else DisOn(reg)
    ensures OtherBits(Switched(reg, c)) == OtherBits(reg)
  {
  }

  /** By bits: switch and register bit 0 are the charge FET, switch and register bit 1 the discharge
      FET. */
  lemma SwitchPositions(reg: bv8, c: Command)
    ensures (Switched(reg, c) & 0x01 != 0) == if c.switches & 0x01 != 0 then c.on else reg & 0x01 != 0
    ensures (Switched(reg, c) & 0x02 != 0) == if c.switches & 0x02 != 0 then c.on else reg & 0x02 != 0
    ensures Switched(reg, c) & 0xFC == reg & 0xFC
    ensures TurnsChg(c) == (c.switches & 0x01 != 0) && TurnsDis(c) == (c.switches & 0x02 != 0)
    ensures ChgOn(reg) == (reg & 0x01 != 0) && DisOn(reg) == (reg & 0x02 != 0)
  {
  }

  lemma IssueKeepsOtherBits(reg: bv8, commands: seq<Command>, ok: Bus)
    requires |commands| <= 2
    ensures OtherBits(Issue(reg, commands, ok)) == OtherBits(reg)
  {
    if |commands| >= 1 {
      SwitchedBits(reg, commands[0]);
      if |commands| == 2 {
        SwitchedBits(if ok.first then Switched(reg, commands[0]) else reg, commands[1]);
      }
    }
  }

  predicate TurnsChg(c: Command) { c.switches & SWITCH_CHG != 0 }

  predicate TurnsDis(c: Command) { c.switches & SWITCH_DIS != 0 }

  /** The last command that arrives and names a FET decides it. */
  lemma IssuedFets(reg: bv8, commands: seq<Command>, ok: Bus)
    requires |commands| <= 2
    ensures var r := Issue(reg, commands, ok);
            && ChgOn(r) == (if |commands| == 2 && ok.second && TurnsChg(commands[1]) then commands[1].on
                            else if |commands| >= 1 && ok.first && TurnsChg(commands[0]) then commands[0].on
                            else ChgOn(reg))
            && DisOn(r) == (if |commands| == 2 && ok.second && TurnsDis(commands[1]) then commands[1].on
                            else if |commands| >= 1 && ok.first && TurnsDis(commands[0]) then commands[0].on
                            else DisOn(reg))
  {
    hide Switched, ChgOn, DisOn;
    if |commands| >= 1 {
      SwitchedBits(reg, commands[0]);
      if |commands| == 2 {
        SwitchedBits(if ok.first then Switched(reg, commands[0]) else reg, commands[1]);
      }
    }
  }

  // ---------- one step ----------

  datatype Inputs = Inputs(chg: bool, dis: bool, current: real)

  function Next(s: State, i: Inputs): State {
    match s
    case Off => if i.dis then Dis else if i.chg then Chg else Off
    case Chg => if !i.chg then Off else if i.dis then Normal else Chg
    case Dis => if !i.dis then Off else if i.chg then Normal else Dis
    case Normal => if !i.dis then Chg else if !i.chg then Dis else Normal
    case Shutdown => Shutdown
  }

  const CMD_CHG_ON := Command(SWITCH_CHG, true)
  const CMD_CHG_OFF := Command(SWITCH_CHG, false)
  const CMD_DIS_ON := Command(SWITCH_DIS, true)
  const CMD_DIS_OFF := Command(SWITCH_DIS, false)

  function Commands(s: State, i: Inputs): (c: seq<Command>)
    ensures |c| <= 2
  {
    match s
    case Off => if i.dis then [CMD_DIS_ON] else if i.chg then [CMD_CHG_ON] else []
    case Chg =>
      if !i.chg then [CMD_CHG_OFF, CMD_DIS_OFF]
      else if i.dis then [CMD_DIS_ON]
      else if i.current > 0.5 then [CMD_DIS_ON]
      else if i.current < 0.1 then [CMD_DIS_OFF]
      else []
    case Dis =>
      if !i.dis then [CMD_DIS_OFF, CMD_CHG_OFF]
      else if i.chg then [CMD_CHG_ON]
      else if i.current < -0.5 then [CMD_CHG_ON]
      else if i.current > -0.1 then [CMD_CHG_OFF]
      else []
    case Normal => if !i.dis then [CMD_DIS_OFF] else if !i.chg then [CMD_CHG_OFF] else []
    case Shutdown => []
  }

  // ---------- whole runs ----------

  datatype Event = Tick(i: Inputs, ok: Bus) | PowerDown(ok: Bus)

  datatype System = System(state: State, reg: bv8)

  predicate AllOk(e: Event) { e.ok == Bus(true, true) }

  function Step(s: System, e: Event): System {
    match e
    case Tick(i, ok) => System(Next(s.state, i), Issue(s.reg, Commands(s.state, i), ok))
    case PowerDown(ok) => System(Shutdown, Issue(s.reg, [CMD_DIS_OFF, CMD_CHG_OFF], ok))
  }

  function Run(s: System, events: seq<Event>): System
    decreases |events|
  {
    if events == [] then s else Run(Step(s, events[0]), events[1..])
  }

  /** Each state stands for FETs that are on or off. */
  predicate Agrees(s: System) {
    match s.state
    case Off => !ChgOn(s.reg) && !DisOn(s.reg)
    case Chg => ChgOn(s.reg)
    case Dis => DisOn(s.reg)
    case Normal => ChgOn(s.reg) && DisOn(s.reg)
    case Shutdown => !ChgOn(s.reg) && !DisOn(s.reg)
  }

  /** The FETs after a step whose transfers all succeed, in terms of the FETs before. */
  lemma StepFets(s: System, e: Event)
    requires AllOk(e)
    ensures var t := Step(s, e);
            match e
            case PowerDown(_) => !ChgOn(t.reg) && !DisOn(t.reg)
            case Tick(i, _) =>
              && (ChgOn(t.reg) <==> match s.state
                  case Off => ChgOn(s.reg) || (!i.dis && i.chg)
                  case Chg => i.chg && ChgOn(s.reg)
                  case Dis => i.dis && (i.chg || i.current < -0.5 || (i.current <= -0.1 && ChgOn(s.reg)))
                  case Normal => (i.chg || !i.dis) && ChgOn(s.reg)
                  case Shutdown => ChgOn(s.reg))
              && (DisOn(t.reg) <==> match s.state
                  case Off => DisOn(s.reg) || i.dis
                  case Chg => i.chg && (i.dis || i.current > 0.5 || (i.current >= 0.1 && DisOn(s.reg)))
                  case Dis => i.dis && DisOn(s.reg)
                  case Normal => i.dis && DisOn(s.reg)
                  case Shutdown => DisOn(s.reg))
  {
    var commands := match e case Tick(i, _) => Commands(s.state, i) case PowerDown(_) => [CMD_DIS_OFF, CMD_CHG_OFF];
    IssuedFets(s.reg, commands, e.ok);
  }

  /** The transfers a step cannot do without: a lost command does no harm only to a FET that is
      where it should be already, or while the state makes no claim about that FET. */
  predicate Harmless(s: System, e: Event) {
    match e
    case PowerDown(ok) => (ok.first || !DisOn(s.reg)) && (ok.second || !ChgOn(s.reg))
    case Tick(i, ok) =>
      match s.state
      case Off => i.dis || i.chg ==> ok.first
      case Chg =>
        if !i.chg then ok.first && (ok.second || !DisOn(s.reg))
        else i.dis ==> ok.first || DisOn(s.reg)
      case Dis =>
        if !i.dis then ok.first && (ok.second || !ChgOn(s.reg))
        else i.chg ==> ok.first || ChgOn(s.reg)
      case Normal => true
      case Shutdown => true
  }

  /** FETs that agree with the state agree after a step exactly when its losses are harmless. */
  lemma StepAgreesExactly(s: System, e: Event)
    requires Agrees(s)
    ensures Agrees(Step(s, e)) <==> Harmless(s, e)
  {
    var commands := match e case Tick(i, _) => Commands(s.state, i) case PowerDown(_) => [CMD_DIS_OFF, CMD_CHG_OFF];
    IssuedFets(s.reg, commands, e.ok);
    hide Issue, ChgOn, DisOn;
  }

  ghost predicate AgreesThroughout(s: System, events: seq<Event>) {
    forall k :: 0 <= k <= |events| ==> Agrees(Run(s, events[..k]))
  }

  ghost predicate AllHarmless(s: System, events: seq<Event>) {
    forall k :: 0 <= k < |events| ==> Harmless(Run(s, events[..k]), events[k])
  }

  /** The FETs agree with the state all through a run exactly when they do at its start and every
      loss on the way is harmless; with successful transfers that is every run. */
  lemma {:induction false} AgreementOverRuns(s: System, events: seq<Event>)
    ensures AgreesThroughout(s, events) <==> Agrees(s) && AllHarmless(s, events)
    ensures (forall e :: e in events ==> AllOk(e)) ==> AllHarmless(s, events)
    decreases |events|
  {
    hide Agrees, Harmless, Step;
    assert Run(s, events[..0]) == s;
    if events != [] {
      var n := |events| - 1;
      var front := events[..n];
      AgreementOverRuns(s, front);
      assert forall k :: 0 <= k <= n ==> front[..k] == events[..k];
      RunSplit(s, events);
      assert events[..|events|] == events;
      if Agrees(Run(s, front)) { StepAgreesExactly(Run(s, front), events[n]); }
      if AllOk(events[n]) { OkIsHarmless(Run(s, front), events[n]); }
      assert AgreesThroughout(s, events) <==> AgreesThroughout(s, front) && Agrees(Run(s, events)) by {
        assert forall k :: 0 <= k <= n + 1 ==> k <= n || events[..k] == events;
      }
      assert AllHarmless(s, events) <==> AllHarmless(s, front) && Harmless(Run(s, front), events[n]);
      assert AgreesThroughout(s, front) ==> Agrees(Run(s, front[..n]));
      assert front[..n] == front;
    }
  }

  lemma OkIsHarmless(s: System, e: Event)
    requires AllOk(e)
    ensures Harmless(s, e)
  {
  }

  /** Over every run at all the other register bits keep their values, and shutdown is final. */
  lemma {:induction false} KeptOverRuns(s: System, events: seq<Event>)
    ensures OtherBits(Run(s, events).reg) == OtherBits(s.reg)
    ensures s.state == Shutdown || (exists e :: e in events && e.PowerDown?) ==> Run(s, events).state == Shutdown
    decreases |events|
  {
    if events != [] {
      var e := events[0];
      match e {
        case Tick(i, ok) => IssueKeepsOtherBits(s.reg, Commands(s.state, i), ok);
        case PowerDown(ok) => IssueKeepsOtherBits(s.reg, [CMD_DIS_OFF, CMD_CHG_OFF], ok);
      }
      KeptOverRuns(Step(s, e), events[1..]);
    }
  }

  /** Charging disallowed once: the CHG FET stays on only for diode current, or for the one step
      from Normal in which discharging is disallowed as well. */
  lemma CutOffChargeOnce(s: System, i: Inputs, ok: Bus)
    requires Agrees(s) && AllOk(Tick(i, ok)) && !i.chg
    ensures var t := Step(s, Tick(i, ok));
            ChgOn(t.reg) ==>
              || (t.state == Dis && s.state == Dis && i.dis && i.current <= -0.1)
              || (s.state == Normal && t.state == Chg && !i.dis)
  {
    StepFets(s, Tick(i, ok));
  }

  /** The cut-off bound at the end of every run that kept agreement, for ticks that are not lost. One
      tick that disallows discharging leaves the DIS FET on only for diode current while charging;
      two consecutive ticks that disallow charging leave the CHG FET on only for diode current while
      discharging. Whatever came before, shutdowns included, does not matter. */
  lemma CutOffOverRuns(s: System, events: seq<Event>)
    requires Agrees(s) && AllHarmless(s, events)
    requires events != [] && events[|events| - 1].Tick? && AllOk(events[|events| - 1])
    ensures var n := |events| - 1; var last := events[n].i; var t := Run(s, events);
            && (!last.dis && DisOn(t.reg) ==> t.state == Chg && last.chg && last.current >= 0.1)
            && (n >= 1 && events[n - 1].Tick? && AllOk(events[n - 1]) && !events[n - 1].i.chg && !last.chg ==>
                  ChgOn(t.reg) ==> t.state == Dis && last.dis && last.current <= -0.1)
  {
    hide Issue, Commands, ChgOn, DisOn, Harmless;
    var n := |events| - 1;
    var before := events[..n];
    RunSplit(s, events);
    AgreementOverRuns(s, events);
    assert Agrees(Run(s, before));
    StepFets(Run(s, before), events[n]);
    if n >= 1 && AllOk(events[n - 1]) {
      RunSplit(s, before);
      assert before[..n - 1] == events[..n - 1];
      assert Agrees(Run(s, before[..n - 1]));
      StepFets(Run(s, before[..n - 1]), before[n - 1]);
    }
  }

  // ---------- stabilisation ----------

  /** The state that matches what is allowed. */
  function Target(chg: bool, dis: bool): State {
    if chg then (if dis then Normal else Chg) else (if dis then Dis else Off)
  }

  function StateAfter(s: State, inputs: seq<Inputs>): State
    decreases |inputs|
  {
    if inputs == [] then s else StateAfter(Next(s, inputs[0]), inputs[1..])
  }

  ghost predicate Steady(inputs: seq<Inputs>, chg: bool, dis: bool) {
    forall k :: 0 <= k < |inputs| ==> inputs[k].chg == chg && inputs[k].dis == dis
  }

  /** Steps to the matching state while the allowed pair is constant. */
  function Distance(s: State, chg: bool, dis: bool): (d: nat)
    ensures d <= 2
  {
    if s == Target(chg, dis) then 0
    else match s
      case Off => if chg && dis then 2 else 1
      case Chg => if !chg && dis then 2 else 1
      case Dis => if chg && !dis then 2 else 1
      case Normal => if !chg && !dis then 2 else 1
      case Shutdown => 0
  }

  /** The matching state is reached after exactly Distance steps and not left; no state is
      skipped into earlier. */
  lemma {:induction false} Stabilises(s: State, inputs: seq<Inputs>, chg: bool, dis: bool)
    requires s != Shutdown && Steady(inputs, chg, dis)
    ensures StateAfter(s, inputs) == Target(chg, dis) <==> |inputs| >= Distance(s, chg, dis)
    decreases |inputs|
  {
    if inputs != [] {
      Stabilises(Next(s, inputs[0]), inputs[1..], chg, dis);
    }
  }

  /** In other words: from the second step on, the state is the one the allowed pair asks for. */
  lemma SettledAfterTwo(s: State, inputs: seq<Inputs>, chg: bool, dis: bool)
    requires s != Shutdown && Steady(inputs, chg, dis) && |inputs| >= 2
    ensures StateAfter(s, inputs).Off? <==> !chg && !dis
    ensures StateAfter(s, inputs).Chg? <==> chg && !dis
    ensures StateAfter(s, inputs).Dis? <==> !chg && dis
    ensures StateAfter(s, inputs).Normal? <==> chg && dis
  {
    Stabilises(s, inputs, chg, dis);
  }

  // ---------- ideal diode ----------

  function DiodeEvents(ticks: seq<Event>, charging: bool): (e: seq<Latch.Event>)
    requires forall k :: 0 <= k < |ticks| ==> ticks[k].Tick?
    ensures |e| == |ticks|
  {
    seq(|ticks|, k requires 0 <= k < |ticks| =>
      var c := ticks[k].i.current;
      if charging then Latch.Event(c > 0.5, c < 0.1) else Latch.Event(c < -0.5, c > -0.1))
  }

  /** While only charging stays allowed, the DIS FET is a latch over the current: set above
      0.5 A, cleared below 0.1 A. */
  lemma {:induction false} DiodeWhileCharging(s: System, ticks: seq<Event>)
    requires s.state == Chg
    requires forall e :: e in ticks ==> AllOk(e) && e.Tick? && e.i.chg && !e.i.dis
    ensures Run(s, ticks).state == Chg
    ensures DisOn(Run(s, ticks).reg) == Latch.After(DisOn(s.reg), DiodeEvents(ticks, true))
    decreases |ticks|
  {
    if ticks != [] {
      var n := |ticks| - 1;
      RunSplit(s, ticks);
      DiodeWhileCharging(s, ticks[..n]);
      StepFets(Run(s, ticks[..n]), ticks[n]);
      assert DiodeEvents(ticks, true)[..n] == DiodeEvents(ticks[..n], true);
    }
  }

  lemma {:induction false} DiodeWhileDischarging(s: System, ticks: seq<Event>)
    requires s.state == Dis
    requires forall e :: e in ticks ==> AllOk(e) && e.Tick? && !e.i.chg && e.i.dis
    ensures Run(s, ticks).state == Dis
    ensures ChgOn(Run(s, ticks).reg) == Latch.After(ChgOn(s.reg), DiodeEvents(ticks, false))
    decreases |ticks|
  {
    if ticks != [] {
      var n := |ticks| - 1;
      RunSplit(s, ticks);
      DiodeWhileDischarging(s, ticks[..n]);
      StepFets(Run(s, ticks[..n]), ticks[n]);
      assert DiodeEvents(ticks, false)[..n] == DiodeEvents(ticks[..n], false);
    }
  }

  lemma {:induction false} RunSplit(s: System, events: seq<Event>)
    requires events != []
    ensures Run(s, events) == Step(Run(s, events[..|events| - 1]), events[|events| - 1])
    decreases |events|
  {
    if |events| > 1 {
      var rest := events[1..];
      RunSplit(Step(s, events[0]), rest);
      assert rest[..|rest| - 1] == events[..|events| - 1][1..];
      assert events[..|events| - 1][0] == events[0];
    } else {
      assert events[..0] == [];
    }
  }

  // ---------- lost transfers ----------

  /** A harmful loss is not made good: once the state is Off, the FETs stay as they are for as long
      as nothing is allowed again. */
  lemma {:induction false} LostSwitchOffStays(s: System, events: seq<Event>)
    requires s.state == Off && forall e :: e in events ==> e.Tick? && !e.i.chg && !e.i.dis
    ensures Run(s, events) == s
    decreases |events|
  {
    if events != [] {
      assert events[0] in events;
      LostSwitchOffStays(s, events[1..]);
    }
  }

  // ---------- the objects ----------

  class SwitchDriver {
    var sysCtrl2: bv8

    constructor (sysCtrl2: bv8)
      ensures this.sysCtrl2 == sysCtrl2
    {
      this.sysCtrl2 := sysCtrl2;
    }

    /** Read, modify and write SYS_CTRL2. */
    method SetSwitches(switches: bv8, enabled: bool, readOk: bool, writeOk: bool) returns (success: bool)
      modifies this
      ensures success <==> switches & 0xFC == 0 && readOk && writeOk
      ensures sysCtrl2 == if success then Switched(old(sysCtrl2), Command(switches, enabled)) else old(sysCtrl2)
    {
      if switches & (SWITCH_CHG | SWITCH_DIS) != switches || !readOk {
        return false;
      }
      var byte := sysCtrl2;
      if switches & SWITCH_CHG != 0 {
        byte := if enabled then byte | 1 else byte & 0xFE;
      }
      if switches & SWITCH_DIS != 0 {
        byte := if enabled then byte | 2 else byte & 0xFD;
      }
      if !writeOk {
        return false;
      }
      sysCtrl2 := byte;
      return true;
    }
  }

  class Bms {
    const ic: SwitchDriver
    var state: State
    var chgEnable: bool
    var disEnable: bool
    var full: bool
    var empty: bool
    var current: real
    var errorFlags: bv32

    ghost function View(): System
      reads this, ic
    {
      System(state, ic.sysCtrl2)
    }

    constructor (ic: SwitchDriver)
      ensures this.ic == ic && state == Off && chgEnable && disEnable && !full && !empty && errorFlags == 0
    {
      this.ic := ic;
      state, chgEnable, disEnable, full, empty, current, errorFlags := Off, true, true, false, false, 0.0, 0;
    }

    /** One call of the main loop. ok tells which of the issued commands reach the chip. */
    method StateMachine(ok: Bus)
      modifies `state, ic
      ensures var chg := ChgAllowed(errorFlags, full, chgEnable);
              var dis := DisAllowed(errorFlags, empty, disEnable);
              View() == Step(old(View()), Tick(Inputs(chg, dis, current), ok))
    {
      Advance(ChgAllowed(errorFlags, full, chgEnable), DisAllowed(errorFlags, empty, disEnable), ok);
    }

    method Advance(chg: bool, dis: bool, ok: Bus)
      modifies `state, ic
      ensures View() == Step(old(View()), Tick(Inputs(chg, dis, current), ok))
    {
      hide Switched;
      match state {
        case Off =>
          if dis {
            var _ := ic.SetSwitches(SWITCH_DIS, true, true, ok.first);
            state := Dis;
          } else if chg {
            var _ := ic.SetSwitches(SWITCH_CHG, true, true, ok.first);
            state := Chg;
          }
        case Chg =>
          if !chg {
            var _ := ic.SetSwitches(SWITCH_CHG, false, true, ok.first);
            var _ := ic.SetSwitches(SWITCH_DIS, false, true, ok.second);
            state := Off;
          } else if dis {
            var _ := ic.SetSwitches(SWITCH_DIS, true, true, ok.first);
            state := Normal;
          } else if current > 0.5 {
            var _ := ic.SetSwitches(SWITCH_DIS, true, true, ok.first);
          } else if current < 0.1 {
            var _ := ic.SetSwitches(SWITCH_DIS, false, true, ok.first);
          }
        case Dis =>
          if !dis {
            var _ := ic.SetSwitches(SWITCH_DIS, false, true, ok.first);
            var _ := ic.SetSwitches(SWITCH_CHG, false, true, ok.second);
            state := Off;
          } else if chg {
            var _ := ic.SetSwitches(SWITCH_CHG, true, true, ok.first);
            state := Normal;
          } else if current < -0.5 {
            var _ := ic.SetSwitches(SWITCH_CHG, true, true, ok.first);
          } else if current > -0.1 {
            var _ := ic.SetSwitches(SWITCH_CHG, false, true, ok.first);
          }
        case Normal =>
          if !dis {
            var _ := ic.SetSwitches(SWITCH_DIS, false, true, ok.first);
            state := Chg;
          } else if !chg {
            var _ := ic.SetSwitches(SWITCH_CHG, false, true, ok.first);
            state := Dis;
          }
        case Shutdown =>
      }
    }

    method PowerOff(ok: Bus)
      modifies `state, ic
      ensures View() == Step(old(View()), PowerDown(ok))
    {
      var _ := ic.SetSwitches(SWITCH_DIS, false, true, ok.first);
      var _ := ic.SetSwitches(SWITCH_CHG, false, true, ok.second);
      state := Shutdown;
    }
  }
}

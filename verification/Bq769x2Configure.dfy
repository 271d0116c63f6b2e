/** Applying protection settings to a bq769x2: the driver methods on top of the data memory
    protocol, from entering config update mode to leaving it. */
module Bq769x2Configure {
  import opened Bits
  import opened Thresholds
  import opened Bytes
  import opened Framing
  import opened Bq769x2Emulator
  import opened Bq769x2Interface
  import opened Bq769x2Config

  datatype Settings = Settings(ov: VoltageLimit, uv: VoltageLimit, chgOc: OcLimit, disOc: OcLimit, disSc: ScLimit)

  datatype AllCodes = AllCodes(ov: VoltageCodes, uv: VoltageCodes, chgOc: OcCodes, disOc: OcCodes, disSc: ScCodes)

  const OCC_HIGHEST: int := 62
  const OCD_HIGHEST: int := 100

  function CodesOf(s: Settings, b: Board): (c: AllCodes)
    ensures FitRegs(c.ov) && FitRegs(c.uv)
    ensures FitPair(c.chgOc) && FitPair(c.disOc)
    ensures c.disSc.threshold < 256 && c.disSc.delay < 256
  {
    AllCodes(OvCodes(s.ov), UvCodes(s.uv), OverCurrentCodes(s.chgOc, b, OCC_HIGHEST),
             OverCurrentCodes(s.disOc, b, OCD_HIGHEST), ShortCircuitCodes(s.disSc, b))
  }

  function AppliedBy(s: Settings, b: Board): Settings
    requires b.shunt > 0
  {
    var c := CodesOf(s, b);
    Settings(OvApplied(c.ov), UvApplied(c.uv), OverCurrentApplied(c.chgOc, b), OverCurrentApplied(c.disOc, b),
             ShortCircuitApplied(c.disSc, b))
  }

  predicate Settling(s: Settings, b: Board) {
    SettlingLimit(s.chgOc.limit, b, OCC_HIGHEST) && SettlingLimit(s.disOc.limit, b, OCD_HIGHEST)
  }

  /** Applying the settings written back selects the same register contents exactly when both
      over-current limits settle; then the same settings are written back again. */
  lemma WriteBackIsFixpoint(s: Settings, b: Board)
    requires b.shunt > 0
    ensures CodesOf(AppliedBy(s, b), b) == CodesOf(s, b) <==> Settling(s, b)
    ensures Settling(s, b) ==> AppliedBy(AppliedBy(s, b), b) == AppliedBy(s, b)
  {
    OverVoltageSettles(s.ov);
    UnderVoltageSettles(s.uv);
    OverCurrentSettlesExactly(s.chgOc, b, OCC_HIGHEST);
    OverCurrentSettlesExactly(s.disOc, b, OCD_HIGHEST);
    ShortCircuitSettles(s.disSc, b);
  }

  // ---------- registers ----------

  const PROT_ENABLED_A: Word16 := 0x9261
  const CUV_BIT: nat := 0x04
  const OCC_BIT: nat := 0x10
  const OCD1_BIT: nat := 0x20

  /** Where a voltage protection keeps its settings. */
  datatype VoltageRegs = VoltageRegs(threshold: Word16, hyst: Word16, delay: Word16)

  const OV_REGS := VoltageRegs(0x9278, 0x927C, 0x9279)
  const UV_REGS := VoltageRegs(0x9275, 0x927B, 0x9276)

  predicate InDataMem(regs: VoltageRegs) {
    0x9180 <= regs.threshold < 0x9300 && 0x9180 <= regs.hyst < 0x9300 && 0x9180 <= regs.delay < 0x9300
  }

  function RegBytes(regs: VoltageRegs): set<int> {
    {regs.threshold, regs.hyst, regs.delay, regs.delay + 1}
  }

  predicate FitRegs(c: VoltageCodes) {
    0 <= c.threshold < 256 && 0 <= c.hyst < 256 && 0 <= c.delay < 65536
  }

  predicate FitPair(c: OcCodes) {
    0 <= c.threshold < 256 && 0 <= c.delay < 256
  }

  function VoltageMem(mem: seq<Byte>, regs: VoltageRegs, c: VoltageCodes): (r: seq<Byte>)
    requires |mem| == DATA_MEM_SIZE && InDataMem(regs) && FitRegs(c)
    ensures |r| == DATA_MEM_SIZE
  {
    Next(Next(Next(mem, Write(U1, regs.threshold, c.threshold)), Write(U1, regs.hyst, c.hyst)),
         Write(U2, regs.delay, c.delay))
  }

  /** Two one-byte registers in a row. */
  function PairMem(mem: seq<Byte>, addr: Word16, first: int, second: int): (r: seq<Byte>)
    requires |mem| == DATA_MEM_SIZE && 0x9180 <= addr < 0x9300 && 0 <= first < 256 && 0 <= second < 256
    ensures |r| == DATA_MEM_SIZE
  {
    Next(Next(mem, Write(U1, addr, first)), Write(U1, addr + 1, second))
  }

  function Protected(byte: Byte, bit: nat): Byte
    requires bit < 256
  {
    OrFits(byte, bit);
    Or(byte, bit)
  }

  lemma OrFits(x: nat, y: nat)
    requires x < 256 && y < 256
    ensures Or(x, y) < 256
  {
    assert Pow2(4) == 16;
    assert Pow2(8) == 256;
    if Or(x, y) >= 256 {
      var i := HighBitSet(Or(x, y), 8);
      OrBits(x, y, i);
      HighBitClear(x, 8, i);
      HighBitClear(y, 8, i);
    }
  }

  /** The bit is set and the others keep their values. */
  lemma ProtectedBits(byte: Byte, k: nat, i: nat)
    requires k < 8
    ensures Pow2(k) < 256 && (Bit(Protected(byte, Pow2(k)), i) <==> i == k || Bit(byte, i))
  {
    assert Pow2(3) == 8;
    assert Pow2(7) == 128;
    OrBits(byte, Pow2(k), i);
    PowerBits(k, i);
  }

  lemma {:induction false} PowerBits(k: nat, i: nat)
    ensures Bit(Pow2(k), i) <==> i == k
    decreases k
  {
    if k == 0 { OneBits(i); } else if i > 0 { PowerBits(k - 1, i - 1); }
  }

  /** The protection is switched on; the other enable bits keep their values. */
  function EnabledMem(mem: seq<Byte>, bit: nat): (r: seq<Byte>)
    requires |mem| == DATA_MEM_SIZE && bit < 256
    ensures |r| == DATA_MEM_SIZE
  {
    mem[PROT_ENABLED_A := Protected(mem[PROT_ENABLED_A], bit)]
  }

  function VoltagesMem(mem: seq<Byte>, ov: VoltageCodes, uv: VoltageCodes): (r: seq<Byte>)
    requires |mem| == DATA_MEM_SIZE && FitRegs(ov) && FitRegs(uv)
    ensures |r| == DATA_MEM_SIZE
  {
    EnabledMem(VoltageMem(VoltageMem(mem, OV_REGS, ov), UV_REGS, uv), CUV_BIT)
  }

  function CurrentsMem(mem: seq<Byte>, chg: OcCodes, dis: OcCodes, sc: ScCodes): (r: seq<Byte>)
    requires |mem| == DATA_MEM_SIZE && FitPair(chg) && FitPair(dis) && sc.threshold < 256 && sc.delay < 256
    ensures |r| == DATA_MEM_SIZE
  {
    var i := EnabledMem(PairMem(mem, 0x9280, chg.threshold, chg.delay), OCC_BIT);
    PairMem(EnabledMem(PairMem(i, 0x9282, dis.threshold, dis.delay), OCD1_BIT), 0x9286, sc.threshold, sc.delay)
  }

  /** Which settings a caller wants applied. */
  datatype Groups = Groups(voltages: bool, currents: bool)

  /** Data memory after the selected settings. */
  function ConfiguredMem(mem: seq<Byte>, s: Settings, b: Board, g: Groups): (r: seq<Byte>)
    requires |mem| == DATA_MEM_SIZE
    ensures |r| == DATA_MEM_SIZE
  {
    var c := CodesOf(s, b);
    var v := if g.voltages then VoltagesMem(mem, c.ov, c.uv) else mem;
    if g.currents then CurrentsMem(v, c.chgOc, c.disOc, c.disSc) else v
  }

  /** The settings that apply afterwards. */
  function AppliedTo(s: Settings, b: Board, g: Groups): Settings
    requires b.shunt > 0
  {
    var a := AppliedBy(s, b);
    Settings(if g.voltages then a.ov else s.ov, if g.voltages then a.uv else s.uv,
             if g.currents then a.chgOc else s.chgOc, if g.currents then a.disOc else s.disOc,
             if g.currents then a.disSc else s.disSc)
  }

  /** Every setting is replaced by what its own registers stand for, or kept. */
  lemma AppliedExactly(s: Settings, b: Board, g: Groups)
    requires b.shunt > 0
    ensures var a := AppliedTo(s, b, g);
            && (g.voltages ==> a.ov == OvApplied(OvCodes(s.ov)) && a.uv == UvApplied(UvCodes(s.uv)))
            && (g.currents ==>
                  && a.chgOc == OverCurrentApplied(OverCurrentCodes(s.chgOc, b, 62), b)
                  && a.disOc == OverCurrentApplied(OverCurrentCodes(s.disOc, b, 100), b)
                  && a.disSc == ShortCircuitApplied(ShortCircuitCodes(s.disSc, b), b))
            && (!g.voltages ==> a.ov == s.ov && a.uv == s.uv)
            && (!g.currents ==> a.chgOc == s.chgOc && a.disOc == s.disOc && a.disSc == s.disSc)
  {
    hide OvCodes, UvCodes, OverCurrentCodes, ShortCircuitCodes, OvApplied, UvApplied, OverCurrentApplied,
         ShortCircuitApplied;
  }

  predicate IsSet(byte: Byte, bit: nat) { Or(byte, bit) == byte }

  lemma SetStays(byte: Byte, bit: nat, other: nat)
    requires bit < 256 && other < 256
    ensures IsSet(Protected(byte, bit), bit)
    ensures IsSet(byte, bit) ==> IsSet(Protected(byte, other), bit)
  {
    var p, q := Protected(byte, bit), Protected(byte, other);
    forall i: nat
      ensures Bit(Or(p, bit), i) == Bit(p, i)
      ensures IsSet(byte, bit) ==> Bit(Or(q, bit), i) == Bit(q, i)
    {
      OrBits(byte, bit, i);
      OrBits(byte, other, i);
      OrBits(p, bit, i);
      OrBits(q, bit, i);
    }
    SameBits(Or(p, bit), p);
    if IsSet(byte, bit) { SameBits(Or(q, bit), q); }
  }

  ghost predicate HoldVoltage(mem: seq<Byte>, regs: VoltageRegs, c: VoltageCodes)
    requires |mem| == DATA_MEM_SIZE && InDataMem(regs)
  {
    && mem[regs.threshold] as int == c.threshold && mem[regs.hyst] as int == c.hyst
    && mem[regs.delay] as int == c.delay % 256 && mem[regs.delay + 1] as int == c.delay / 256
  }

  lemma VoltageUpdates(mem: seq<Byte>, regs: VoltageRegs, c: VoltageCodes)
    requires |mem| == DATA_MEM_SIZE && InDataMem(regs) && FitRegs(c)
    ensures VoltageMem(mem, regs, c) == mem[regs.threshold := c.threshold][regs.hyst := c.hyst]
                                           [regs.delay := c.delay % 256][regs.delay + 1 := c.delay / 256]
  {
    OneWrite(mem, regs.threshold, c.threshold);
    OneWrite(mem[regs.threshold := c.threshold], regs.hyst, c.hyst);
    assert Encode(U2, c.delay) == [c.delay % 256, c.delay / 256];
  }

  lemma PairUpdates(mem: seq<Byte>, addr: Word16, first: int, second: int)
    requires |mem| == DATA_MEM_SIZE && 0x9180 <= addr < 0x9300 && 0 <= first < 256 && 0 <= second < 256
    ensures PairMem(mem, addr, first, second) == mem[addr := first][addr + 1 := second]
  {
    OneWrite(mem, addr, first);
    OneWrite(mem[addr := first], addr + 1, second);
  }

  /** Data memory in which the voltage settings are already as they would be written. */
  ghost predicate HoldVoltages(mem: seq<Byte>, ov: VoltageCodes, uv: VoltageCodes)
    requires |mem| == DATA_MEM_SIZE
  {
    HoldVoltage(mem, OV_REGS, ov) && HoldVoltage(mem, UV_REGS, uv) && IsSet(mem[PROT_ENABLED_A], CUV_BIT)
  }

  ghost predicate HoldCurrents(mem: seq<Byte>, chg: OcCodes, dis: OcCodes, sc: ScCodes)
    requires |mem| == DATA_MEM_SIZE
  {
    && mem[0x9280] as int == chg.threshold && mem[0x9281] as int == chg.delay
    && mem[0x9282] as int == dis.threshold && mem[0x9283] as int == dis.delay
    && mem[0x9286] as int == sc.threshold && mem[0x9287] as int == sc.delay
    && IsSet(mem[PROT_ENABLED_A], OCC_BIT) && IsSet(mem[PROT_ENABLED_A], OCD1_BIT)
  }

  /** Writing the voltage settings makes memory hold them, and changes nothing if it already does. */
  lemma VoltagesHeld(mem: seq<Byte>, ov: VoltageCodes, uv: VoltageCodes)
    requires |mem| == DATA_MEM_SIZE && FitRegs(ov) && FitRegs(uv)
    ensures HoldVoltages(VoltagesMem(mem, ov, uv), ov, uv)
    ensures HoldVoltages(mem, ov, uv) ==> VoltagesMem(mem, ov, uv) == mem
  {
    hide VoltageMem, Protected, IsSet;
    VoltageUpdates(mem, OV_REGS, ov);
    var m := VoltageMem(mem, OV_REGS, ov);
    VoltageUpdates(m, UV_REGS, uv);
    var n := VoltageMem(m, UV_REGS, uv);
    SetStays(n[PROT_ENABLED_A], CUV_BIT, CUV_BIT);
    if HoldVoltages(mem, ov, uv) {
      assert n == mem;
      SetIsFixed(mem[PROT_ENABLED_A], CUV_BIT);
    }
  }

  lemma SetIsFixed(byte: Byte, bit: nat)
    requires bit < 256 && IsSet(byte, bit)
    ensures Protected(byte, bit) == byte
  {
  }

  lemma CurrentUpdates(mem: seq<Byte>, chg: OcCodes, dis: OcCodes, sc: ScCodes)
    requires |mem| == DATA_MEM_SIZE && FitPair(chg) && FitPair(dis) && sc.threshold < 256 && sc.delay < 256
    ensures var p := Protected(Protected(mem[PROT_ENABLED_A], OCC_BIT), OCD1_BIT);
            CurrentsMem(mem, chg, dis, sc) ==
            mem[0x9280 := chg.threshold][0x9281 := chg.delay][0x9282 := dis.threshold][0x9283 := dis.delay]
               [0x9286 := sc.threshold][0x9287 := sc.delay][PROT_ENABLED_A := p]
  {
    hide PairMem, Protected;
    PairUpdates(mem, 0x9280, chg.threshold, chg.delay);
    var i := EnabledMem(PairMem(mem, 0x9280, chg.threshold, chg.delay), OCC_BIT);
    PairUpdates(i, 0x9282, dis.threshold, dis.delay);
    var j := EnabledMem(PairMem(i, 0x9282, dis.threshold, dis.delay), OCD1_BIT);
    PairUpdates(j, 0x9286, sc.threshold, sc.delay);
  }

  /** The same for the current settings, which leave held voltage settings alone. */
  lemma CurrentsHeld(mem: seq<Byte>, chg: OcCodes, dis: OcCodes, sc: ScCodes)
    requires |mem| == DATA_MEM_SIZE && FitPair(chg) && FitPair(dis) && sc.threshold < 256 && sc.delay < 256
    ensures HoldCurrents(CurrentsMem(mem, chg, dis, sc), chg, dis, sc)
    ensures HoldCurrents(mem, chg, dis, sc) ==> CurrentsMem(mem, chg, dis, sc) == mem
    ensures forall ov, uv :: HoldVoltages(mem, ov, uv) ==> HoldVoltages(CurrentsMem(mem, chg, dis, sc), ov, uv)
  {
    hide CurrentsMem, Protected, IsSet;
    CurrentUpdates(mem, chg, dis, sc);
    var x := mem[PROT_ENABLED_A];
    var y := Protected(x, OCC_BIT);
    SetStays(x, OCC_BIT, OCC_BIT);
    SetStays(y, OCC_BIT, OCD1_BIT);
    SetStays(y, OCD1_BIT, OCD1_BIT);
    SetStays(x, CUV_BIT, OCC_BIT);
    SetStays(y, CUV_BIT, OCD1_BIT);
    if HoldCurrents(mem, chg, dis, sc) {
      SetIsFixed(x, OCC_BIT);
      SetIsFixed(x, OCD1_BIT);
    }
  }

  /** Configuring again with the settings written back leaves data memory as it is, enable bits
      included, exactly when the selected over-current limits settle. */
  lemma ReconfigureIsIdempotent(mem: seq<Byte>, s: Settings, b: Board, g: Groups)
    requires |mem| == DATA_MEM_SIZE && b.shunt > 0
    ensures var m := ConfiguredMem(mem, s, b, g);
            ConfiguredMem(m, AppliedTo(s, b, g), b, g) == m <==> (g.currents ==> Settling(s, b))
  {
    hide VoltagesMem, CurrentsMem, HoldVoltages, HoldCurrents, SettlingLimit;
    var c, d := CodesOf(s, b), CodesOf(AppliedTo(s, b, g), b);
    SelectedCodes(s, b, g);
    var v := if g.voltages then VoltagesMem(mem, c.ov, c.uv) else mem;
    var m := ConfiguredMem(mem, s, b, g);
    if g.voltages { VoltagesHeld(mem, c.ov, c.uv); }
    if g.currents { CurrentsHeld(v, c.chgOc, c.disOc, c.disSc); }
    if g.voltages { VoltagesHeld(m, c.ov, c.uv); }
    assert (if g.voltages then VoltagesMem(m, c.ov, c.uv) else m) == m;
    if g.currents {
      CurrentsHeld(m, d.chgOc, d.disOc, d.disSc);
      if CurrentsMem(m, d.chgOc, d.disOc, d.disSc) == m {
        HeldOnce(m, c, d);
      }
    }
  }

  /** Memory holds one choice of current settings. */
  lemma HeldOnce(mem: seq<Byte>, c: AllCodes, d: AllCodes)
    requires |mem| == DATA_MEM_SIZE
    requires HoldCurrents(mem, c.chgOc, c.disOc, c.disSc) && HoldCurrents(mem, d.chgOc, d.disOc, d.disSc)
    ensures c.chgOc == d.chgOc && c.disOc == d.disOc && c.disSc == d.disSc
  {
  }

  lemma SelectedCodes(s: Settings, b: Board, g: Groups)
    requires b.shunt > 0
    ensures var c, d := CodesOf(s, b), CodesOf(AppliedTo(s, b, g), b);
            && d.ov == c.ov && d.uv == c.uv
            && (g.currents ==> d.disSc == c.disSc
                               && (d.chgOc == c.chgOc && d.disOc == c.disOc <==> Settling(s, b)))
  {
    hide OvCodes, UvCodes, OverCurrentCodes, ShortCircuitCodes, OvApplied, UvApplied, OverCurrentApplied,
         ShortCircuitApplied, SettlingLimit;
    OverVoltageSettles(s.ov);
    UnderVoltageSettles(s.uv);
    OverCurrentSettlesExactly(s.chgOc, b, OCC_HIGHEST);
    OverCurrentSettlesExactly(s.disOc, b, OCD_HIGHEST);
    ShortCircuitSettles(s.disSc, b);
  }

  /** Data memory by address: what the selected groups put where, and that nothing else changes but
      bits 2, 4 and 5 of the enable register. */
  lemma ConfiguredBytes(mem: seq<Byte>, s: Settings, b: Board, g: Groups)
    requires |mem| == DATA_MEM_SIZE
    ensures var m := ConfiguredMem(mem, s, b, g);
            var ov, uv := OvCodes(s.ov), UvCodes(s.uv);
            && (g.voltages ==>
                  && m[0x9278] as int == ov.threshold && m[0x927C] as int == ov.hyst
                  && m[0x9279] as int + 256 * m[0x927A] as int == ov.delay
                  && m[0x9275] as int == uv.threshold && m[0x927B] as int == uv.hyst
                  && m[0x9276] as int + 256 * m[0x9277] as int == uv.delay)
            && (!g.voltages ==> forall i :: 0x9275 <= i < 0x927D ==> m[i] == mem[i])
    ensures var m := ConfiguredMem(mem, s, b, g);
            var chg, dis := OverCurrentCodes(s.chgOc, b, 62), OverCurrentCodes(s.disOc, b, 100);
            var sc := ShortCircuitCodes(s.disSc, b);
            && (g.currents ==>
                  && m[0x9280] as int == chg.threshold && m[0x9281] as int == chg.delay
                  && m[0x9282] as int == dis.threshold && m[0x9283] as int == dis.delay
                  && m[0x9286] as int == sc.threshold && m[0x9287] as int == sc.delay)
            && (!g.currents ==> forall i :: 0x9280 <= i < 0x9288 ==> m[i] == mem[i])
    ensures var m := ConfiguredMem(mem, s, b, g);
            && (forall i :: 0 <= i < |mem| && i != 0x9261 && !(0x9275 <= i < 0x927D) && !(0x9280 <= i < 0x9288)
                  ==> m[i] == mem[i])
            && m[0x9284] == mem[0x9284] && m[0x9285] == mem[0x9285]
    ensures forall i: nat ::
              Bit(ConfiguredMem(mem, s, b, g)[0x9261], i) <==>
              Bit(mem[0x9261], i) || (g.voltages && i == 2) || (g.currents && (i == 4 || i == 5))
  {
    hide VoltagesMem, CurrentsMem, Bit, Protected, OvCodes, UvCodes, OverCurrentCodes, ShortCircuitCodes;
    var c := CodesOf(s, b);
    var v := if g.voltages then VoltagesMem(mem, c.ov, c.uv) else mem;
    VoltageBytes(mem, c.ov, c.uv);
    CurrentUpdates(v, c.chgOc, c.disOc, c.disSc);
    forall i: nat
      ensures Bit(ConfiguredMem(mem, s, b, g)[0x9261], i) <==>
              Bit(mem[0x9261], i) || (g.voltages && i == 2) || (g.currents && (i == 4 || i == 5))
    {
      EnableBits(mem[0x9261], i);
      EnableBits(v[0x9261], i);
      EnableBits(Protected(v[0x9261], OCC_BIT), i);
    }
  }

  /** The three enable bits are the bits 2, 4 and 5. */
  lemma EnableBits(byte: Byte, i: nat)
    ensures Bit(Protected(byte, CUV_BIT), i) <==> i == 2 || Bit(byte, i)
    ensures Bit(Protected(byte, OCC_BIT), i) <==> i == 4 || Bit(byte, i)
    ensures Bit(Protected(byte, OCD1_BIT), i) <==> i == 5 || Bit(byte, i)
  {
    assert Pow2(2) == 4 && Pow2(4) == 16;
    assert Pow2(5) == 32;
    ProtectedBits(byte, 2, i);
    ProtectedBits(byte, 4, i);
    ProtectedBits(byte, 5, i);
    hide Bit, Protected;
  }

  lemma VoltageBytes(mem: seq<Byte>, ov: VoltageCodes, uv: VoltageCodes)
    requires |mem| == DATA_MEM_SIZE && FitRegs(ov) && FitRegs(uv)
    ensures var m := VoltagesMem(mem, ov, uv);
            && m[0x9278] as int == ov.threshold && m[0x927C] as int == ov.hyst
            && m[0x9279] as int + 256 * m[0x927A] as int == ov.delay
            && m[0x9275] as int == uv.threshold && m[0x927B] as int == uv.hyst
            && m[0x9276] as int + 256 * m[0x9277] as int == uv.delay
            && m[0x9261] == Protected(mem[0x9261], CUV_BIT)
            && forall i :: 0 <= i < |mem| && i != 0x9261 && !(0x9275 <= i < 0x927D) ==> m[i] == mem[i]
  {
    hide VoltageMem, Protected;
    VoltageUpdates(mem, OV_REGS, ov);
    VoltageUpdates(VoltageMem(mem, OV_REGS, ov), UV_REGS, uv);
  }

  class IcConf {
    var cellOv: VoltageLimit
    var cellUv: VoltageLimit
    var chgOc: OcLimit
    var disOc: OcLimit
    var disSc: ScLimit

    constructor (s: Settings)
      ensures View() == s
    {
      cellOv, cellUv, chgOc, disOc, disSc := s.ov, s.uv, s.chgOc, s.disOc, s.disSc;
    }

    ghost function View(): Settings
      reads this
    {
      Settings(cellOv, cellUv, chgOc, disOc, disSc)
    }
  }

  /** One or more failed accesses make the whole step fail. */
  function Worse(a: Error, b: Error): Error { if a == Ok then b else a }

  /** Nothing but these bytes of data memory differs. */
  ghost predicate OnlyChanges(before: seq<Byte>, after: seq<Byte>, regs: set<int>) {
    |before| == |after| && forall i :: 0 <= i < |before| && i !in regs ==> after[i] == before[i]
  }

  /** Some value with the bit set was written to the enable register. */
  ghost predicate Enables(before: seq<Byte>, after: seq<Byte>, bit: nat) {
    |before| == DATA_MEM_SIZE && bit < 256 &&
    exists v: Byte :: after == before[PROT_ENABLED_A := Protected(v, bit)]
  }

  /** A write changes the bytes it covers and no others. */
  lemma WriteKeeps(mem: seq<Byte>, t: Type, addr: Word16, value: int)
    requires |mem| == DATA_MEM_SIZE && Allowed(Write(t, addr, value))
    ensures var next := Next(mem, Write(t, addr, value));
            forall i :: 0 <= i < |mem| && !(addr <= i < addr + Size(t)) ==> next[i] == mem[i]
  {
  }

  lemma OneWrite(mem: seq<Byte>, addr: Word16, next: int)
    requires |mem| == DATA_MEM_SIZE && Allowed(Write(U1, addr, next))
    ensures Next(mem, Write(U1, addr, next)) == mem[addr := next]
  {
    assert Encode(U1, next) == [next];
  }

  /** Reads the enable register, sets one bit and writes it back, unless something failed before:
      then the register is only read. */
  method EnableProtection(d: Driver, bit: nat, soFar: Error) returns (err: Error)
    requires d.Valid() && d.configUpdateModeEnabled && bit < 256
    modifies d.link`faults, d.link`slips, d.link`log, d.link.chip.directMem, d.link.chip.dataMem
    ensures d.link.slips >= old(d.link.slips) && (err == Ok ==> soFar == Ok)
    ensures d.link.slips == old(d.link.slips) ==>
              if err == Ok then Enables(old(d.Mem()), d.Mem(), bit) else d.Mem() == old(d.Mem())
    ensures old(d.link.faults) == [] ==> d.link.faults == [] && d.link.slips == old(d.link.slips)
    ensures old(d.link.faults) == [] && soFar == Ok ==> err == Ok && d.Mem() == EnabledMem(old(d.Mem()), bit)
  {
    var read, value := d.ReadTyped(U1, PROT_ENABLED_A);
    err := Worse(soFar, read);
    if err != Ok {
      return;
    }
    ghost var mem := d.Mem();
    OrFits(value, bit);
    OneWrite(mem, PROT_ENABLED_A, Or(value, bit));
    if old(d.link.faults) == [] {
      OneByte(mem, PROT_ENABLED_A, value);
    }
    err := d.WriteTyped(U1, PROT_ENABLED_A, Or(value, bit));
    assert Or(value, bit) == Protected(value, bit);
  }

  lemma OneByte(mem: seq<Byte>, addr: Word16, value: int)
    requires |mem| == DATA_MEM_SIZE && Allowed(Read(U1, addr))
    requires value == Output(mem, Read(U1, addr))
    ensures value == mem[addr] as int
  {
    var b := mem[addr..addr + 1];
    assert b[1..] == [];
    assert FromBytes(b) == mem[addr] as int;
  }

  /** Writes threshold, hysteresis and delay; a failed write does not stop the others. */
  method WriteVoltage(d: Driver, regs: VoltageRegs, c: VoltageCodes) returns (err: Error)
    requires d.Valid() && d.configUpdateModeEnabled && InDataMem(regs) && FitRegs(c)
    modifies d.link`faults, d.link`slips, d.link.chip.directMem, d.link.chip.dataMem
    ensures d.link.slips >= old(d.link.slips)
    ensures d.link.slips == old(d.link.slips) ==>
              && OnlyChanges(old(d.Mem()), d.Mem(), RegBytes(regs))
              && (err == Ok ==> d.Mem() == VoltageMem(old(d.Mem()), regs, c))
    ensures old(d.link.faults) == [] ==> err == Ok && d.link.faults == [] && d.link.slips == old(d.link.slips)
  {
    hide Next;
    WriteKeeps(d.Mem(), U1, regs.threshold, c.threshold);
    var e0 := d.WriteTyped(U1, regs.threshold, c.threshold);
    WriteKeeps(d.Mem(), U1, regs.hyst, c.hyst);
    var e1 := d.WriteTyped(U1, regs.hyst, c.hyst);
    WriteKeeps(d.Mem(), U2, regs.delay, c.delay);
    var e2 := d.WriteTyped(U2, regs.delay, c.delay);
    err := Worse(e0, Worse(e1, e2));
  }

  /** Cell over-voltage. There is no enable bit to set: the chip has this protection on from the start. */
  method ConfigureCellOvp(d: Driver, conf: IcConf) returns (err: Error)
    requires d.Valid() && d.configUpdateModeEnabled
    modifies conf`cellOv, d.link`faults, d.link`slips, d.link.chip.directMem, d.link.chip.dataMem
    ensures conf.cellOv == OvApplied(OvCodes(old(conf.cellOv)))
    ensures d.link.slips >= old(d.link.slips)
    ensures d.link.slips == old(d.link.slips) ==>
              && OnlyChanges(old(d.Mem()), d.Mem(), RegBytes(OV_REGS))
              && (err == Ok ==> d.Mem() == VoltageMem(old(d.Mem()), OV_REGS, OvCodes(old(conf.cellOv))))
    ensures old(d.link.faults) == [] ==> err == Ok && d.link.faults == [] && d.link.slips == old(d.link.slips)
  {
    var l := conf.cellOv;
    var threshold := Clamp(U8(Round(l.limit * 1000.0 / 50.6)), 20, 110);
    var hyst := Clamp(U8(Round(Max0(l.limit - l.reset) * 1000.0 / 50.6)), 2, 20);
    var delay := Clamp(U16(Round(l.delayMs as real / 3.3)), 1, 2047);
    var c := VoltageCodes(threshold, hyst, delay);
    assert c == OvCodes(l);
    hide VoltageMem;
    err := WriteVoltage(d, OV_REGS, c);
    conf.cellOv := VoltageLimit(Volts(threshold), Volts(threshold - hyst), DelayMs(delay));
  }

  method ConfigureCellUvp(d: Driver, conf: IcConf) returns (err: Error)
    requires d.Valid() && d.configUpdateModeEnabled
    modifies conf`cellUv, d.link`faults, d.link`slips, d.link`log, d.link.chip.directMem, d.link.chip.dataMem
    ensures conf.cellUv == UvApplied(UvCodes(old(conf.cellUv)))
    ensures d.link.slips >= old(d.link.slips)
    ensures d.link.slips == old(d.link.slips) ==>
              && OnlyChanges(old(d.Mem()), d.Mem(), RegBytes(UV_REGS) + {PROT_ENABLED_A})
              && (err == Ok ==>
                    Enables(VoltageMem(old(d.Mem()), UV_REGS, UvCodes(old(conf.cellUv))), d.Mem(), CUV_BIT))
    ensures old(d.link.faults) == [] ==>
              && err == Ok && d.link.faults == [] && d.link.slips == old(d.link.slips)
              && d.Mem() == EnabledMem(VoltageMem(old(d.Mem()), UV_REGS, UvCodes(old(conf.cellUv))), CUV_BIT)
  {
    var l := conf.cellUv;
    var threshold := Clamp(U8(Round(l.limit * 1000.0 / 50.6)), 20, 90);
    var hyst := Clamp(U8(Round(Max0(l.reset - l.limit) * 1000.0 / 50.6)), 2, 20);
    var delay := Clamp(U16(Round(l.delayMs as real / 3.3)), 1, 2047);
    var c := VoltageCodes(threshold, hyst, delay);
    assert c == UvCodes(l);
    hide VoltageMem, EnabledMem;
    var written := WriteVoltage(d, UV_REGS, c);
    conf.cellUv := VoltageLimit(Volts(threshold), Volts(threshold + hyst), DelayMs(delay));
    err := EnableProtection(d, CUV_BIT, written);
  }

  /** Overcurrent in either direction: limit and delay registers, then the enable bit. */
  method ConfigureOcp(d: Driver, b: Board, l: OcLimit, highest: int, addr: Word16, bit: nat)
    returns (err: Error, applied: OcLimit)
    requires d.Valid() && d.configUpdateModeEnabled && b.shunt > 0 && 2 <= highest < 128 && bit < 256
    requires 0x9180 <= addr < 0x9300
    modifies d.link`faults, d.link`slips, d.link`log, d.link.chip.directMem, d.link.chip.dataMem
    ensures applied == OverCurrentApplied(OverCurrentCodes(l, b, highest), b)
    ensures d.link.slips >= old(d.link.slips)
    ensures var c := OverCurrentCodes(l, b, highest);
            d.link.slips == old(d.link.slips) ==>
              && OnlyChanges(old(d.Mem()), d.Mem(), {addr as int, addr + 1, PROT_ENABLED_A})
              && (err == Ok ==> Enables(PairMem(old(d.Mem()), addr, c.threshold, c.delay), d.Mem(), bit))
    ensures var c := OverCurrentCodes(l, b, highest);
            old(d.link.faults) == [] ==>
              && err == Ok && d.link.faults == [] && d.link.slips == old(d.link.slips)
              && d.Mem() == EnabledMem(PairMem(old(d.Mem()), addr, c.threshold, c.delay), bit)
  {
    hide OcCode, OcDelaySteps, OcDelayMs, EnabledMem, PairMem;
    var ocLimit := Least(l.limit, b.maxCurrent as real);
    var threshold := OcCode(ocLimit, b, highest);
    var delay := OcDelaySteps(l.delayMs);
    assert OverCurrentCodes(l, b, highest) == OcCodes(threshold, delay);
    OcDelaySettles(delay);
    err := WriteOcp(d, addr, threshold, delay, bit);
    applied := OcLimit(threshold as real * 2000.0 / b.shunt as real, OcDelayMs(delay));
  }

  method WriteOcp(d: Driver, addr: Word16, threshold: int, delay: int, bit: nat) returns (err: Error)
    requires d.Valid() && d.configUpdateModeEnabled && bit < 256
    requires 0x9180 <= addr < 0x9300 && 0 <= threshold < 256 && 0 <= delay < 256
    modifies d.link`faults, d.link`slips, d.link`log, d.link.chip.directMem, d.link.chip.dataMem
    ensures d.link.slips >= old(d.link.slips)
    ensures d.link.slips == old(d.link.slips) ==>
              && OnlyChanges(old(d.Mem()), d.Mem(), {addr as int, addr + 1, PROT_ENABLED_A})
              && (err == Ok ==> Enables(PairMem(old(d.Mem()), addr, threshold, delay), d.Mem(), bit))
    ensures old(d.link.faults) == [] ==>
              && err == Ok && d.link.faults == [] && d.link.slips == old(d.link.slips)
              && d.Mem() == EnabledMem(PairMem(old(d.Mem()), addr, threshold, delay), bit)
  {
    hide Next, EnabledMem;
    WriteKeeps(d.Mem(), U1, addr, threshold);
    var e0 := d.WriteTyped(U1, addr, threshold);
    WriteKeeps(d.Mem(), U1, addr + 1, delay);
    var e1 := d.WriteTyped(U1, addr + 1, delay);
    err := EnableProtection(d, bit, Worse(e0, e1));
  }

  method ConfigureDisScp(d: Driver, b: Board, conf: IcConf) returns (err: Error)
    requires d.Valid() && d.configUpdateModeEnabled && b.shunt > 0 && ScFits(conf.disSc, b)
    modifies conf`disSc, d.link`faults, d.link`slips, d.link.chip.directMem, d.link.chip.dataMem
    ensures conf.disSc == ShortCircuitApplied(ShortCircuitCodes(old(conf.disSc), b), b)
    ensures d.link.slips >= old(d.link.slips)
    ensures var c := ShortCircuitCodes(old(conf.disSc), b);
            d.link.slips == old(d.link.slips) ==>
              && OnlyChanges(old(d.Mem()), d.Mem(), {0x9286, 0x9287})
              && (err == Ok ==> d.Mem() == PairMem(old(d.Mem()), 0x9286, c.threshold, c.delay))
    ensures old(d.link.faults) == [] ==> err == Ok && d.link.faults == [] && d.link.slips == old(d.link.slips)
  {
    var shuntVoltage := ShuntMv(conf.disSc.limit, b).Floor;
    var threshold := SearchDown(SCD_THRESHOLDS, shuntVoltage);
    var delay := ScDelaySteps(conf.disSc.delayUs);
    hide Next;
    WriteKeeps(d.Mem(), U1, 0x9286, threshold);
    var e0 := d.WriteTyped(U1, 0x9286, threshold);
    WriteKeeps(d.Mem(), U1, 0x9287, delay);
    var e1 := d.WriteTyped(U1, 0x9287, delay);
    conf.disSc := ScLimit(ShuntAmps(SCD_THRESHOLDS[threshold], b), (delay - 1) * 15);
    err := Worse(e0, e1);
  }

  /** The bytes each group of settings may touch. */
  const VOLTAGE_BYTES: set<int> := RegBytes(OV_REGS) + RegBytes(UV_REGS) + {PROT_ENABLED_A}
  const CURRENT_BYTES: set<int> := {0x9280, 0x9281, 0x9282, 0x9283, 0x9286, 0x9287, PROT_ENABLED_A}

  /** Memories that differ only in some bytes differ only in them after the same write. */
  lemma NextRespects(a: seq<Byte>, b: seq<Byte>, t: Type, addr: Word16, value: int, regs: set<int>)
    requires |a| == DATA_MEM_SIZE && Allowed(Write(t, addr, value)) && OnlyChanges(a, b, regs)
    ensures OnlyChanges(Next(a, Write(t, addr, value)), Next(b, Write(t, addr, value)), regs)
  {
  }

  lemma PairRespects(a: seq<Byte>, b: seq<Byte>, addr: Word16, first: int, second: int, regs: set<int>)
    requires |a| == DATA_MEM_SIZE && OnlyChanges(a, b, regs)
    requires 0x9180 <= addr < 0x9300 && 0 <= first < 256 && 0 <= second < 256
    ensures OnlyChanges(PairMem(a, addr, first, second), PairMem(b, addr, first, second), regs)
  {
    hide Next;
    NextRespects(a, b, U1, addr, first, regs);
    NextRespects(Next(a, Write(U1, addr, first)), Next(b, Write(U1, addr, first)), U1, addr + 1, second, regs);
  }

  /** The enable register is the only place where a step over a faulty bus can differ from one
      without faults. */
  lemma EnabledAlike(a: seq<Byte>, b: seq<Byte>, after: seq<Byte>, bit: nat)
    requires |a| == DATA_MEM_SIZE && OnlyChanges(a, b, {PROT_ENABLED_A as int}) && Enables(b, after, bit)
    ensures OnlyChanges(EnabledMem(a, bit), after, {PROT_ENABLED_A as int})
  {
  }

  lemma PairAlike(a: seq<Byte>, b: seq<Byte>, after: seq<Byte>, addr: Word16, first: int, second: int, bit: nat)
    requires |a| == DATA_MEM_SIZE && OnlyChanges(a, b, {PROT_ENABLED_A as int})
    requires 0x9180 <= addr < 0x9300 && 0 <= first < 256 && 0 <= second < 256
    requires Enables(PairMem(b, addr, first, second), after, bit)
    ensures OnlyChanges(EnabledMem(PairMem(a, addr, first, second), bit), after, {PROT_ENABLED_A as int})
  {
    PairRespects(a, b, addr, first, second, {PROT_ENABLED_A as int});
    EnabledAlike(PairMem(a, addr, first, second), PairMem(b, addr, first, second), after, bit);
  }

  /** The current limits written over a faulty bus, every step of it reporting success, against the
      same limits without faults. */
  lemma CurrentsAlike(a: seq<Byte>, m0: seq<Byte>, m1: seq<Byte>, m2: seq<Byte>, chg: OcCodes, dis: OcCodes,
                      sc: ScCodes)
    requires |a| == |m0| == |m1| == |m2| == DATA_MEM_SIZE && OnlyChanges(a, m0, {PROT_ENABLED_A as int})
    requires FitPair(chg) && FitPair(dis) && sc.threshold < 256 && sc.delay < 256
    requires Enables(PairMem(m0, 0x9280, chg.threshold, chg.delay), m1, OCC_BIT)
    requires Enables(PairMem(m1, 0x9282, dis.threshold, dis.delay), m2, OCD1_BIT)
    ensures OnlyChanges(CurrentsMem(a, chg, dis, sc), PairMem(m2, 0x9286, sc.threshold, sc.delay),
                        {PROT_ENABLED_A as int})
  {
    hide PairMem, EnabledMem, Enables;
    PairAlike(a, m0, m1, 0x9280, chg.threshold, chg.delay, OCC_BIT);
    var i := EnabledMem(PairMem(a, 0x9280, chg.threshold, chg.delay), OCC_BIT);
    PairAlike(i, m1, m2, 0x9282, dis.threshold, dis.delay, OCD1_BIT);
    var j := EnabledMem(PairMem(i, 0x9282, dis.threshold, dis.delay), OCD1_BIT);
    PairRespects(j, m2, 0x9286, sc.threshold, sc.delay, {PROT_ENABLED_A as int});
  }

  lemma FrameAlike(m0: seq<Byte>, m1: seq<Byte>, m2: seq<Byte>, r: set<int>, s: set<int>)
    requires OnlyChanges(m0, m1, r) && OnlyChanges(m1, m2, s)
    ensures OnlyChanges(m0, m2, r + s)
  {
  }

  lemma SameMemory(mem: seq<Byte>, r: set<int>)
    ensures OnlyChanges(mem, mem, r)
  {
  }

  /** The voltage limits of one configuration. */
  method ConfigureVoltages(d: Driver, conf: IcConf) returns (err: Error)
    requires d.Valid() && d.configUpdateModeEnabled
    modifies conf`cellOv, conf`cellUv
    modifies d.link`faults, d.link`slips, d.link`log, d.link.chip.directMem, d.link.chip.dataMem
    ensures conf.cellOv == OvApplied(OvCodes(old(conf.cellOv))) && conf.cellUv == UvApplied(UvCodes(old(conf.cellUv)))
    ensures d.link.slips >= old(d.link.slips)
    ensures var v := VoltagesMem(old(d.Mem()), OvCodes(old(conf.cellOv)), UvCodes(old(conf.cellUv)));
            && (d.link.slips == old(d.link.slips) ==>
                  && OnlyChanges(old(d.Mem()), d.Mem(), VOLTAGE_BYTES)
                  && (err == Ok ==> OnlyChanges(v, d.Mem(), {PROT_ENABLED_A as int})))
            && (old(d.link.faults) == [] ==>
                  err == Ok && d.link.faults == [] && d.link.slips == old(d.link.slips) && d.Mem() == v)
  {
    hide OnlyChanges, VoltageMem, EnabledMem, Enables, OvCodes, UvCodes, OvApplied, UvApplied;
    ghost var ov, uv, before, slips := OvCodes(conf.cellOv), UvCodes(conf.cellUv), d.Mem(), d.link.slips;
    var ovErr := ConfigureCellOvp(d, conf);
    ghost var mem := d.Mem();
    var uvErr := ConfigureCellUvp(d, conf);
    err := Worse(ovErr, uvErr);
    if d.link.slips == slips {
      FrameAlike(before, mem, d.Mem(), RegBytes(OV_REGS), RegBytes(UV_REGS) + {PROT_ENABLED_A});
      assert RegBytes(OV_REGS) + (RegBytes(UV_REGS) + {PROT_ENABLED_A as int}) == VOLTAGE_BYTES;
      if err == Ok {
        ghost var v := VoltageMem(VoltageMem(before, OV_REGS, ov), UV_REGS, uv);
        SameMemory(v, {PROT_ENABLED_A as int});
        EnabledAlike(v, v, d.Mem(), CUV_BIT);
      }
    }
  }

  /** The current limits. chgMem and disMem are data memory after the two over-current steps. */
  method ConfigureCurrents(d: Driver, b: Board, conf: IcConf)
    returns (err: Error, ghost chgMem: seq<Byte>, ghost disMem: seq<Byte>)
    requires d.Valid() && d.configUpdateModeEnabled && b.shunt > 0 && ScFits(conf.disSc, b)
    modifies conf`chgOc, conf`disOc, conf`disSc
    modifies d.link`faults, d.link`slips, d.link`log, d.link.chip.directMem, d.link.chip.dataMem
    ensures d.link.slips >= old(d.link.slips) && |chgMem| == |disMem| == DATA_MEM_SIZE
    ensures var chg := OverCurrentCodes(old(conf.chgOc), b, OCC_HIGHEST);
            var dis := OverCurrentCodes(old(conf.disOc), b, OCD_HIGHEST);
            var sc := ShortCircuitCodes(old(conf.disSc), b);
            && conf.chgOc == OverCurrentApplied(chg, b)
            && conf.disOc == OverCurrentApplied(dis, b)
            && conf.disSc == ShortCircuitApplied(sc, b)
            && (err == Ok && d.link.slips == old(d.link.slips) ==>
                  && Enables(PairMem(old(d.Mem()), 0x9280, chg.threshold, chg.delay), chgMem, OCC_BIT)
                  && Enables(PairMem(chgMem, 0x9282, dis.threshold, dis.delay), disMem, OCD1_BIT)
                  && d.Mem() == PairMem(disMem, 0x9286, sc.threshold, sc.delay))
            && (old(d.link.faults) == [] ==>
                  && err == Ok && d.link.faults == [] && d.link.slips == old(d.link.slips)
                  && d.Mem() == CurrentsMem(old(d.Mem()), chg, dis, sc))
    ensures d.link.slips == old(d.link.slips) ==> OnlyChanges(old(d.Mem()), d.Mem(), CURRENT_BYTES)
  {
    hide OnlyChanges, PairMem, EnabledMem, Enables, OverCurrentCodes, ShortCircuitCodes, OverCurrentApplied,
         ShortCircuitApplied;
    ghost var before, slips := d.Mem(), d.link.slips;
    var chgErr, chg := ConfigureOcp(d, b, conf.chgOc, OCC_HIGHEST, 0x9280, OCC_BIT);
    conf.chgOc := chg;
    chgMem := d.Mem();
    var disErr, dis := ConfigureOcp(d, b, conf.disOc, OCD_HIGHEST, 0x9282, OCD1_BIT);
    conf.disOc := dis;
    disMem := d.Mem();
    var scErr := ConfigureDisScp(d, b, conf);
    if d.link.slips == slips {
      ghost var first: set<int> := {0x9280, 0x9281, PROT_ENABLED_A};
      ghost var second: set<int> := {0x9282, 0x9283, PROT_ENABLED_A};
      FrameAlike(before, chgMem, disMem, first, second);
      FrameAlike(before, disMem, d.Mem(), first + second, {0x9286, 0x9287});
      assert first + second + {0x9286, 0x9287} == CURRENT_BYTES;
    }
    err := Worse(chgErr, Worse(disErr, scErr));
  }

  /** How a configuration ends. Halted is a failed assertion of the driver: it was not in config
      update mode at its first write. */
  datatype Outcome = Applied(groups: Groups) | Failed | NotSupported | Halted

  function TouchedBytes(g: Groups): set<int> {
    (if g.voltages then VOLTAGE_BYTES else {}) + (if g.currents then CURRENT_BYTES else {})
  }

  /** Applies the selected groups over any faulty bus. */
  method Configure(d: Driver, b: Board, conf: IcConf, g: Groups) returns (outcome: Outcome)
    requires d.Valid() && b.shunt > 0 && (g.currents ==> ScFits(conf.disSc, b))
    modifies conf, d`configUpdateModeEnabled
    modifies d.link`faults, d.link`slips, d.link`log, d.link.chip.directMem, d.link.chip.dataMem
    ensures outcome.Applied? ==> outcome.groups == g && (g.voltages || g.currents)
    ensures outcome.NotSupported? ==> !g.voltages && !g.currents
    ensures conf.View() == if outcome.Halted? then old(conf.View()) else AppliedTo(old(conf.View()), b, g)
    ensures d.link.slips >= old(d.link.slips)
    ensures d.link.slips == old(d.link.slips) ==>
              && OnlyChanges(old(d.Mem()), d.Mem(), TouchedBytes(g))
              && (outcome.Halted? ==> d.Mem() == old(d.Mem()))
              && (outcome.Applied? || outcome.NotSupported? ==>
                    OnlyChanges(ConfiguredMem(old(d.Mem()), old(conf.View()), b, g), d.Mem(), {PROT_ENABLED_A as int}))
    ensures outcome.Applied? || outcome.NotSupported? ==> !d.configUpdateModeEnabled
    ensures old(d.link.faults) == [] ==>
              && (outcome.Applied? || outcome.NotSupported?)
              && d.link.faults == [] && d.link.slips == old(d.link.slips) && !d.CfgUpdate()
              && d.Mem() == ConfiguredMem(old(d.Mem()), old(conf.View()), b, g)
  {
    hide OnlyChanges, VoltagesMem, CurrentsMem, VoltageMem, PairMem, Enables, OvCodes, UvCodes, OverCurrentCodes,
         ShortCircuitCodes, OvApplied, UvApplied, OverCurrentApplied, ShortCircuitApplied;
    ghost var before, c, slips := d.Mem(), CodesOf(conf.View(), b), d.link.slips;
    SameMemory(before, TouchedBytes(g));
    SameMemory(before, {});
    var err := d.ConfigUpdateMode(true);
    if !d.configUpdateModeEnabled && (g.voltages || g.currents) {
      return Halted;
    }
    if g.voltages {
      var voltageErr := ConfigureVoltages(d, conf);
      err := Worse(err, voltageErr);
    }
    ghost var mem := d.Mem();
    if g.currents {
      var currentErr, chgMem, disMem := ConfigureCurrents(d, b, conf);
      err := Worse(err, currentErr);
      if d.link.slips == slips {
        FrameAlike(before, mem, d.Mem(), if g.voltages then VOLTAGE_BYTES else {}, CURRENT_BYTES);
        if err == Ok {
          ghost var v := if g.voltages then VoltagesMem(before, c.ov, c.uv) else before;
          if !g.voltages { SameMemory(before, {PROT_ENABLED_A as int}); }
          CurrentsAlike(v, mem, chgMem, disMem, c.chgOc, c.disOc, c.disSc);
        }
      }
    }
    var offErr := d.ConfigUpdateMode(false);
    err := Worse(err, offErr);
    outcome := if err != Ok then Outcome.Failed else if g.voltages || g.currents then Applied(g) else NotSupported;
    SameMemory(d.Mem(), {PROT_ENABLED_A as int});
    assert VOLTAGE_BYTES + {} == VOLTAGE_BYTES && {} + CURRENT_BYTES == CURRENT_BYTES;
  }
}

/** The BMS error flags. */
module BmsErrors {

  const CELL_UNDERVOLTAGE: bv32 := 0x0001
  const CELL_OVERVOLTAGE: bv32 := 0x0002
  const SHORT_CIRCUIT: bv32 := 0x0004
  const DIS_OVERCURRENT: bv32 := 0x0008
  const CHG_OVERCURRENT: bv32 := 0x0010
  const OPEN_WIRE: bv32 := 0x0020
  const DIS_UNDERTEMP: bv32 := 0x0040
  const DIS_OVERTEMP: bv32 := 0x0080
  const CHG_UNDERTEMP: bv32 := 0x0100
  const CHG_OVERTEMP: bv32 := 0x0200
  const INT_OVERTEMP: bv32 := 0x0400
  const CELL_FAILURE: bv32 := 0x0800
  const DIS_OFF: bv32 := 0x1000
  const CHG_OFF: bv32 := 0x2000

  function FlagIf(cond: bool, flag: bv32): bv32 { if cond then flag else 0 }

  predicate Has(flags: bv32, flag: bv32) {
    flags & flag != 0
  }

  /** The flags are the bits 0 to 13, in this order. */
  lemma FlagBits(flags: bv32)
    ensures Has(flags, CELL_UNDERVOLTAGE) <==> (flags >> 0) & 1 == 1
    ensures Has(flags, CELL_OVERVOLTAGE) <==> (flags >> 1) & 1 == 1
    ensures Has(flags, SHORT_CIRCUIT) <==> (flags >> 2) & 1 == 1
    ensures Has(flags, DIS_OVERCURRENT) <==> (flags >> 3) & 1 == 1
    ensures Has(flags, CHG_OVERCURRENT) <==> (flags >> 4) & 1 == 1
    ensures Has(flags, OPEN_WIRE) <==> (flags >> 5) & 1 == 1
    ensures Has(flags, DIS_UNDERTEMP) <==> (flags >> 6) & 1 == 1
    ensures Has(flags, DIS_OVERTEMP) <==> (flags >> 7) & 1 == 1
    ensures Has(flags, CHG_UNDERTEMP) <==> (flags >> 8) & 1 == 1
    ensures Has(flags, CHG_OVERTEMP) <==> (flags >> 9) & 1 == 1
    ensures Has(flags, INT_OVERTEMP) <==> (flags >> 10) & 1 == 1
    ensures Has(flags, CELL_FAILURE) <==> (flags >> 11) & 1 == 1
    ensures Has(flags, DIS_OFF) <==> (flags >> 12) & 1 == 1
    ensures Has(flags, CHG_OFF) <==> (flags >> 13) & 1 == 1
  {
  }
}

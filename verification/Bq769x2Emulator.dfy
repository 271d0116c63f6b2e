/** The chip side of the bq769x2 protocol: a window of direct commands through which subcommands
    and data memory are reached. */
module Bq769x2Emulator {
  import opened Bytes

  const DIRECT_MEM_SIZE: nat := 0x80
  const DATA_MEM_SIZE: nat := 0x9400

  const CMD_BATTERY_STATUS: Byte := 0x12
  const CMD_SUBCMD_LOWER: Byte := 0x3E
  const CMD_SUBCMD_UPPER: Byte := 0x3F
  const SUBCMD_DATA_START: Byte := 0x40
  const SUBCMD_DATA_CHECKSUM: Byte := 0x60
  const SUBCMD_DATA_LENGTH: Byte := 0x61
  const SUBCMD_OVERHEAD_BYTES: nat := 4

  const SUBCMD_SET_CFGUPDATE: nat := 0x0090
  const SUBCMD_EXIT_CFGUPDATE: nat := 0x0092

  /** 8-bit sum. */
  function Sum(bytes: seq<Byte>): Byte {
    if bytes == [] then 0 else (Sum(bytes[..|bytes| - 1]) as int + bytes[|bytes| - 1]) % 256
  }

  /** Inverted 8-bit sum of the two address bytes and the data. */
  function Checksum(addr: nat, bytes: seq<Byte>): Byte {
    255 - (addr % 256 + addr / 256 + Sum(bytes)) % 256
  }

  datatype Memory = Memory(direct: seq<Byte>, data: seq<Byte>)

  predicate Sized(m: Memory) {
    |m.direct| == DIRECT_MEM_SIZE && |m.data| == DATA_MEM_SIZE
  }

  /** The 16-bit address in the subcommand registers. */
  function Selected(direct: seq<Byte>): nat
    requires |direct| == DIRECT_MEM_SIZE
  {
    direct[CMD_SUBCMD_LOWER] as int + 256 * direct[CMD_SUBCMD_UPPER] as int
  }

  /** Number of data bytes announced by the length register, in 8-bit arithmetic. */
  function Announced(direct: seq<Byte>): nat
    requires |direct| == DIRECT_MEM_SIZE
  {
    (direct[SUBCMD_DATA_LENGTH] - SUBCMD_OVERHEAD_BYTES) % 256
  }

  predicate Executes(reg: Byte) { reg == SUBCMD_DATA_CHECKSUM || reg == SUBCMD_DATA_LENGTH }

  predicate Selects(reg: Byte, n: nat) { reg == CMD_SUBCMD_LOWER && n == 2 }

  /** The copies a write triggers stay inside the two arrays. */
  predicate InBounds(m: Memory, reg: Byte, bytes: seq<Byte>)
    requires Sized(m)
  {
    reg < DIRECT_MEM_SIZE ==>
      && reg + |bytes| <= DIRECT_MEM_SIZE
      && var d := Splice(m.direct, reg, bytes);
         Selected(d) < DATA_MEM_SIZE ==>
           && (Executes(reg) ==> SUBCMD_DATA_START + Announced(d) <= DIRECT_MEM_SIZE
                                 && Selected(d) + Announced(d) <= DATA_MEM_SIZE)
           && (Selects(reg, |bytes|) ==> Selected(d) + 4 <= DATA_MEM_SIZE)
  }

  /** The battery status bytes after a subcommand. */
  function Processed(direct: seq<Byte>, subcmd: nat): (d: seq<Byte>)
    requires |direct| == DIRECT_MEM_SIZE
    ensures |d| == DIRECT_MEM_SIZE
  {
    if subcmd == SUBCMD_SET_CFGUPDATE then direct[CMD_BATTERY_STATUS := 0x01]
    else if subcmd == SUBCMD_EXIT_CFGUPDATE then direct[CMD_BATTERY_STATUS := 0x00]
    else direct
  }

  /** Data, checksum and length registers filled for reading at address a. */
  function Filled(direct: seq<Byte>, a: nat, bytes: seq<Byte>): (d: seq<Byte>)
    requires |direct| == DIRECT_MEM_SIZE && |bytes| == 4
    ensures |d| == DIRECT_MEM_SIZE
  {
    Splice(direct, SUBCMD_DATA_START, bytes)[SUBCMD_DATA_LENGTH := 8][SUBCMD_DATA_CHECKSUM := Checksum(a, bytes)]
  }

  /** What one write does to the memory. A copy past the end of an array has no defined effect; here
      such a write leaves the memory alone. */
  ghost function Wrote(m: Memory, reg: Byte, bytes: seq<Byte>): (r: Memory)
    requires Sized(m)
    ensures Sized(r)
  {
    if reg >= DIRECT_MEM_SIZE || !InBounds(m, reg, bytes) then m
    else
      var d := Splice(m.direct, reg, bytes);
      var a := Selected(d);
      if a < DATA_MEM_SIZE && Executes(reg) then
        Memory(d, Splice(m.data, a, d[SUBCMD_DATA_START..SUBCMD_DATA_START + Announced(d)]))
      else if a < DATA_MEM_SIZE && Selects(reg, |bytes|) then
        Memory(Filled(Processed(d, a), a, m.data[a..a + 4]), m.data)
      else Memory(d, m.data)
  }

  /** Plain sum. */
  function Total(bytes: seq<Byte>): nat {
    if bytes == [] then 0 else Total(bytes[..|bytes| - 1]) + bytes[|bytes| - 1]
  }

  /** Address bytes, data and checksum add up to 255 in the lowest eight bits. */
  lemma ChecksumCloses(addr: nat, bytes: seq<Byte>)
    ensures (addr % 256 + addr / 256 + Total(bytes) + Checksum(addr, bytes)) % 256 == 255
  {
    SumIsTotal(bytes);
    Complement(addr % 256 + addr / 256, Total(bytes));
    hide Sum, Total;
  }

  lemma Complement(n: nat, t: nat)
    ensures (n + t + 255 - (n + t % 256) % 256) % 256 == 255
  {
    var s, q := t % 256, t / 256;
    var r, p := (n + s) % 256, (n + s) / 256;
    assert n + t + 255 - r == 256 * (p + q) + 255;
  }

  lemma {:induction false} SumIsTotal(bytes: seq<Byte>)
    ensures Sum(bytes) == Total(bytes) % 256
    decreases |bytes|
  {
    if bytes != [] { SumIsTotal(bytes[..|bytes| - 1]); }
  }

  /** Writing an address, lower byte first, to 0x3E fetches the four bytes there to 0x40, with the
      length 8 at 0x61 and at 0x60 the checksum that closes the sum. */
  lemma SelectingFetches(m: Memory, a: nat)
    requires Sized(m) && a + 4 <= 0x9400
    ensures var w := Wrote(m, 0x3E, [a % 256, a / 256]); var d := m.data[a..a + 4];
            && w.data == m.data && w.direct[0x40..0x44] == d && w.direct[0x61] == 8
            && (a % 256 + a / 256 + d[0] + d[1] + d[2] + d[3] + w.direct[0x60]) % 256 == 255
  {
    hide Sum, Checksum;
    var bytes := m.data[a..a + 4];
    var d := Splice(m.direct, 0x3E, [a % 256, a / 256]);
    assert d[0x3E] == a % 256 && d[0x3F] == a / 256;
    assert Selected(d) == a;
    ChecksumCloses(a, bytes);
    TotalOfFour(bytes);
  }

  lemma TotalOfFour(b: seq<Byte>)
    requires |b| == 4
    ensures Total(b) == b[0] as int + b[1] as int + b[2] as int + b[3] as int
  {
    assert b[..3][..2] == b[..2] && b[..2][..1] == b[..1] && b[..1][..0] == [];
    assert Total([]) == 0;
    assert Total(b[..1]) == Total(b[..1][..0]) + b[0] as int;
    assert Total(b[..2]) == Total(b[..2][..1]) + b[1] as int;
    assert Total(b[..3]) == Total(b[..3][..2]) + b[2] as int;
  }

  /** The two subcommands that switch the mode show in bit 0 of register 0x12 and touch no data. */
  lemma ModeCommands(m: Memory)
    requires Sized(m)
    ensures Wrote(m, 0x3E, [0x90, 0x00]).direct[0x12] == 1 && Wrote(m, 0x3E, [0x90, 0x00]).data == m.data
    ensures Wrote(m, 0x3E, [0x92, 0x00]).direct[0x12] == 0 && Wrote(m, 0x3E, [0x92, 0x00]).data == m.data
  {
    hide Sum, Checksum;
    assert Selected(Splice(m.direct, 0x3E, [0x90, 0x00])) == 0x90;
    assert Selected(Splice(m.direct, 0x3E, [0x92, 0x00])) == 0x92;
  }

  class Emulator {
    const directMem: array<Byte>
    const dataMem: array<Byte>

    ghost predicate Valid() {
      directMem.Length == DIRECT_MEM_SIZE && dataMem.Length == DATA_MEM_SIZE && directMem != dataMem
    }

    function View(): (m: Memory)
      requires Valid()
      reads directMem, dataMem
      ensures Sized(m)
    {
      Memory(directMem[..], dataMem[..])
    }

    constructor ()
      ensures Valid() && fresh(directMem) && fresh(dataMem)
    {
      directMem := new Byte[0x80](_ => 0);
      dataMem := new Byte[0x9400](_ => 0);
    }

    method Copy(from: array<Byte>, at: nat, to: array<Byte>, dest: nat, n: nat)
      requires from != to && at + n <= from.Length && dest + n <= to.Length
      modifies to
      ensures to[..] == Splice(old(to[..]), dest, from[at..at + n])
    {
      ghost var before := to[..];
      for i := 0 to n
        invariant forall k :: 0 <= k < to.Length ==>
                    to[k] == if dest <= k < dest + i then from[at + k - dest] else before[k]
      {
        to[dest + i] := from[at + i];
      }
    }

    method Store(reg: Byte, bytes: seq<Byte>)
      requires Valid() && reg + |bytes| <= DIRECT_MEM_SIZE
      modifies directMem
      ensures directMem[..] == Splice(old(directMem[..]), reg, bytes)
    {
      ghost var before := directMem[..];
      for i := 0 to |bytes|
        invariant forall k :: 0 <= k < directMem.Length ==>
                    directMem[k] == if reg <= k < reg + i then bytes[k - reg] else before[k]
      {
        directMem[reg + i] := bytes[i];
      }
    }

    /** Moves the announced number of bytes from the window to the selected address. */
    method Execute(dataAddr: nat)
      requires Valid() && dataAddr == Selected(directMem[..])
      requires SUBCMD_DATA_START + Announced(directMem[..]) <= DIRECT_MEM_SIZE
      requires dataAddr + Announced(directMem[..]) <= DATA_MEM_SIZE
      modifies dataMem
      ensures dataMem[..] == Splice(old(dataMem[..]), dataAddr, directMem[0x40..0x40 + Announced(directMem[..])])
    {
      Copy(directMem, 0x40, dataMem, dataAddr, (directMem[0x61] - 4) % 256);
    }

    /** One write transfer. */
    method WriteBytes(reg: Byte, bytes: seq<Byte>)
      requires Valid()
      modifies directMem, dataMem
      ensures View() == Wrote(old(View()), reg, bytes)
    {
      if reg >= directMem.Length || !InBounds(View(), reg, bytes) {
        return;
      }
      ghost var before := View();
      Store(reg, bytes);
      hide Splice, Filled, Processed, Announced;
      assert directMem[..] == Splice(before.direct, reg, bytes) && dataMem[..] == before.data;
      var dataAddr := directMem[0x3E] as int + 256 * directMem[0x3F] as int;
      assert dataAddr == Selected(directMem[..]);
      if reg == SUBCMD_DATA_CHECKSUM || reg == SUBCMD_DATA_LENGTH {
        if dataAddr < dataMem.Length {
          Execute(dataAddr);
        }
      } else if reg == CMD_SUBCMD_LOWER && |bytes| == 2 {
        if dataAddr < dataMem.Length {
          Select(dataAddr);
        }
      }
    }

    /** Writing the subcommand registers runs a subcommand and fetches four data bytes. */
    method Select(dataAddr: nat)
      requires Valid() && dataAddr + 4 <= DATA_MEM_SIZE && dataAddr == Selected(directMem[..])
      modifies directMem
      ensures directMem[..] == Filled(Processed(old(directMem[..]), dataAddr), dataAddr,
                                      dataMem[dataAddr..dataAddr + 4])
    {
      if dataAddr == SUBCMD_SET_CFGUPDATE {
        directMem[0x12] := 0x01;
      } else if dataAddr == SUBCMD_EXIT_CFGUPDATE {
        directMem[0x12] := 0x00;
      }
      assert directMem[..] == Processed(old(directMem[..]), dataAddr);
      hide Processed, Sum;
      Copy(dataMem, dataAddr, directMem, 0x40, 4);
      ghost var d := directMem[..];
      assert d[0x40..0x44] == dataMem[dataAddr..dataAddr + 4];
      var sum := SumData();
      FillDone(dataAddr, sum);
      assert directMem[..] == d[0x61 := 8][0x60 := Checksum(dataAddr, d[0x40..0x44])];
    }

    method FillDone(dataAddr: nat, sum: Byte)
      requires Valid() && dataAddr == Selected(directMem[..])
      modifies directMem
      ensures directMem[..] == old(directMem[..])[0x61 := 8]
                                 [0x60 := 255 - (dataAddr % 256 + dataAddr / 256 + sum) % 256]
    {
      directMem[0x61] := 8;
      directMem[0x60] := 255 - (directMem[0x3E] as int + directMem[0x3F] as int + sum) % 256;
    }

    /** The sum over the data registers, always for the maximum data length of four bytes. */
    method SumData() returns (sum: Byte)
      requires Valid()
      ensures sum == Sum(directMem[0x40..0x44])
    {
      sum := 0;
      ghost var bytes := directMem[0x40..0x44];
      for i := 0 to 4
        invariant sum == Sum(bytes[..i])
      {
        sum := (sum as int + directMem[0x40 + i]) % 256;
        assert bytes[..i + 1][..i] == bytes[..i];
      }
      assert bytes[..4] == bytes;
    }
  }
}

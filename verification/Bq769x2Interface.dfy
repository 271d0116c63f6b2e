/** The driver side of the bq769x2 protocol: indirect reads and writes of data memory through the
    window of direct commands, over a bus on which any transfer, read or write, may fail or deliver other bytes. */
module Bq769x2Interface {
  import opened Bytes
  import opened Framing
  import opened Bq769x2Emulator

  /** What happens to one transfer: it works, it fails, or other bytes arrive than were sent. */
  datatype Fault = Pass | Lost | Garbled(wire: seq<Byte>)

  /** What the driver gets to see of one read transfer. */
  datatype Answer = NoAnswer | Answered(bytes: seq<Byte>)

  /** Foreign bytes cut or filled up to the length of the transfer. */
  function Fit(wire: seq<Byte>, n: nat): (w: seq<Byte>)
    ensures |w| == n
  {
    seq(n, i requires 0 <= i < n => if i < |wire| then wire[i] else 0)
  }

  /** A write that arrives as other bytes than were sent, and that the chip takes: without CRC
      whatever it is, with CRC only as a valid frame. */
  ghost predicate SlipsThrough(crcEnabled: bool, addr: Address, sent: seq<Byte>, f: Fault) {
    sent != [] && f.Garbled? &&
    var w := Fit(f.wire, |sent|);
    w != sent && (crcEnabled ==> ValidFrame(WriteHead(addr, w[0]), w[1..]))
  }

  /** With CRC, altering one byte of a write is not enough to slip through. */
  lemma OneAlteredByteDoesNotSlip(addr: Address, reg: Byte, bytes: seq<Byte>, f: Fault, k: nat)
    requires bytes != [] && f.Garbled? && k < 2 * |bytes| + 1
    requires var sent := [reg] + Frame(WriteHead(addr, reg), bytes); var w := Fit(f.wire, |sent|);
             forall j :: 0 <= j < |sent| && j != k ==> w[j] == sent[j]
    ensures !SlipsThrough(true, addr, [reg] + Frame(WriteHead(addr, reg), bytes), f)
  {
    var sent := [reg] + Frame(WriteHead(addr, reg), bytes);
    var w := Fit(f.wire, |sent|);
    FrameRoundTrip(WriteHead(addr, reg), bytes);
    assert sent[1..] == Frame(WriteHead(addr, reg), bytes);
    if w[k] != sent[k] {
      OneAlteredByteIsRefused(addr, sent, w, k);
    }
  }

  /** What goes over the bus for a write, after the target address. */
  function Sent(crcEnabled: bool, addr: Address, reg: Byte, bytes: seq<Byte>): seq<Byte> {
    [reg] + if crcEnabled then Frame(WriteHead(addr, reg), bytes) else bytes
  }

  /** The chip's side of a write transfer. */
  method Receive(crcEnabled: bool, addr: Address, wire: seq<Byte>) returns (valid: bool, payload: seq<Byte>)
    requires wire != [] && (crcEnabled ==> |wire| % 2 == 1)
    ensures valid <==> crcEnabled ==> ValidFrame(WriteHead(addr, wire[0]), wire[1..])
    ensures valid ==> payload == if crcEnabled then Payload(wire[1..]) else wire[1..]
  {
    hide ValidFrame;
    valid, payload := true, wire[1..];
    if crcEnabled {
      var frame := wire[1..];
      var data := new Byte[|frame| / 2];
      valid := CheckFrame(WriteHead(addr, wire[0]), frame, data);
      payload := data[..];
      assert data[..|frame| / 2] == data[..];
    }
  }

  lemma SentIsValid(crcEnabled: bool, addr: Address, reg: Byte, bytes: seq<Byte>)
    ensures var sent := Sent(crcEnabled, addr, reg, bytes);
            && sent != [] && sent[0] == reg && (crcEnabled ==> |sent| % 2 == 1)
            && (crcEnabled ==> ValidFrame(WriteHead(addr, reg), sent[1..]))
            && bytes == if crcEnabled then Payload(sent[1..]) else sent[1..]
  {
    FrameRoundTrip(WriteHead(addr, reg), bytes);
    assert Sent(true, addr, reg, bytes)[1..] == Frame(WriteHead(addr, reg), bytes);
  }

  class Link {
    const chip: Emulator
    const crcEnabled: bool
    const addr: Address
    /** the fate of the coming transfers; later ones work */
    var faults: seq<Fault>
    /** every answer so far */
    ghost var log: seq<Answer>
    /** how many writes the chip took in another form than they were sent */
    ghost var slips: nat

    ghost predicate Valid() { chip.Valid() }

    ghost predicate Separate(a: array<Byte>) { a != chip.directMem && a != chip.dataMem }

    constructor (chip: Emulator, crcEnabled: bool, addr: Address, faults: seq<Fault>)
      ensures this.chip == chip && this.crcEnabled == crcEnabled && this.addr == addr
      ensures this.faults == faults && log == [] && slips == 0
    {
      this.chip, this.crcEnabled, this.addr, this.faults, log, slips := chip, crcEnabled, addr, faults, [], 0;
    }

    method NextFault() returns (f: Fault)
      modifies `faults
      ensures old(faults) == [] ==> f == Pass && faults == []
      ensures old(faults) != [] ==> f == old(faults)[0] && faults == old(faults)[1..]
    {
      f := Pass;
      if faults != [] {
        f, faults := faults[0], faults[1..];
      }
    }

    /** Reads n bytes from register reg on. */
    method ReadBytes(reg: Byte, data: array<Byte>, n: nat) returns (err: Error)
      requires Valid() && Separate(data) && n <= data.Length && reg + n <= DIRECT_MEM_SIZE
      modifies `faults, `log, data
      ensures data[n..] == old(data[n..])
      ensures log == old(log) + [if err == Ok then Answered(data[..n]) else NoAnswer]
      ensures old(faults) == [] ==>
                && faults == []
                && err == (if crcEnabled && !(1 <= n <= DATA_BUFFER_SIZE) then InvalidArgument else Ok)
                && (err == Ok ==> data[..n] == chip.directMem[reg..reg + n])
    {
      var sent := chip.directMem[reg..reg + n];
      FrameRoundTrip(ReadHead(addr, reg), sent);
      var wire := if crcEnabled then Frame(ReadHead(addr, reg), sent) else sent;
      var fault := NextFault();
      if fault.Garbled? {
        wire := Fit(fault.wire, |wire|);
      }
      err := ReadBytesI2c(crcEnabled, addr, reg, data, n, fault != Lost, wire);
      log := log + [if err == Ok then Answered(data[..n]) else NoAnswer];
    }

    /** Writes one to four bytes. The chip gets what arrives; with CRC it takes only a valid frame.
        A write that is refused or lost is reported and has no effect. */
    method WriteBytes(reg: Byte, bytes: seq<Byte>) returns (err: Error)
      requires Valid()
      modifies `faults, `slips, chip.directMem, chip.dataMem
      ensures var sent := Sent(crcEnabled, addr, reg, bytes);
              slips == old(slips) +
                if 1 <= |bytes| <= 4 && old(faults) != [] && SlipsThrough(crcEnabled, addr, sent, old(faults)[0])
                then 1 else 0
      ensures err != Ok ==> chip.View() == old(chip.View())
      ensures err == Ok && slips == old(slips) ==> chip.View() == Wrote(old(chip.View()), reg, bytes)
      ensures old(faults) == [] ==> faults == [] && (err == Ok <==> 1 <= |bytes| <= 4)
    {
      hide ValidFrame, Payload, Frame, Wrote, Fit;
      var fault := NextFault();
      var sent;
      err, sent := WriteBytesI2c(crcEnabled, addr, reg, bytes, fault != Lost);
      if err != Ok {
        return;
      }
      assert sent == Sent(crcEnabled, addr, reg, bytes);
      SentIsValid(crcEnabled, addr, reg, bytes);
      var wire := if fault.Garbled? then Fit(fault.wire, |sent|) else sent;
      var valid, payload := Receive(crcEnabled, addr, wire);
      if !valid {
        return BusError;
      }
      if wire != sent {
        slips := slips + 1;
      }
      chip.WriteBytes(wire[0], payload);
    }
  }

  // ---------- reading ----------

  const BQ769X2_READ_MAX_ATTEMPTS: nat := 100

  predicate Echoes(addr: Word16, a: Answer) { a.Answered? && a.bytes == WordBytes(addr) }

  /** The chip is still at work: an answer that does not echo the address. */
  predicate Busy(addr: Word16, a: Answer) { a.Answered? && a.bytes != WordBytes(addr) }

  predicate GoodLength(a: Answer) { a.Answered? && |a.bytes| == 1 && 4 <= a.bytes[0] <= 36 }

  /** The answers of a read that succeeds: up to 99 busy polls, the echo, a length of 4 to 36, that
      many data bytes less 4, and their checksum. */
  ghost predicate GoodSession(addr: Word16, s: seq<Answer>) {
    && 4 <= |s| <= BQ769X2_READ_MAX_ATTEMPTS + 3
    && var k := |s| - 4;
       && (forall i :: 0 <= i < k ==> Busy(addr, s[i]))
       && Echoes(addr, s[k])
       && GoodLength(s[k + 1])
       && GoodData(addr, s[k + 1].bytes[0] - 4, s[k + 2], s[k + 3])
  }

  /** A session splits at its first answer that is not busy. */
  lemma SessionParts(addr: Word16, polls: seq<Answer>, rest: seq<Answer>)
    requires 1 <= |polls| <= BQ769X2_READ_MAX_ATTEMPTS
    requires forall i :: 0 <= i < |polls| - 1 ==> Busy(addr, polls[i])
    requires rest == [] || Echoes(addr, polls[|polls| - 1])
    ensures GoodSession(addr, polls + rest) <==>
            |rest| == 3 && GoodLength(rest[0]) && GoodData(addr, rest[0].bytes[0] - 4, rest[1], rest[2])
  {
    var s, p := polls + rest, |polls| - 1;
    if GoodSession(addr, s) {
      var k := |s| - 4;
      assert Echoes(addr, s[k]);
      assert forall i :: 0 <= i < p ==> Busy(addr, s[i]);
      assert k >= p && rest != [];
      assert s[p] == polls[p];
      assert !Busy(addr, s[p]);
      assert k <= p;
    }
  }

  /** Data of the announced length with a matching checksum. */
  predicate GoodData(addr: Word16, n: int, data: Answer, check: Answer) {
    && data.Answered? && |data.bytes| == n
    && check == Answered([Checksum(addr, data.bytes)])
  }

  lemma {:induction false} SumDetects(a: seq<Byte>, b: seq<Byte>, i: nat)
    requires |a| == |b| && i < |a| && a[i] != b[i]
    requires forall j :: 0 <= j < |a| && j != i ==> a[j] == b[j]
    ensures Sum(a) != Sum(b)
    decreases |a|
  {
    var n := |a| - 1;
    if i < n {
      SumDetects(a[..n], b[..n], i);
    } else {
      assert a[..n] == b[..n];
    }
    if Sum(a) == Sum(b) { WrapDetects(Sum(a[..n]), Sum(b[..n]), a[n], b[n]); }
  }

  lemma WrapDetects(x: Byte, y: Byte, u: Byte, v: Byte)
    requires (x as int + u) % 256 == (y as int + v) % 256
    ensures x == y <==> u == v
  {
  }

  /** Altering one data byte, or the checksum byte, of a good session makes the read fail. */
  lemma OneAlteredByteFails(addr: Word16, s: seq<Answer>, bad: Answer, i: nat)
    requires GoodSession(addr, s)
    requires bad.Answered?
    ensures var n := |s|; var data := s[n - 2].bytes;
            |bad.bytes| == |data| && i < |data| && bad.bytes[i] != data[i]
            && (forall j :: 0 <= j < |data| && j != i ==> bad.bytes[j] == data[j])
            ==> !GoodSession(addr, s[n - 2 := bad])
    ensures bad != s[|s| - 1] ==> !GoodSession(addr, s[|s| - 1 := bad])
  {
    var n := |s|;
    var data := s[n - 2].bytes;
    if |bad.bytes| == |data| && i < |data| && bad.bytes[i] != data[i]
       && (forall j :: 0 <= j < |data| && j != i ==> bad.bytes[j] == data[j])
    {
      SumDetects(data, bad.bytes, i);
      ChecksumDetects(addr, data, bad.bytes);
    }
  }

  lemma ChecksumDetects(addr: Word16, a: seq<Byte>, b: seq<Byte>)
    requires Sum(a) != Sum(b)
    ensures Checksum(addr, a) != Checksum(addr, b)
  {
    if Checksum(addr, a) == Checksum(addr, b) { WrapSum(addr % 256 + addr / 256, Sum(a), Sum(b)); }
  }

  lemma WrapSum(x: nat, u: Byte, v: Byte)
    requires (x + u) % 256 == (x + v) % 256
    ensures u == v
  {
  }

  // ---------- values ----------

  /** The bytes of a 32-bit value, lowest first. */
  function ToBytes(value: nat, n: nat): (b: seq<Byte>)
    ensures |b| == n
    decreases n
  {
    if n == 0 then [] else [value % 256] + ToBytes(value / 256, n - 1)
  }

  function FromBytes(b: seq<Byte>): nat {
    if b == [] then 0 else b[0] + 256 * FromBytes(b[1..])
  }

  datatype Type = U1 | U2 | I1 | I2 | F4

  function Size(t: Type): (n: nat)
    ensures 1 <= n <= 4
  {
    match t case U1 => 1 case I1 => 1 case U2 => 2 case I2 => 2 case F4 => 4
  }

  /** The values of each type; a float is given by its 32 bits. */
  predicate Holds(t: Type, v: int) {
    match t
    case U1 => 0 <= v < 0x100
    case I1 => -0x80 <= v < 0x80
    case U2 => 0 <= v < 0x1_0000
    case I2 => -0x8000 <= v < 0x8000
    case F4 => 0 <= v < 0x1_0000_0000
  }

  /** Conversion to a 32-bit word. */
  function Word32(v: int): nat { v % 0x1_0000_0000 }

  function Encode(t: Type, v: int): seq<Byte> { ToBytes(Word32(v), Size(t)) }

  function Decode(t: Type, b: seq<Byte>): int
    requires |b| == Size(t)
  {
    var u := FromBytes(b);
    match t
    case I1 => if u >= 0x80 then u - 0x100 else u
    case I2 => if u >= 0x8000 then u - 0x1_0000 else u
    case _ => u
  }

  lemma Bytes1(v: nat)
    ensures FromBytes(ToBytes(v, 1)) == v % 256
  {
    assert ToBytes(v, 1) == [v % 256];
    assert FromBytes([]) == 0;
  }

  lemma {:induction false} BytesNext(v: nat, n: nat)
    ensures FromBytes(ToBytes(v, n + 1)) == v % 256 + 256 * FromBytes(ToBytes(v / 256, n))
  {
    assert ToBytes(v, n + 1)[1..] == ToBytes(v / 256, n);
  }

  lemma Bytes2(v: nat)
    ensures FromBytes(ToBytes(v, 2)) == v % 0x1_0000
  {
    BytesNext(v, 1);
    Bytes1(v / 256);
  }

  lemma Bytes4(v: nat)
    requires v < 0x1_0000_0000
    ensures FromBytes(ToBytes(v, 4)) == v
  {
    BytesNext(v, 3);
    BytesNext(v / 256, 2);
    Bytes2(v / 256 / 256);
  }

  lemma LowByte(v: int)
    ensures Word32(v) % 0x100 == v % 0x100
  {
  }

  lemma LowWord(v: int)
    ensures Word32(v) % 0x1_0000 == v % 0x1_0000
  {
  }

  /** A value written and read back as the same type is the same value. */
  lemma EncodeRoundTrip(t: Type, v: int)
    requires Holds(t, v)
    ensures Decode(t, Encode(t, v)) == v
  {
    hide ToBytes, FromBytes, Word32;
    var w := Word32(v);
    match t {
      case U1 => Bytes1(w); LowByte(v);
      case I1 => Bytes1(w); LowByte(v);
      case U2 => Bytes2(w); LowWord(v);
      case I2 => Bytes2(w); LowWord(v);
      case F4 => WholeWord(v); Bytes4(w);
    }
  }

  lemma {:induction false} FromBytesBound(b: seq<Byte>)
    ensures |b| == 1 ==> FromBytes(b) < 0x100
    ensures |b| == 2 ==> FromBytes(b) < 0x1_0000
    ensures |b| == 3 ==> FromBytes(b) < 0x100_0000
    ensures |b| == 4 ==> FromBytes(b) < 0x1_0000_0000
    decreases |b|
  {
    if b != [] { FromBytesBound(b[1..]); }
  }

  /** Any bytes decode to a value of the type. */
  lemma DecodeHolds(t: Type, b: seq<Byte>)
    requires |b| == Size(t)
    ensures Holds(t, Decode(t, b))
  {
    FromBytesBound(b);
  }

  lemma WholeWord(v: int)
    ensures 0 <= v < 0x1_0000_0000 ==> Word32(v) == v
  {
  }

  // ---------- data memory as a plain map ----------

  datatype Op = Write(t: Type, addr: Word16, value: int) | Read(t: Type, addr: Word16)

  predicate Allowed(op: Op) {
    op.addr >= 0x9180 && op.addr + 4 <= DATA_MEM_SIZE && (op.Write? ==> Holds(op.t, op.value))
  }

  function Next(mem: seq<Byte>, op: Op): (r: seq<Byte>)
    requires |mem| == DATA_MEM_SIZE && Allowed(op)
    ensures |r| == DATA_MEM_SIZE
  {
    match op
    case Write(t, a, v) => Splice(mem, a, Encode(t, v))
    case Read(_, _) => mem
  }

  /** The lowest byte of a value is stored first, in two's complement; one byte for U1 and I1, two for
      U2 and I2, four for F4. Nothing else changes. */
  lemma LowestByteFirst(mem: seq<Byte>, t: Type, a: Word16, v: int)
    requires |mem| == DATA_MEM_SIZE && Allowed(Write(t, a, v))
    ensures var m := Next(mem, Write(t, a, v));
            && m[a] as int == v % 0x100
            && m[a + 1] as int == (if t.U1? || t.I1? then mem[a + 1] as int else v / 0x100 % 0x100)
            && m[a + 2] as int == (if t.F4? then v / 0x1_0000 % 0x100 else mem[a + 2] as int)
            && m[a + 3] as int == (if t.F4? then v / 0x100_0000 % 0x100 else mem[a + 3] as int)
            && forall i :: 0 <= i < |mem| && !(a <= i < a + 4) ==> m[i] == mem[i]
  {
    var u := Word32(v);
    var b := ToBytes(u, 4);
    FourBytes(u);
    FourBytesOf(v);
    Prefixes(u);
    hide ToBytes, Word32;
  }

  lemma FourBytes(u: nat)
    ensures ToBytes(u, 4) == [u % 256, u / 256 % 256, u / 256 / 256 % 256, u / 256 / 256 / 256 % 256]
  {
    var p, q, r := u / 256, u / 256 / 256, u / 256 / 256 / 256;
    assert ToBytes(r, 1) == [r % 256];
    assert ToBytes(q, 2) == [q % 256] + ToBytes(r, 1);
    assert ToBytes(p, 3) == [p % 256] + ToBytes(q, 2);
  }

  lemma Prefixes(u: nat)
    ensures ToBytes(u, 1) == ToBytes(u, 4)[..1] && ToBytes(u, 2) == ToBytes(u, 4)[..2]
  {
    FourBytes(u);
    assert ToBytes(u / 256, 1) == [u / 256 % 256];
    assert ToBytes(u, 1) == [u % 256];
    assert ToBytes(u, 2) == [u % 256] + ToBytes(u / 256, 1);
  }

  lemma FourBytesOf(v: int)
    ensures var u := Word32(v);
            && u % 256 == v % 0x100 && u / 256 % 256 == v / 0x100 % 0x100
            && u / 256 / 256 % 256 == v / 0x1_0000 % 0x100
            && u / 256 / 256 / 256 % 256 == v / 0x100_0000 % 0x100
  {
    var u := Word32(v);
    var w := v / 0x1_0000_0000;
    var p, q, r := u / 256, u / 256 / 256, u / 256 / 256 / 256;
    assert v == 0x1_0000_0000 * w + u;
    Shifted(0x100_0000 * w + p, u % 256, v);
    Shifted(0x1_0000 * w + q, p % 256, v / 0x100);
    Shifted(0x100 * w + r, q % 256, v / 0x100 / 0x100);
    Shifted(w, r, v / 0x100 / 0x100 / 0x100);
    TwoShifts(v);
  }

  lemma Shifted(k: int, c: int, v: int)
    requires 0 <= c < 256 && v == 256 * k + c
    ensures v / 256 == k && v % 256 == c
  {
  }

  lemma TwoShifts(v: int)
    ensures v / 0x100 / 0x100 == v / 0x1_0000 && v / 0x1_0000 / 0x100 == v / 0x100_0000
  {
  }

  /** What an operation returns; 0 stands for a write. */
  function Output(mem: seq<Byte>, op: Op): int
    requires |mem| == DATA_MEM_SIZE && Allowed(op)
  {
    match op
    case Write(_, _, _) => 0
    case Read(t, a) => Decode(t, mem[a..a + Size(t)])
  }

  /** What a read of each type makes of the bytes. */
  lemma ReadsLowestFirst(mem: seq<Byte>, a: Word16)
    requires |mem| == DATA_MEM_SIZE && Allowed(Read(F4, a))
    ensures var b0, b1, b2, b3 := mem[a] as int, mem[a + 1] as int, mem[a + 2] as int, mem[a + 3] as int;
            && Output(mem, Read(U1, a)) == b0
            && Output(mem, Read(I1, a)) == (if b0 < 0x80 then b0 else b0 - 0x100)
            && Output(mem, Read(U2, a)) == b0 + 0x100 * b1
            && Output(mem, Read(I2, a)) == (if b1 < 0x80 then b0 + 0x100 * b1 else b0 + 0x100 * b1 - 0x1_0000)
            && Output(mem, Read(F4, a)) == b0 + 0x100 * b1 + 0x1_0000 * b2 + 0x100_0000 * b3
  {
    var b := mem[a..a + 4];
    assert mem[a..a + 1] == [b[0]] && mem[a..a + 2] == [b[0], b[1]] && b == [b[0], b[1], b[2], b[3]];
    ValueOfBytes(b[0], b[1], b[2], b[3]);
    hide FromBytes;
  }

  lemma ValueOfBytes(p: Byte, q: Byte, r: Byte, s: Byte)
    ensures FromBytes([p]) == p && FromBytes([p, q]) == p as int + 0x100 * q as int
    ensures FromBytes([p, q, r, s]) == p as int + 0x100 * q as int + 0x1_0000 * r as int + 0x100_0000 * s as int
  {
    assert [p][1..] == [] && [p, q][1..] == [q] && [q][1..] == [];
    assert [p, q, r, s][1..] == [q, r, s] && [q, r, s][1..] == [r, s] && [r, s][1..] == [s] && [s][1..] == [];
    assert FromBytes([s]) == s as int;
    assert FromBytes([r, s]) == r as int + 0x100 * s as int;
    assert FromBytes([q, r, s]) == q as int + 0x100 * r as int + 0x1_0000 * s as int;
  }

  /** A byte read inside a value just written is the corresponding byte of the value, counted from the
      lowest. */
  lemma BytesOfWritten(mem: seq<Byte>, t: Type, a: Word16, v: int, i: nat)
    requires |mem| == DATA_MEM_SIZE && Allowed(Write(t, a, v)) && a + i + 4 <= DATA_MEM_SIZE
    requires i < if t.F4? then 4 else if t.U2? || t.I2? then 2 else 1
    ensures Output(Next(mem, Write(t, a, v)), Read(U1, a + i)) ==
            (if i == 0 then v else if i == 1 then v / 0x100 else if i == 2 then v / 0x1_0000 else v / 0x100_0000)
            % 0x100
  {
    hide Next, Output;
    LowestByteFirst(mem, t, a, v);
    ReadsLowestFirst(Next(mem, Write(t, a, v)), a + i);
  }

  ghost predicate AllAllowed(ops: seq<Op>) { forall k :: 0 <= k < |ops| ==> Allowed(ops[k]) }

  function After(mem: seq<Byte>, ops: seq<Op>): (r: seq<Byte>)
    requires |mem| == DATA_MEM_SIZE && AllAllowed(ops)
    ensures |r| == DATA_MEM_SIZE
  {
    if ops == [] then mem else Next(After(mem, ops[..|ops| - 1]), ops[|ops| - 1])
  }

  predicate Covers(op: Op, i: int) { op.Write? && op.addr <= i < op.addr + Size(op.t) }

  /** A byte no write covers keeps its value over every run. */
  lemma {:induction false} UntouchedBytesStay(mem: seq<Byte>, ops: seq<Op>, i: nat)
    requires |mem| == DATA_MEM_SIZE && AllAllowed(ops) && i < DATA_MEM_SIZE
    requires forall k :: 0 <= k < |ops| ==> !Covers(ops[k], i)
    ensures After(mem, ops)[i] == mem[i]
    decreases |ops|
  {
    if ops != [] { UntouchedBytesStay(mem, ops[..|ops| - 1], i); }
  }

  /** The last write to an address is what a read of the same type returns, as long as no later
      write overlaps it. */
  lemma LastWriteIsRead(mem: seq<Byte>, ops: seq<Op>, k: nat)
    requires |mem| == DATA_MEM_SIZE && AllAllowed(ops) && k < |ops| && ops[k].Write?
    requires forall j, i :: k < j < |ops| && Covers(ops[k], i) ==> !Covers(ops[j], i)
    ensures Output(After(mem, ops), Read(ops[k].t, ops[k].addr)) == ops[k].value
  {
    var w := ops[k];
    var there := After(mem, ops[..k + 1]);
    assert ops[..k + 1][..k] == ops[..k];
    assert there == Next(After(mem, ops[..k]), w);
    AfterSplits(mem, ops, k + 1);
    forall i | 0 <= i < Size(w.t) ensures After(mem, ops)[w.addr + i] == Encode(w.t, w.value)[i] {
      assert Covers(w, w.addr + i);
      UntouchedBytesStay(there, ops[k + 1..], w.addr + i);
    }
    assert After(mem, ops)[w.addr..w.addr + Size(w.t)] == Encode(w.t, w.value);
    EncodeRoundTrip(w.t, w.value);
  }

  lemma {:induction false} AfterSplits(mem: seq<Byte>, ops: seq<Op>, k: nat)
    requires |mem| == DATA_MEM_SIZE && AllAllowed(ops) && k <= |ops|
    ensures After(mem, ops) == After(After(mem, ops[..k]), ops[k..])
    decreases |ops|
  {
    if k == |ops| {
      assert ops[..k] == ops && ops[k..] == [];
    } else {
      var n := |ops| - 1;
      AfterSplits(mem, ops[..n], k);
      assert ops[..n][..k] == ops[..k];
      assert ops[..n][k..] == ops[k..][..n - k];
    }
  }

  // ---------- the driver ----------

  /** The battery status byte after a write to the subcommand registers. */
  function StatusAfter(status: Byte, subcmd: Word16): Byte {
    if subcmd == SUBCMD_SET_CFGUPDATE then 1 else if subcmd == SUBCMD_EXIT_CFGUPDATE then 0 else status
  }

  /** Addresses at which the emulated chip can fetch four bytes. */
  predicate Fetchable(addr: Word16) { addr + 4 <= DATA_MEM_SIZE }

  lemma PrefixOfSlice(s: seq<Byte>, at: nat, n: nat, m: nat)
    requires n <= m && at + m <= |s|
    ensures s[at..at + m][..n] == s[at..at + n]
  {
  }

  /** The two writes that follow a selection store the bytes at the selected address. */
  lemma PayloadStored(m: Memory, addr: Word16, bytes: seq<Byte>, checksum: Byte)
    requires Sized(m) && Fetchable(addr) && 1 <= |bytes| <= 4 && m.direct[0x3E..0x40] == WordBytes(addr)
    ensures var d := Wrote(m, 0x40, bytes);
            var e := Wrote(d, 0x60, [checksum, |bytes| + 4]);
            && d.data == m.data && e.data == Splice(m.data, addr, bytes)
            && e.direct[0x40..0x40 + |bytes|] == bytes
            && e.direct[0x60] == checksum && e.direct[0x61] == |bytes| + 4
  {
    var d := Splice(m.direct, SUBCMD_DATA_START, bytes);
    var e := Splice(d, SUBCMD_DATA_CHECKSUM, [checksum, |bytes| + 4]);
    assert m.direct[0x3E..0x40][0] == addr % 256 && m.direct[0x3E..0x40][1] == addr / 256;
    assert Selected(d) == addr && Selected(e) == addr && Announced(e) == |bytes|;
    assert e[0x40..0x40 + |bytes|] == bytes;
    assert Wrote(m, SUBCMD_DATA_START, bytes) == Memory(d, m.data);
  }

  class Driver {
    const link: Link
    var configUpdateModeEnabled: bool

    ghost predicate Valid() { link.Valid() }

    constructor (link: Link)
      ensures this.link == link && !configUpdateModeEnabled
    {
      this.link, configUpdateModeEnabled := link, false;
    }

    ghost function Mem(): (m: seq<Byte>)
      requires Valid()
      reads link.chip.dataMem
      ensures |m| == DATA_MEM_SIZE
    {
      link.chip.dataMem[..]
    }

    /** Writes the address registers; the chip fetches four bytes. */
    method Select(addr: Word16) returns (err: Error)
      requires Valid() && Fetchable(addr)
      modifies link`faults, link`slips, link.chip.directMem, link.chip.dataMem
      ensures link.slips >= old(link.slips)
      ensures link.slips == old(link.slips) ==> Mem() == old(Mem())
      ensures err == Ok && link.slips == old(link.slips) ==>
                var d := link.chip.directMem[..];
                && d[0x3E..0x40] == WordBytes(addr)
                && d[0x40..0x44] == Mem()[addr..addr + 4]
                && d[0x60] == Checksum(addr, Mem()[addr..addr + 4])
                && d[0x61] == 8
                && d[0x12] == StatusAfter(old(link.chip.directMem[..])[0x12], addr)
      ensures old(link.faults) == [] ==> err == Ok && link.faults == [] && link.slips == old(link.slips)
    {
      ghost var m := link.chip.View();
      ghost var d := Splice(m.direct, CMD_SUBCMD_LOWER, WordBytes(addr));
      assert d[0x3E] == addr % 256 && d[0x3F] == addr / 256;
      assert Selected(d) == addr;
      err := link.WriteBytes(CMD_SUBCMD_LOWER, WordBytes(addr));
    }

    /** Polls until the chip echoes the address. polls receives the answers. */
    method PollReady(addr: Word16, buf: array<Byte>) returns (err: Error, ghost polls: seq<Answer>)
      requires Valid() && link.Separate(buf) && buf.Length == 0x20
      modifies link`faults, link`log, buf
      ensures link.log == old(link.log) + polls
      ensures 1 <= |polls| <= 100
      ensures forall i :: 0 <= i < |polls| - 1 ==> Busy(addr, polls[i])
      ensures err == Ok <==> Echoes(addr, polls[|polls| - 1])
      ensures old(link.faults) == [] && link.chip.directMem[0x3E..0x40] == WordBytes(addr) ==>
                err == Ok && link.faults == []
    {
      var attempts := 1;
      polls := [];
      while true
        invariant 1 <= attempts <= BQ769X2_READ_MAX_ATTEMPTS && |polls| == attempts - 1
        invariant link.log == old(link.log) + polls
        invariant forall i :: 0 <= i < |polls| ==> Busy(addr, polls[i])
        invariant old(link.faults) == [] ==> link.faults == []
        invariant old(link.faults) == [] && link.chip.directMem[0x3E..0x40] == WordBytes(addr) ==> attempts == 1
        decreases BQ769X2_READ_MAX_ATTEMPTS - attempts
      {
        err := link.ReadBytes(CMD_SUBCMD_LOWER, buf, 2);
        polls := polls + [if err == Ok then Answered(buf[..2]) else NoAnswer];
        if err != Ok {
          return;
        }
        assert buf[..2][0] == buf[0] && buf[..2][1] == buf[1];
        if buf[0] == addr % 256 && buf[1] == addr / 256 {
          assert buf[..2] == WordBytes(addr);
          return;
        }
        if attempts >= BQ769X2_READ_MAX_ATTEMPTS {
          err := IoError;
          return;
        }
        attempts := attempts + 1;
      }
    }

    /** Reads the number of data bytes, in 8-bit arithmetic. */
    method ReadLength() returns (err: Error, length: nat, ghost answer: Answer)
      requires Valid()
      modifies link`faults, link`log
      ensures link.log == old(link.log) + [answer]
      ensures err == Ok <==> GoodLength(answer)
      ensures err == Ok ==> length == answer.bytes[0] - 4
      ensures old(link.faults) == [] && link.chip.directMem[0x61] == 8 ==> err == Ok && length == 4 && link.faults == []
    {
      length := 0;
      var buf := new Byte[1];
      err := link.ReadBytes(SUBCMD_DATA_LENGTH, buf, 1);
      answer := if err == Ok then Answered(buf[..1]) else NoAnswer;
      if err != Ok {
        return;
      }
      assert buf[..1][0] == buf[0];
      length := (buf[0] - SUBCMD_OVERHEAD_BYTES) % 256;
      if length > 0x20 {
        err := IoError;
      }
    }

    /** Copies what fits and adds up everything. */
    method CopyAndSum(buf: array<Byte>, bytes: array<Byte>, length: nat) returns (sum: Byte)
      requires buf != bytes && length <= buf.Length
      modifies bytes
      ensures sum == Sum(buf[..length])
      ensures forall i :: 0 <= i < bytes.Length ==> bytes[i] == if i < length then buf[i] else old(bytes[i])
    {
      sum := 0;
      for i := 0 to length
        invariant sum == Sum(buf[..i])
        invariant forall k :: 0 <= k < bytes.Length ==> bytes[k] == if k < i then buf[k] else old(bytes[k])
      {
        if i < bytes.Length {
          bytes[i] := buf[i];
        }
        assert buf[..i + 1][..i] == buf[..i];
        sum := (sum as int + buf[i]) % 256;
      }
    }

    /** Reads all available data, copies what fits, and validates the checksum. */
    method ReadPayload(addr: Word16, buf: array<Byte>, bytes: array<Byte>, length: nat)
      returns (err: Error, ghost answers: seq<Answer>)
      requires Valid() && link.Separate(buf) && link.Separate(bytes) && buf != bytes
      requires buf.Length == 0x20 && length <= 0x20
      modifies link`faults, link`log, buf, bytes
      ensures link.log == old(link.log) + answers && 1 <= |answers| <= 2
      ensures err == Ok <==> |answers| == 2 && GoodData(addr, length, answers[0], answers[1])
      ensures err == Ok ==> forall i :: 0 <= i < bytes.Length ==>
                              bytes[i] == if i < length then answers[0].bytes[i] else old(bytes[i])
      ensures var d := link.chip.directMem[..];
              old(link.faults) == [] && 1 <= length && d[0x60] == Checksum(addr, d[0x40..0x40 + length]) ==>
                && err == Ok && link.faults == []
                && answers[0].bytes == d[0x40..0x40 + length]
    {
      hide Sum;
      err := link.ReadBytes(SUBCMD_DATA_START, buf, length);
      answers := [if err == Ok then Answered(buf[..length]) else NoAnswer];
      if err != Ok {
        return;
      }
      ghost var data := buf[..length];
      var sum := CopyAndSum(buf, bytes, length);
      assert forall i :: 0 <= i < length ==> buf[i] == data[i];
      assert old(link.faults) == [] && 1 <= length ==> data == link.chip.directMem[..][0x40..0x40 + length];
      var checksum := 255 - (addr % 256 + addr / 256 + sum) % 256;
      err := link.ReadBytes(SUBCMD_DATA_CHECKSUM, buf, 1);
      answers := answers + [if err == Ok then Answered(buf[..1]) else NoAnswer];
      if err != Ok {
        return;
      }
      assert buf[..1] == [buf[0]];
      assert old(link.faults) == [] && 1 <= length ==> buf[..1][0] == link.chip.directMem[0x60];
      if buf[0] != checksum {
        err := IoError;
      }
    }

    /** Reads from a subcommand or data memory address; bytes receives what fits. The answers of
        the session decide the outcome. */
    method DataRead(addr: Word16, bytes: array<Byte>) returns (err: Error, ghost session: seq<Answer>)
      requires Valid() && Fetchable(addr) && link.Separate(bytes)
      modifies link`faults, link`slips, link`log, link.chip.directMem, link.chip.dataMem, bytes
      ensures link.slips >= old(link.slips)
      ensures link.slips == old(link.slips) ==> Mem() == old(Mem())
      ensures link.log == old(link.log) + session && |session| <= 103
      ensures err == Ok <==> GoodSession(addr, session)
      ensures err == Ok ==>
                var data := session[|session| - 2].bytes;
                && (forall i :: 0 <= i < bytes.Length ==> bytes[i] == if i < |data| then data[i] else old(bytes[i]))
                && (old(link.faults) == [] ==> data == Mem()[addr..addr + 4])
      ensures old(link.faults) == [] ==> err == Ok && link.faults == [] && link.slips == old(link.slips)
    {
      var buf := new Byte[0x20];
      session := [];
      err := Select(addr);
      if err != Ok {
        return;
      }
      ghost var polls;
      err, polls := PollReady(addr, buf);
      session := polls;
      if err != Ok {
        SessionParts(addr, polls, []);
        assert polls + [] == polls;
        return;
      }
      var length;
      ghost var answer;
      err, length, answer := ReadLength();
      session := polls + [answer];
      SessionParts(addr, polls, [answer]);
      if err != Ok {
        return;
      }
      ghost var answers;
      err, answers := ReadPayload(addr, buf, bytes, length);
      session := polls + ([answer] + answers);
      SessionParts(addr, polls, [answer] + answers);
      hide GoodSession;
    }

    /** Cuts a value into bytes, lowest first, with their checksum. */
    method SplitValue(addr: Word16, value: nat, n: nat) returns (bytes: seq<Byte>, checksum: Byte)
      ensures bytes == ToBytes(value, n) && checksum == Checksum(addr, bytes)
    {
      bytes := [];
      var rest := value;
      var sum: Byte := 0;
      for i := 0 to n
        invariant |bytes| == i && bytes + ToBytes(rest, n - i) == ToBytes(value, n)
        invariant sum == Sum(bytes)
      {
        var b := rest % 256;
        assert (bytes + [b])[..i] == bytes;
        assert bytes + ToBytes(rest, n - i) == bytes + [b] + ToBytes(rest / 256, n - i - 1);
        bytes := bytes + [b];
        sum := (sum as int + b) % 256;
        rest := rest / 256;
      }
      checksum := 255 - (addr % 256 + addr / 256 + sum) % 256;
    }

    /** Data first, then checksum and length as one word, which makes the chip store the data. */
    method WritePayload(addr: Word16, bytes: seq<Byte>, checksum: Byte) returns (err: Error)
      requires Valid() && Fetchable(addr) && 1 <= |bytes| <= 4
      modifies link`faults, link`slips, link.chip.directMem, link.chip.dataMem
      ensures link.slips >= old(link.slips)
      ensures link.slips == old(link.slips) && old(link.chip.directMem[..][0x3E..0x40]) == WordBytes(addr) ==>
                var d := link.chip.directMem[..];
                if err == Ok
                then && Mem() == Splice(old(Mem()), addr, bytes)
                     && d[0x40..0x40 + |bytes|] == bytes && d[0x60] == checksum && d[0x61] == |bytes| + 4
                else Mem() == old(Mem())
      ensures old(link.faults) == [] ==> err == Ok && link.faults == [] && link.slips == old(link.slips)
    {
      ghost var m := link.chip.View();
      if m.direct[0x3E..0x40] == WordBytes(addr) { PayloadStored(m, addr, bytes, checksum); }
      hide Wrote;
      err := link.WriteBytes(SUBCMD_DATA_START, bytes);
      if err != Ok {
        return;
      }
      err := link.WriteBytes(SUBCMD_DATA_CHECKSUM, [checksum, |bytes| + SUBCMD_OVERHEAD_BYTES]);
    }

    /** Writes up to four bytes to a subcommand or data memory address. */
    method DataWrite(addr: Word16, value: nat, n: nat) returns (err: Error)
      requires Valid() && Fetchable(addr) && n <= 4
      modifies link`faults, link`slips, link.chip.directMem, link.chip.dataMem
      ensures link.slips >= old(link.slips)
      ensures link.slips == old(link.slips) ==>
                Mem() == if err == Ok then Splice(old(Mem()), addr, ToBytes(value, n)) else old(Mem())
      ensures err == Ok && n > 0 && link.slips == old(link.slips) ==>
                var d := link.chip.directMem[..];
                && d[0x40..0x40 + n] == ToBytes(value, n)
                && d[0x60] == Checksum(addr, ToBytes(value, n)) && d[0x61] == n + 4
      ensures err == Ok && n == 0 && link.slips == old(link.slips) ==>
                link.chip.directMem[0x12] == StatusAfter(old(link.chip.directMem[..])[0x12], addr)
      ensures old(link.faults) == [] ==> err == Ok && link.faults == [] && link.slips == old(link.slips)
    {
      err := Select(addr);
      if err != Ok {
        return;
      }
      if n > 0 {
        var bytes, checksum := SplitValue(addr, value, n);
        err := WritePayload(addr, bytes, checksum);
      } else {
        assert Splice(Mem(), addr, ToBytes(value, 0)) == Mem();
      }
    }

    /** Typed access, as the wrappers for each type provide it. */
    method WriteTyped(t: Type, addr: Word16, value: int) returns (err: Error)
      requires Valid() && Allowed(Write(t, addr, value)) && configUpdateModeEnabled
      modifies link`faults, link`slips, link.chip.directMem, link.chip.dataMem
      ensures link.slips >= old(link.slips)
      ensures link.slips == old(link.slips) ==>
                Mem() == if err == Ok then Next(old(Mem()), Write(t, addr, value)) else old(Mem())
      ensures old(link.faults) == [] ==> err == Ok && link.faults == [] && link.slips == old(link.slips)
    {
      err := DataWrite(addr, Word32(value), Size(t));
    }

    method ReadTyped(t: Type, addr: Word16) returns (err: Error, value: int)
      requires Valid() && Allowed(Read(t, addr))
      modifies link`faults, link`slips, link`log, link.chip.directMem, link.chip.dataMem
      ensures link.slips >= old(link.slips) && Holds(t, value)
      ensures link.slips == old(link.slips) ==> Mem() == old(Mem())
      ensures old(link.faults) == [] ==>
                && err == Ok && link.faults == [] && link.slips == old(link.slips)
                && value == Output(Mem(), Read(t, addr))
    {
      value := 0;
      var buf := new Byte[Size(t)];
      ghost var session;
      err, session := DataRead(addr, buf);
      if err == Ok {
        value := Decode(t, buf[..]);
        DecodeHolds(t, buf[..]);
        ghost var data := session[|session| - 2].bytes;
        if old(link.faults) == [] {
          assert buf[..] == data[..Size(t)];
          PrefixOfSlice(Mem(), addr, Size(t), 4);
        }
      }
    }

    method RunOne(op: Op) returns (output: int)
      requires Valid() && link.faults == [] && Allowed(op) && configUpdateModeEnabled
      modifies link`faults, link`slips, link`log, link.chip.directMem, link.chip.dataMem
      ensures link.faults == [] && link.slips == old(link.slips)
      ensures Mem() == Next(old(Mem()), op) && output == Output(old(Mem()), op)
    {
      output := 0;
      match op {
        case Write(t, addr, value) => var _ := WriteTyped(t, addr, value);
        case Read(t, addr) =>
          var err;
          err, output := ReadTyped(t, addr);
      }
    }

    /** Any series of typed reads and writes behaves like the plain map of data memory. */
    method RunAll(ops: seq<Op>) returns (outputs: seq<int>)
      requires Valid() && link.faults == [] && AllAllowed(ops) && configUpdateModeEnabled
      modifies link`faults, link`slips, link`log, link.chip.directMem, link.chip.dataMem
      ensures Mem() == After(old(Mem()), ops)
      ensures |outputs| == |ops|
      ensures forall k :: 0 <= k < |ops| ==> outputs[k] == Output(After(old(Mem()), ops[..k]), ops[k])
    {
      hide Next, Output, Splice;
      outputs := [];
      ghost var mem := Mem();
      for k := 0 to |ops|
        invariant link.faults == []
        invariant Mem() == After(mem, ops[..k])
        invariant |outputs| == k
        invariant forall j :: 0 <= j < k ==> outputs[j] == Output(After(mem, ops[..j]), ops[j])
      {
        var output := RunOne(ops[k]);
        outputs := outputs + [output];
        assert ops[..k + 1][..k] == ops[..k];
      }
      assert ops[..|ops|] == ops;
    }

    // ---------- config update mode ----------

    /** Battery status bit 0. */
    predicate CfgUpdate()
      requires Valid()
      reads link.chip.directMem
    {
      link.chip.directMem[0x12] % 2 == 1
    }

    /** Asks the chip to change the mode and waits for it to say so, five times at most. */
    method ConfigUpdateMode(enable: bool) returns (err: Error)
      requires Valid()
      modifies `configUpdateModeEnabled, link`faults, link`slips, link`log, link.chip.directMem, link.chip.dataMem
      ensures link.slips >= old(link.slips)
      ensures link.slips == old(link.slips) ==> Mem() == old(Mem())
      ensures configUpdateModeEnabled == if err == Ok then enable else old(configUpdateModeEnabled)
      ensures err == Ok ==>
                && link.log != [] && link.log[|link.log| - 1].Answered?
                && |link.log[|link.log| - 1].bytes| == 2
                && (link.log[|link.log| - 1].bytes[0] % 2 == 1 <==> enable)
      ensures |old(link.log)| <= |link.log| <= |old(link.log)| + 5
      ensures old(link.faults) == [] ==>
                err == Ok && link.faults == [] && link.slips == old(link.slips) && CfgUpdate() == enable
    {
      var subcmd := if enable then SUBCMD_SET_CFGUPDATE else SUBCMD_EXIT_CFGUPDATE;
      err := DataWrite(subcmd, 0, 0);
      if err != Ok {
        return;
      }
      ghost var mem, slips := Mem(), link.slips;
      assert slips == old(link.slips) ==> mem == old(Mem());
      var buf := new Byte[2];
      for attempt := 0 to 5
        invariant Mem() == mem && link.slips == slips && configUpdateModeEnabled == old(configUpdateModeEnabled)
        invariant |link.log| == |old(link.log)| + attempt
        invariant old(link.faults) == [] ==> attempt == 0 && link.faults == [] && CfgUpdate() == enable
      {
        err := link.ReadBytes(CMD_BATTERY_STATUS, buf, 2);
        assert buf[..2][0] == buf[0];
        if err == Ok && (buf[0] % 2 == 1) == enable {
          configUpdateModeEnabled := enable;
          return Ok;
        }
      }
      return IoError;
    }
  }
}

/** Byte frames on the bus: the bq769x2 driver sends and checks a CRC after every data byte, the
    bq769x0 driver does the same for one or two bytes and retries. */
module Framing {
  import opened Bytes
  import opened Crc8

  datatype Error = Ok | InvalidArgument | IoError | BusError

  /** A seven-bit bus address. */
  type Address = x: int | 0 <= x < 128

  /** What the first CRC of a read covers before the data: target address with write bit, register,
      target address with read bit. */
  function ReadHead(addr: Address, reg: Byte): seq<Byte> { [2 * addr, reg, 2 * addr + 1] }

  function WriteHead(addr: Address, reg: Byte): seq<Byte> { [2 * addr, reg] }

  /** The CRC behind byte i: the first one covers the head as well. */
  function CrcAt(head: seq<Byte>, i: nat, b: Byte): Byte {
    Crc(0, (if i == 0 then head else []) + [b])
  }

  function FrameByte(head: seq<Byte>, payload: seq<Byte>, k: nat): Byte
    requires k / 2 < |payload|
  {
    if k % 2 == 0 then payload[k / 2] else CrcAt(head, k / 2, payload[k / 2])
  }

  /** Data bytes and CRC bytes in turn. */
  function Frame(head: seq<Byte>, payload: seq<Byte>): (f: seq<Byte>)
    ensures |f| == 2 * |payload|
  {
    seq(2 * |payload|, k requires 0 <= k < 2 * |payload| => FrameByte(head, payload, k))
  }

  lemma FrameAt(head: seq<Byte>, payload: seq<Byte>, i: nat)
    requires i < |payload|
    ensures Frame(head, payload)[2 * i] == payload[i]
    ensures Frame(head, payload)[2 * i + 1] == CrcAt(head, i, payload[i])
  {
    hide CrcAt;
  }

  function Payload(frame: seq<Byte>): (p: seq<Byte>)
    ensures |p| == |frame| / 2
    ensures forall i :: 0 <= i < |p| ==> p[i] == frame[2 * i]
  {
    seq(|frame| / 2, i requires 0 <= i < |frame| / 2 => frame[2 * i])
  }

  ghost predicate PairOk(head: seq<Byte>, frame: seq<Byte>, i: nat)
    requires 2 * i + 1 < |frame|
  {
    frame[2 * i + 1] == CrcAt(head, i, frame[2 * i])
  }

  /** Every CRC matches. */
  ghost predicate ValidFrame(head: seq<Byte>, frame: seq<Byte>) {
    |frame| % 2 == 0 && forall i: nat :: i < |frame| / 2 ==> PairOk(head, frame, i)
  }

  /** The accepted frames are exactly the frames of some payload, and that payload is read out. */
  lemma ValidFrameExactly(head: seq<Byte>, frame: seq<Byte>)
    ensures ValidFrame(head, frame) <==> frame == Frame(head, Payload(frame))
  {
    hide CrcAt;
    var g := Frame(head, Payload(frame));
    if ValidFrame(head, frame) {
      forall k | 0 <= k < |frame| ensures frame[k] == g[k] {
        var i := k / 2;
        assert PairOk(head, frame, i);
        FrameAt(head, Payload(frame), i);
        if k != 2 * i { assert k == 2 * i + 1; }
      }
    }
    if frame == g {
      forall i: nat | i < |frame| / 2 ensures PairOk(head, frame, i) { FrameAt(head, Payload(frame), i); }
    }
  }

  lemma FrameRoundTrip(head: seq<Byte>, payload: seq<Byte>)
    ensures Payload(Frame(head, payload)) == payload && ValidFrame(head, Frame(head, payload))
  {
    forall i | 0 <= i < |payload| ensures Payload(Frame(head, payload))[i] == payload[i] { FrameAt(head, payload, i); }
    assert Payload(Frame(head, payload)) == payload;
    ValidFrameExactly(head, Frame(head, payload));
  }

  /** What each CRC covers. The first one of a write: target address with write bit, register, data
      byte. The first one of a read: these, with the target address once more and its read bit set,
      before the data byte. Every other one only its data byte. */
  lemma CrcCoverage(addr: Address, reg: Byte, payload: seq<Byte>, i: nat)
    requires i < |payload|
    ensures var b := payload[i];
            && Frame(WriteHead(addr, reg), payload)[2 * i + 1] ==
                 (if i == 0 then Crc(0, [2 * addr, reg, b]) else Crc(0, [b]))
            && Frame(ReadHead(addr, reg), payload)[2 * i + 1] ==
                 (if i == 0 then Crc(0, [2 * addr, reg, 2 * addr + 1, b]) else Crc(0, [b]))
            && Frame(ShortHead(addr), payload)[2 * i + 1] ==
                 (if i == 0 then Crc(0, [2 * addr + 1, b]) else Crc(0, [b]))
  {
    hide Crc;
    FrameAt(WriteHead(addr, reg), payload, i);
    FrameAt(ReadHead(addr, reg), payload, i);
    FrameAt(ShortHead(addr), payload, i);
    var b := payload[i];
    assert WriteHead(addr, reg) + [b] == [2 * addr, reg, b];
    assert ReadHead(addr, reg) + [b] == [2 * addr, reg, 2 * addr + 1, b];
    assert ShortHead(addr) + [b] == [2 * addr + 1, b];
    assert [] + [b] == [b];
  }

  /** A frame in which exactly one byte of some pair was changed is not accepted, whatever
      happened to the other pairs. */
  lemma OneChangedByteIsDetected(head: seq<Byte>, frame: seq<Byte>, bad: seq<Byte>, i: nat)
    requires ValidFrame(head, frame) && |bad| == |frame| && 2 * i + 1 < |frame|
    requires (bad[2 * i] != frame[2 * i]) != (bad[2 * i + 1] != frame[2 * i + 1])
    ensures !ValidFrame(head, bad)
  {
    assert PairOk(head, frame, i);
    if ValidFrame(head, bad) {
      assert PairOk(head, bad, i);
      CrcDetects(0, if i == 0 then head else [], frame[2 * i], bad[2 * i]);
    }
  }

  /** One altered byte of a write, the register byte included, is never accepted. */
  lemma OneAlteredByteIsRefused(addr: Address, sent: seq<Byte>, bad: seq<Byte>, k: nat)
    requires |sent| >= 3 && ValidFrame(WriteHead(addr, sent[0]), sent[1..])
    requires |bad| == |sent| && k < |sent| && bad[k] != sent[k]
    requires forall j :: 0 <= j < |sent| && j != k ==> bad[j] == sent[j]
    ensures !ValidFrame(WriteHead(addr, bad[0]), bad[1..])
  {
    hide Crc;
    var frame, badFrame := sent[1..], bad[1..];
    if k == 0 {
      assert PairOk(WriteHead(addr, sent[0]), frame, 0);
      if ValidFrame(WriteHead(addr, bad[0]), badFrame) {
        assert PairOk(WriteHead(addr, bad[0]), badFrame, 0);
        var a, b := [2 * addr, sent[0]] + [frame[0]], [2 * addr, bad[0]] + [frame[0]];
        assert a == [2 * addr] + [sent[0]] + [frame[0]] && b == [2 * addr] + [bad[0]] + [frame[0]];
        OneByteChangesCrc(0, [2 * addr], sent[0], bad[0], [frame[0]]);
      }
    } else {
      var i := (k - 1) / 2;
      assert frame[2 * i] == sent[2 * i + 1] && frame[2 * i + 1] == sent[2 * i + 2];
      assert badFrame[2 * i] == bad[2 * i + 1] && badFrame[2 * i + 1] == bad[2 * i + 2];
      OneChangedByteIsDetected(WriteHead(addr, sent[0]), frame, badFrame, i);
    }
  }

  // ---------- bq769x2 ----------

  const DATA_BUFFER_SIZE: nat := 32

  /** The CRC byte behind byte i of a frame. */
  method ByteCrc(head: seq<Byte>, i: nat, b: Byte) returns (c: Byte)
    ensures c == CrcAt(head, i, b)
  {
    if i == 0 {
      c := Compute(0, head + [b]);
    } else {
      assert [] + [b] == [b];
      c := Compute(0, [b]);
    }
  }

  /** Data and CRC bytes in turn, behind the two bytes of the head. */
  method FillWriteBuffer(buf: array<Byte>, head: seq<Byte>, data: seq<Byte>)
    requires 2 * |data| + 2 <= buf.Length && |head| == 2
    modifies buf
    ensures buf[..2] == head
    ensures buf[2..2 * |data| + 2] == Frame(head, data)
  {
    hide CrcAt;
    buf[0], buf[1] := head[0], head[1];
    for i := 0 to |data|
      invariant buf[0] == head[0] && buf[1] == head[1]
      invariant forall k :: 0 <= k < i ==> buf[2 * k + 2] == data[k]
      invariant forall k :: 0 <= k < i ==> buf[2 * k + 3] == CrcAt(head, k, data[k])
    {
      buf[2 * i + 2] := data[i];
      buf[2 * i + 3] := ByteCrc(head, i, data[i]);
    }
    ghost var f := Frame(head, data);
    forall k | 0 <= k < 2 * |data| ensures buf[k + 2] == f[k] {
      var i := k / 2;
      FrameAt(head, data, i);
      assert buf[2 * i + 2] == data[i] && buf[2 * i + 3] == CrcAt(head, i, data[i]);
      if k == 2 * i { assert buf[k + 2] == f[k]; } else { assert k == 2 * i + 1; }
    }
  }

  /** Sends one to four bytes; returns what goes over the bus after the target address. */
  method WriteBytesI2c(crcEnabled: bool, addr: Address, reg: Byte, data: seq<Byte>, busOk: bool)
    returns (err: Error, sent: seq<Byte>)
    ensures err == if !(1 <= |data| <= 4) then InvalidArgument else if busOk then Ok else BusError
    ensures err != InvalidArgument ==>
              sent == [reg] + if crcEnabled then Frame(WriteHead(addr, reg), data) else data
  {
    hide CrcAt;
    sent := [];
    if |data| > 4 || |data| < 1 {
      return InvalidArgument, sent;
    }
    if crcEnabled {
      var buf := new Byte[10](_ => 0);
      FillWriteBuffer(buf, WriteHead(addr, reg), data);
      assert buf[..2][1] == reg;
      sent := buf[1..2 * |data| + 2];
      assert sent == [reg] + buf[2..2 * |data| + 2];
    } else {
      sent := [reg] + data;
    }
    err := if busOk then Ok else BusError;
  }

  /** Checks the pairs of a frame in order; data receives the bytes up to the first bad CRC. */
  method CheckFrame(head: seq<Byte>, wire: seq<Byte>, data: array<Byte>) returns (valid: bool)
    requires |wire| % 2 == 0 && |wire| / 2 <= data.Length
    modifies data
    ensures valid <==> ValidFrame(head, wire)
    ensures valid ==> data[..|wire| / 2] == Payload(wire)
    ensures data[|wire| / 2..] == old(data[|wire| / 2..])
  {
    hide CrcAt;
    for i := 0 to |wire| / 2
      invariant forall k: nat :: k < i ==> PairOk(head, wire, k)
      invariant forall k :: 0 <= k < i ==> data[k] == wire[2 * k]
      invariant data[|wire| / 2..] == old(data[|wire| / 2..])
    {
      var crc := ByteCrc(head, i, wire[2 * i]);
      if crc != wire[2 * i + 1] {
        assert !PairOk(head, wire, i);
        return false;
      }
      data[i] := wire[2 * i];
    }
    return true;
  }

  /** Checks what came over the bus and fills data with the bytes that were accepted. */
  method ReadBytesI2c(crcEnabled: bool, addr: Address, reg: Byte, data: array<Byte>, n: nat, busOk: bool,
                      wire: seq<Byte>)
    returns (err: Error)
    requires n <= data.Length
    requires |wire| == if crcEnabled then 2 * n else n
    modifies data
    ensures data[n..] == old(data[n..])
    ensures err == if crcEnabled && !(1 <= n <= 32) then InvalidArgument
                   else if !busOk then BusError
                   else if crcEnabled && !ValidFrame(ReadHead(addr, reg), wire) then IoError
                   else Ok
    ensures err == Ok ==> data[..n] == if crcEnabled then Payload(wire) else wire
  {
    if crcEnabled {
      if n > DATA_BUFFER_SIZE || n < 1 {
        return InvalidArgument;
      }
      if !busOk {
        return BusError;
      }
      var valid := CheckFrame(ReadHead(addr, reg), wire, data);
      err := if valid then Ok else IoError;
    } else {
      if !busOk {
        return BusError;
      }
      for i := 0 to n
        invariant data[..i] == wire[..i] && data[n..] == old(data[n..])
      {
        data[i] := wire[i];
      }
      assert wire[..n] == wire;
      err := Ok;
    }
  }

  // ---------- bq769x0 ----------

  const BQ769X0_READ_MAX_ATTEMPTS: nat := 10

  /** One answer of the chip to a read request: a bus error, or the bytes on the wire. */
  datatype Response = Failed | Got(wire: seq<Byte>)

  /** The first CRC of the bq769x0 covers the target address with read bit and the data byte. */
  function ShortHead(addr: Address): seq<Byte> { [2 * addr + 1] }

  ghost predicate Bad(addr: Address, r: Response) { r.Got? && !ValidFrame(ShortHead(addr), r.wire) }

  /** The first answer from i on that is a bus error or a good frame. */
  ghost function Decisive(addr: Address, responses: seq<Response>, i: nat): (k: nat)
    requires i <= |responses|
    ensures i <= k <= |responses|
    ensures forall j :: i <= j < k ==> Bad(addr, responses[j])
    ensures k < |responses| ==> !Bad(addr, responses[k])
    decreases |responses| - i
  {
    if i == |responses| || !Bad(addr, responses[i]) then i else Decisive(addr, responses, i + 1)
  }

  /** Reads one or two bytes; responses holds what the chip answers to each of ten attempts. With
      CRC the first answer that is not a bad frame decides, without CRC the first answer. */
  method ReadBytesRetry(crcEnabled: bool, addr: Address, data: array<Byte>, n: nat, responses: seq<Response>)
    returns (err: Error)
    requires n <= data.Length && |responses| == 10
    requires forall k :: 0 <= k < |responses| && responses[k].Got? ==>
               |responses[k].wire| == if crcEnabled then 2 * n else n
    modifies data
    ensures data[n..] == old(data[n..])
    ensures var k := if crcEnabled then Decisive(addr, responses, 0) else 0;
            && err == (if !(1 <= n <= 2) then InvalidArgument
                       else if k == 10 then IoError
                       else if responses[k].Failed? then BusError
                       else Ok)
            && (err == Ok ==> data[..n] == if crcEnabled then Payload(responses[k].wire) else responses[k].wire)
  {
    hide ValidFrame, Payload;
    if n < 1 || n > 2 {
      return InvalidArgument;
    }
    if !crcEnabled {
      if responses[0].Failed? {
        return BusError;
      }
      var wire := responses[0].wire;
      for i := 0 to n
        invariant data[..i] == wire[..i] && data[n..] == old(data[n..])
      {
        data[i] := wire[i];
      }
      assert wire[..n] == wire;
      return Ok;
    }
    for attempt := 0 to BQ769X0_READ_MAX_ATTEMPTS
      invariant Decisive(addr, responses, 0) == Decisive(addr, responses, attempt)
      invariant data[n..] == old(data[n..])
    {
      if responses[attempt].Failed? {
        return BusError;
      }
      var valid := CheckFrame(ShortHead(addr), responses[attempt].wire, data);
      if valid {
        return Ok;
      }
    }
    return IoError;
  }
}

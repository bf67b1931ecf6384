/** The SPS30 particulate-matter sensor driver: the Sensirion CRC-8 and the
    pointer-only commands (reset, fan cleaning, wake-up, sleep). */
module Sps30 {
  import opened Hal

  // Device address and command opcodes of the SPS30.
  const I2C_ADDR: nat := 0x69
  const CMD_SLEEP: bv16 := 0x1001
  const CMD_WAKEUP: bv16 := 0x1103
  const CMD_START_FAN_CLEANING: bv16 := 0x5607
  const CMD_RESET: bv16 := 0xD304

  // ---------------------------------------------------------------------------
  // CRC-8, polynomial 0x31, initial value 0xFF, MSB first, no reflection, no final XOR.

  /** One shift of the accumulator: out goes bit 7, and the polynomial is folded in when it was set. */
  function CrcRound(crc: bv8): bv8
  {
    if crc & 0x80 != 0 then (crc << 1) ^ 0x31 else crc << 1
  }

  /** k successive shifts. */
  function CrcRounds(crc: bv8, k: nat): bv8
  {
    if k == 0 then crc else CrcRound(CrcRounds(crc, k - 1))
  }

  /** The per-byte step: XOR the byte in, then eight shifts. */
  function CrcStep(crc: bv8, b: bv8): bv8
  {
    CrcRounds(crc ^ b, 8)
  }

  /** Left fold of CrcStep over data, starting from acc. */
  function CrcFold(acc: bv8, data: seq<bv8>): bv8
    decreases |data|
  {
    if data == [] then acc else CrcFold(CrcStep(acc, data[0]), data[1..])
  }

  /** The checksum of a byte sequence. */
  function Crc(data: seq<bv8>): bv8
  {
    CrcFold(0xFF, data)
  }

  /** Folding over a concatenation folds over the first part, then the second. */
  lemma {:induction false} CrcFoldConcat(acc: bv8, a: seq<bv8>, b: seq<bv8>)
    ensures CrcFold(acc, a + b) == CrcFold(CrcFold(acc, a), b)
    decreases |a|
  {
    if a == [] {
      assert a + b == b;
    } else {
      assert (a + b)[0] == a[0] && (a + b)[1..] == a[1..] + b;
      CrcFoldConcat(CrcStep(acc, a[0]), a[1..], b);
    }
  }

  /** Appending a byte applies exactly one more step. */
  lemma CrcAppend(a: seq<bv8>, b: bv8)
    ensures Crc(a + [b]) == CrcStep(Crc(a), b)
  {
    CrcFoldConcat(0xFF, a, [b]);
  }

  /** A single shift loses no information: bit 0 of the result tells whether the polynomial was folded in. */
  lemma CrcRoundInjective(x: bv8, y: bv8)
    ensures x != y ==> CrcRound(x) != CrcRound(y)
  {
  }

  lemma {:induction false} CrcRoundsInjective(x: bv8, y: bv8, k: nat)
    ensures x != y ==> CrcRounds(x, k) != CrcRounds(y, k)
  {
    if k > 0 {
      CrcRoundsInjective(x, y, k - 1);
      CrcRoundInjective(CrcRounds(x, k - 1), CrcRounds(y, k - 1));
    }
  }

  /** From the same accumulator, two different bytes lead to two different accumulators. */
  lemma CrcStepSeparatesBytes(acc: bv8, b: bv8, c: bv8)
    ensures b != c ==> CrcStep(acc, b) != CrcStep(acc, c)
  {
    CrcRoundsInjective(acc ^ b, acc ^ c, 8);
  }

  /** Two different accumulators stay different whatever bytes follow. */
  lemma {:induction false} CrcFoldInjective(x: bv8, y: bv8, data: seq<bv8>)
    ensures x != y ==> CrcFold(x, data) != CrcFold(y, data)
    decreases |data|
  {
    if data != [] {
      CrcRoundsInjective(x ^ data[0], y ^ data[0], 8);
      CrcFoldInjective(CrcStep(x, data[0]), CrcStep(y, data[0]), data[1..]);
    }
  }

  /** Changing exactly one byte of a message always changes its checksum. */
  lemma CrcDetectsSingleByteError(a: seq<bv8>, b: seq<bv8>, k: nat)
    requires |a| == |b| && k < |a|
    requires a[..k] == b[..k] && a[k + 1..] == b[k + 1..]
    requires a[k] != b[k]
    ensures Crc(a) != Crc(b)
  {
    assert a == a[..k] + ([a[k]] + a[k + 1..]);
    assert b == b[..k] + ([b[k]] + b[k + 1..]);
    var acc := CrcFold(0xFF, a[..k]);
    CrcFoldConcat(0xFF, a[..k], [a[k]] + a[k + 1..]);
    CrcFoldConcat(0xFF, b[..k], [b[k]] + b[k + 1..]);
    CrcFoldConcat(acc, [a[k]], a[k + 1..]);
    CrcFoldConcat(acc, [b[k]], a[k + 1..]);
    CrcStepSeparatesBytes(acc, a[k], b[k]);
    CrcFoldInjective(CrcStep(acc, a[k]), CrcStep(acc, b[k]), a[k + 1..]);
  }

  /** For the 2-byte words of the protocol: changing either data byte changes the checksum. */
  lemma WordCrcDetectsByteChange(b0: bv8, b1: bv8, c0: bv8, c1: bv8)
    requires (b0 != c0 && b1 == c1) || (b0 == c0 && b1 != c1)
    ensures Crc([b0, b1]) != Crc([c0, c1])
  {
    var k := if b0 != c0 then 0 else 1;
    assert [b0, b1][..k] == [c0, c1][..k];
    assert [b0, b1][k + 1..] == [c0, c1][k + 1..];
    CrcDetectsSingleByteError([b0, b1], [c0, c1], k);
  }

  /** The check value of the Sensirion reference implementation. */
  lemma CrcTestVector()
    ensures Crc([0xBE, 0xEF]) == 0x92
  {
  }

  /** SPS30_CalcCRC: the checksum of the first length bytes of data, in a nested loop over bytes and bits. */
  method CalcCrc(data: array<bv8>, length: bv16) returns (crc: bv8)
    requires length as int <= data.Length
    ensures crc == Crc(data[..length])
    ensures length == 0 ==> crc == 0xFF
  {
    crc := 0xFF;
    var i: nat := 0;
    while i < length as int
      invariant i <= length as int
      invariant crc == Crc(data[..i])
    {
      crc := crc ^ data[i];
      ghost var mixed := crc;
      var bit: bv8 := 8;
      while bit > 0
        invariant bit <= 8
        invariant crc == CrcRounds(mixed, 8 - bit as int)
      {
        if crc & 0x80 != 0 {
          crc := (crc << 1) ^ 0x31;
        } else {
          crc := crc << 1;
        }
        bit := bit - 1;
      }
      CrcAppend(data[..i], data[i]);
      assert data[..i + 1] == data[..i] + [data[i]];
      i := i + 1;
    }
  }

  // ---------------------------------------------------------------------------
  // Pointer frames

  /** The 2-byte pointer frame of an opcode, most significant byte first. */
  function PointerFrame(op: bv16): (frame: seq<bv8>)
    ensures |frame| == 2
    ensures frame[0] as int * 256 + frame[1] as int == op as int
  {
    SplitWord(op);
    [((op >> 8) & 0xFF) as bv8, (op & 0xFF) as bv8]
  }

  /** The two bytes of a 16-bit word, read as numbers, make up the word. */
  lemma SplitWord(w: bv16)
    ensures w as int == ((w >> 8) & 0xFF) as bv8 as int * 256 + (w & 0xFF) as bv8 as int
  {
  }

  /** The opcode a 2-byte frame addresses. */
  function FrameOpcode(frame: seq<bv8>): bv16
    requires |frame| == 2
  {
    ((frame[0] as bv16) << 8) | (frame[1] as bv16)
  }

  /** Framing is a bijection between opcodes and 2-byte frames. */
  lemma PointerFrameRoundTrip(op: bv16, frame: seq<bv8>)
    requires |frame| == 2
    ensures FrameOpcode(PointerFrame(op)) == op
    ensures PointerFrame(FrameOpcode(frame)) == frame
  {
  }

  /** The bytes each command puts on the wire. */
  lemma CommandFrames()
    ensures PointerFrame(CMD_RESET) == [0xD3, 0x04]
    ensures PointerFrame(CMD_START_FAN_CLEANING) == [0x56, 0x07]
    ensures PointerFrame(CMD_WAKEUP) == [0x11, 0x03]
    ensures PointerFrame(CMD_SLEEP) == [0x10, 0x01]
  {
  }

  /** A fresh 2-byte buffer holding the pointer frame of op. */
  method NewPointerBuffer(op: bv16) returns (buf: array<bv8>)
    ensures fresh(buf) && buf.Length == 2 && buf[..2] == PointerFrame(op)
  {
    buf := new bv8[2];
    buf[0] := ((op >> 8) & 0xFF) as bv8;  // MSB
    buf[1] := (op & 0xFF) as bv8;         // LSB
  }

  // ---------------------------------------------------------------------------
  // Commands

  /** SPS30_DeviceReset: send the reset pointer; on success wait 100 ms. */
  method DeviceReset(bus: FakeBus) returns (st: Status)
    modifies bus
    ensures st == Ok <==> StatusAt(old(bus.replies), 0) == Ok
    ensures st != Ok ==> st == Error
    ensures bus.log == old(bus.log) + [Sent(I2C_ADDR, PointerFrame(CMD_RESET))]
                                    + (if st == Ok then [Waited(100)] else [])
    ensures bus.replies == Drop(old(bus.replies), 1)
  {
    var buf := NewPointerBuffer(CMD_RESET);
    var sent := bus.Transmit(I2C_ADDR, buf, 2);
    if sent != Ok {
      return Error;
    }
    bus.Delay(100);
    return Ok;
  }

  /** SPS30_StartFanCleaning: send the fan-cleaning pointer; on success wait 10 s. */
  method StartFanCleaning(bus: FakeBus) returns (st: Status)
    modifies bus
    ensures st == Ok <==> StatusAt(old(bus.replies), 0) == Ok
    ensures st != Ok ==> st == Error
    ensures bus.log == old(bus.log) + [Sent(I2C_ADDR, PointerFrame(CMD_START_FAN_CLEANING))]
                                    + (if st == Ok then [Waited(10000)] else [])
    ensures bus.replies == Drop(old(bus.replies), 1)
  {
    var buf := NewPointerBuffer(CMD_START_FAN_CLEANING);
    var sent := bus.Transmit(I2C_ADDR, buf, 2);
    if sent != Ok {
      return Error;
    }
    bus.Delay(10000);
    return Ok;
  }

  /** SPS30_WakeUp: send the wake-up pointer, wait 5 ms, send it again.
      A failed first transfer ends the command before the delay. */
  method WakeUp(bus: FakeBus) returns (st: Status)
    modifies bus
    ensures st == Ok <==> StatusAt(old(bus.replies), 0) == Ok && StatusAt(old(bus.replies), 1) == Ok
    ensures st != Ok ==> st == Error
    ensures StatusAt(old(bus.replies), 0) != Ok ==>
              bus.log == old(bus.log) + [Sent(I2C_ADDR, PointerFrame(CMD_WAKEUP))]
              && bus.replies == Drop(old(bus.replies), 1)
    ensures StatusAt(old(bus.replies), 0) == Ok ==>
              bus.log == old(bus.log) + [Sent(I2C_ADDR, PointerFrame(CMD_WAKEUP)), Waited(5),
                                         Sent(I2C_ADDR, PointerFrame(CMD_WAKEUP))]
              && bus.replies == Drop(old(bus.replies), 2)
  {
    ghost var script := bus.replies;
    var buf := NewPointerBuffer(CMD_WAKEUP);
    var sent := bus.Transmit(I2C_ADDR, buf, 2);
    if sent != Ok {
      return Error;
    }
    bus.Delay(5);
    sent := bus.Transmit(I2C_ADDR, buf, 2);
    DropDrop(script, 1, 1);
    if sent != Ok {
      return Error;
    }
    return Ok;
  }

  /** SPS30_Sleep: send the sleep pointer; no delay. */
  method Sleep(bus: FakeBus) returns (st: Status)
    modifies bus
    ensures st == Ok <==> StatusAt(old(bus.replies), 0) == Ok
    ensures st != Ok ==> st == Error
    ensures bus.log == old(bus.log) + [Sent(I2C_ADDR, PointerFrame(CMD_SLEEP))]
    ensures bus.replies == Drop(old(bus.replies), 1)
  {
    var buf := NewPointerBuffer(CMD_SLEEP);
    var sent := bus.Transmit(I2C_ADDR, buf, 2);
    if sent != Ok {
      return Error;
    }
    return Ok;
  }
}

/** The BH1750 ambient-light sensor driver: single-byte commands, the
    measurement-time packing and the raw big-endian read. */
module Bh1750 {
  import opened Hal

  /** 0x23 << 1: the 7-bit address 0x23 (ADDR pin low) in the HAL's left-shifted form. */
  const ADDR: nat := 0x46

  const POWER_DOWN: bv8 := 0x00
  const POWER_ON: bv8 := 0x01
  const RESET: bv8 := 0x07

  // Continuous measurement modes
  const CONT_H_RES_MODE: bv8 := 0x10
  const CONT_H_RES_MODE2: bv8 := 0x11
  const CONT_L_RES_MODE: bv8 := 0x13

  // One-time measurement modes
  const ONE_H_RES_MODE: bv8 := 0x20
  const ONE_H_RES_MODE2: bv8 := 0x21
  const ONE_L_RES_MODE: bv8 := 0x23

  /** The lux value BH1750_CalcLux computes from a raw count (raw / 1.2 in
      single precision); the float division itself is not modelled. */
  datatype Lux = CalcLux(raw: bv16)

  datatype Option<T> = None | Some(value: T)

  /** The modes BH1750_ReadLux accepts: the three continuous ones. */
  predicate IsContinuousMode(mode: bv8)
  {
    mode == CONT_H_RES_MODE || mode == CONT_H_RES_MODE2 || mode == CONT_L_RES_MODE
  }

  /** How long BH1750_ReadLux waits for a conversion in the given mode (the typical
      conversion time plus a margin), or None for a mode it refuses. */
  function ConversionWait(mode: bv8): (wait: Option<nat>)
    ensures wait.Some? <==> IsContinuousMode(mode)
  {
    if mode == CONT_H_RES_MODE || mode == CONT_H_RES_MODE2 then Some(200)
    else if mode == CONT_L_RES_MODE then Some(30)
    else None
  }

  /** 200 ms for the two high-resolution modes, 30 ms for the low-resolution one. */
  lemma ConversionWaits()
    ensures ConversionWait(CONT_H_RES_MODE) == Some(200)
    ensures ConversionWait(CONT_H_RES_MODE2) == Some(200)
    ensures ConversionWait(CONT_L_RES_MODE) == Some(30)
  {
  }

  /** The one-time modes and the power commands are not accepted by BH1750_ReadLux. */
  lemma OneTimeModesRejected()
    ensures ConversionWait(ONE_H_RES_MODE) == None
    ensures ConversionWait(ONE_H_RES_MODE2) == None
    ensures ConversionWait(ONE_L_RES_MODE) == None
    ensures ConversionWait(POWER_DOWN) == None && ConversionWait(POWER_ON) == None
    ensures ConversionWait(RESET) == None
  {
  }

  // ---------------------------------------------------------------------------
  // Pure byte logic

  /** The two "change measurement time" instructions for an MTreg value:
      high = 01000_MT[7:5], low = 011_MT[4:0]. */
  function MeasurementTimeBytes(mtreg: bv8): (r: (bv8, bv8))
    ensures r.0 & 0xF8 == 0x40
    ensures r.1 & 0xE0 == 0x60
    ensures ((r.0 & 0x07) << 5) | (r.1 & 0x1F) == mtreg
  {
    (0x40 | (mtreg >> 5), 0x60 | (mtreg & 0x1F))
  }

  /** Every pair of instruction bytes of the right shape encodes exactly one MTreg value,
      so the packing is a bijection between MTreg values and well-shaped pairs. */
  lemma MeasurementTimeBytesOnto(high: bv8, low: bv8)
    requires high & 0xF8 == 0x40 && low & 0xE0 == 0x60
    ensures MeasurementTimeBytes(((high & 0x07) << 5) | (low & 0x1F)) == (high, low)
  {
  }

  /** The raw count from the two received bytes, most significant first. */
  function CombineBigEndian(msb: bv8, lsb: bv8): (raw: bv16)
    ensures raw as int == msb as int * 256 + lsb as int
    ensures ((raw >> 8) & 0xFF) as bv8 == msb && (raw & 0xFF) as bv8 == lsb
  {
    JoinBytes(msb, lsb);
    ((msb as bv16) << 8) | (lsb as bv16)
  }

  /** Shifting the high byte up and OR-ing in the low byte is the base-256 number msb, lsb. */
  lemma JoinBytes(msb: bv8, lsb: bv8)
    ensures (((msb as bv16) << 8) | (lsb as bv16)) as int == msb as int * 256 + lsb as int
  {
  }

  /** The raw count carried by the k-th reply of a script (missing bytes read as zero). */
  function RawReading(replies: seq<Reply>, k: nat): bv16
  {
    var data := Pad(DataAt(replies, k), 2);
    CombineBigEndian(data[0], data[1])
  }

  // ---------------------------------------------------------------------------
  // Commands

  /** Transmit one command byte to the sensor. */
  method SendByte(bus: FakeBus, b: bv8) returns (st: Status)
    modifies bus
    ensures st == StatusAt(old(bus.replies), 0)
    ensures bus.log == old(bus.log) + [Sent(ADDR, [b])]
    ensures bus.replies == Drop(old(bus.replies), 1)
  {
    var cmd := new bv8[1];
    cmd[0] := b;
    assert cmd[..1] == [b];
    st := bus.Transmit(ADDR, cmd, 1);
  }

  /** BH1750_ResetSensor: power on, wait 10 ms, reset; the first failed transfer
      ends the sequence and its status is returned. */
  method ResetSensor(bus: FakeBus) returns (st: Status)
    modifies bus
    ensures StatusAt(old(bus.replies), 0) != Ok ==>
              st == StatusAt(old(bus.replies), 0)
              && bus.log == old(bus.log) + [Sent(ADDR, [POWER_ON])]
              && bus.replies == Drop(old(bus.replies), 1)
    ensures StatusAt(old(bus.replies), 0) == Ok ==>
              st == StatusAt(old(bus.replies), 1)
              && bus.log == old(bus.log) + [Sent(ADDR, [POWER_ON]), Waited(10), Sent(ADDR, [RESET])]
              && bus.replies == Drop(old(bus.replies), 2)
  {
    ghost var script := bus.replies;
    st := SendByte(bus, POWER_ON);
    if st != Ok {
      return;
    }
    bus.Delay(10);
    st := SendByte(bus, RESET);
    DropDrop(script, 1, 1);
  }

  /** BH1750_PowerOn: the single byte 0x01; the transport status is returned as is. */
  method PowerOn(bus: FakeBus) returns (st: Status)
    modifies bus
    ensures st == StatusAt(old(bus.replies), 0)
    ensures bus.log == old(bus.log) + [Sent(ADDR, [0x01])]
    ensures bus.replies == Drop(old(bus.replies), 1)
  {
    st := SendByte(bus, POWER_ON);
  }

  /** BH1750_PowerDown: the single byte 0x00; the transport status is returned as is. */
  method PowerDown(bus: FakeBus) returns (st: Status)
    modifies bus
    ensures st == StatusAt(old(bus.replies), 0)
    ensures bus.log == old(bus.log) + [Sent(ADDR, [0x00])]
    ensures bus.replies == Drop(old(bus.replies), 1)
  {
    st := SendByte(bus, POWER_DOWN);
  }

  /** BH1750_SetMode: the mode byte itself, whatever it is; the transport status is returned as is. */
  method SetMode(bus: FakeBus, mode: bv8) returns (st: Status)
    modifies bus
    ensures st == StatusAt(old(bus.replies), 0)
    ensures bus.log == old(bus.log) + [Sent(ADDR, [mode])]
    ensures bus.replies == Drop(old(bus.replies), 1)
  {
    st := SendByte(bus, mode);
  }

  /** BH1750_ReadRaw: receive two bytes; on success store them big-endian in raw[0],
      on failure return the transport status and leave raw[0] as it was. */
  method ReadRaw(bus: FakeBus, raw: array<bv16>) returns (st: Status)
    requires raw.Length == 1
    modifies bus, raw
    ensures st == StatusAt(old(bus.replies), 0)
    ensures bus.log == old(bus.log) + [Requested(ADDR, 2)]
    ensures bus.replies == Drop(old(bus.replies), 1)
    ensures st == Ok ==> raw[0] == RawReading(old(bus.replies), 0)
    ensures st != Ok ==> raw[0] == old(raw[0])
  {
    var data := new bv8[2];
    st := bus.Receive(ADDR, data, 2);
    if st != Ok {
      return;
    }
    assert data[..2] == [data[0], data[1]];
    raw[0] := CombineBigEndian(data[0], data[1]);
  }

  /** BH1750_ReadLux: power on, set the mode, and only then check that the mode is
      a continuous one; wait for the conversion, read the raw count and store its
      lux value. Every failure returns at once; an unaccepted mode returns Error
      with nothing read and lux[0] left as it was. */
  method ReadLux(bus: FakeBus, mode: bv8, lux: array<Lux>) returns (st: Status)
    requires lux.Length == 1
    modifies bus, lux
    ensures StatusAt(old(bus.replies), 0) != Ok ==>
              st == StatusAt(old(bus.replies), 0)
              && bus.log == old(bus.log) + [Sent(ADDR, [POWER_ON])]
              && bus.replies == Drop(old(bus.replies), 1)
    ensures StatusAt(old(bus.replies), 0) == Ok && StatusAt(old(bus.replies), 1) != Ok ==>
              st == StatusAt(old(bus.replies), 1)
              && bus.log == old(bus.log) + [Sent(ADDR, [POWER_ON]), Sent(ADDR, [mode])]
              && bus.replies == Drop(old(bus.replies), 2)
    ensures StatusAt(old(bus.replies), 0) == Ok && StatusAt(old(bus.replies), 1) == Ok
            && !IsContinuousMode(mode) ==>
              st == Error
              && bus.log == old(bus.log) + [Sent(ADDR, [POWER_ON]), Sent(ADDR, [mode])]
              && bus.replies == Drop(old(bus.replies), 2)
    ensures StatusAt(old(bus.replies), 0) == Ok && StatusAt(old(bus.replies), 1) == Ok
            && IsContinuousMode(mode) ==>
              st == StatusAt(old(bus.replies), 2)
              && bus.log == old(bus.log) + [Sent(ADDR, [POWER_ON]), Sent(ADDR, [mode]),
                                            Waited(ConversionWait(mode).value), Requested(ADDR, 2)]
              && bus.replies == Drop(old(bus.replies), 3)
    ensures st == Ok ==> IsContinuousMode(mode) && lux[0] == CalcLux(RawReading(old(bus.replies), 2))
    ensures st != Ok ==> lux[0] == old(lux[0])
  {
    ghost var script := bus.replies;
    st := PowerOn(bus);
    if st != Ok {
      return;
    }
    st := SetMode(bus, mode);
    DropDrop(script, 1, 1);
    if st != Ok {
      return;
    }
    var wait := ConversionWait(mode);
    if wait.None? {
      return Error;
    }
    bus.Delay(wait.value);
    var raw := new bv16[1];
    st := ReadRaw(bus, raw);
    DropDrop(script, 2, 1);
    if st != Ok {
      return;
    }
    lux[0] := CalcLux(raw[0]);
  }

  /** BH1750_SetMeasurementTime: send the high instruction byte, then the low one;
      a failed first transfer returns its status and the low byte is never sent. */
  method SetMeasurementTime(bus: FakeBus, mtreg: bv8) returns (st: Status)
    modifies bus
    ensures StatusAt(old(bus.replies), 0) != Ok ==>
              st == StatusAt(old(bus.replies), 0)
              && bus.log == old(bus.log) + [Sent(ADDR, [MeasurementTimeBytes(mtreg).0])]
              && bus.replies == Drop(old(bus.replies), 1)
    ensures StatusAt(old(bus.replies), 0) == Ok ==>
              st == StatusAt(old(bus.replies), 1)
              && bus.log == old(bus.log) + [Sent(ADDR, [MeasurementTimeBytes(mtreg).0]),
                                            Sent(ADDR, [MeasurementTimeBytes(mtreg).1])]
              && bus.replies == Drop(old(bus.replies), 2)
  {
    ghost var script := bus.replies;
    var (high, low) := MeasurementTimeBytes(mtreg);
    st := SendByte(bus, high);
    if st != Ok {
      return;
    }
    st := SendByte(bus, low);
    DropDrop(script, 1, 1);
  }
}

# SPS30 and BH1750 I2C drivers in Dafny

This project models two small STM32 HAL sensor drivers and proves properties of
their byte-level logic.

- The Sensirion SPS30 particulate-matter sensor driver (`Libraries/SPS30.c`).
  It has the Sensirion CRC-8 (`SPS30_CalcCRC`: polynomial 0x31, initial value
  0xFF, MSB first, no reflection, no final XOR). It also has four pointer-only
  commands: device reset, start fan cleaning, wake-up and sleep. Each command
  sends its 16-bit opcode as a 2-byte big-endian frame to address 0x69.
- The ROHM BH1750 ambient-light sensor driver (`Libraries/BH1750.c`). It has
  single-byte commands (power on, power down, reset, set mode), the two-byte
  "change measurement time" packing of the MTreg value and the 2-byte
  big-endian raw read. `BH1750_ReadLux` checks the mode only after the
  power-on and mode bytes have gone out.

The shared I2C handle `hi2c1` becomes an explicit `Hal.FakeBus` object that
each driver operation receives. The fake works as follows:

- It logs every transmit (address and bytes), every receive request (address
  and byte count) and every `HAL_Delay` (milliseconds) in `log`.
- It answers each transfer with the next `Reply` of a script held in
  `replies`. A reply is a HAL status (`Ok`, `Error`, `Busy`, `Timeout`) plus
  the bytes a receive delivers.
- Once the script is used up, every transfer is acknowledged with `Ok`, and a
  receive then delivers zero bytes.
- A failed receive leaves the caller's buffer untouched.

Every command method states its whole effect in terms of the script it was
given. It says which events are appended to the log and in what order, what
is skipped after a failure, which status is returned and how much of the
script is consumed. The out-pointers `*raw` and `*lux` are one-element
arrays. The method contracts say when these are written and when they are
left alone.

Module layout: `hal.dfy` (the fake bus), `sps30.dfy` (module `Sps30`, with the
constants of `Libraries/SPS0.h`), `bh1750.dfy` (module `Bh1750`, with the
constants of `Libraries/BH1750.h`). Bytes are `bv8` (`uint8_t`). Opcodes and
raw counts are `bv16` (`uint16_t`). So the CRC accumulator wraps at 8 bits
exactly as the C assignment to a `uint8_t` does. The raw count is below 65536
by its type.

The CRC is specified as a left fold of a per-byte step: XOR the byte in, then
do eight shift rounds. The nested-loop method `CalcCrc` is proved equal to
that fold.

On that fold the model proves several facts:

- Appending a byte applies exactly one more step.
- The Sensirion check value holds: 0xBE 0xEF gives 0x92.
- Every shift round is injective.
- As a consequence, changing any single byte of a message of any length
  always changes its CRC. For the protocol's 2-byte words, this means that
  changing either data byte changes the checksum.

## Model

| member | source | states |
|---|---|---|
| `Sps30.CalcCrc` | Libraries/SPS30.c:13-28 | the nested byte/bit loop returns the CRC-8 fold of the first `length` bytes; no bytes gives 0xFF |
| `Sps30.CrcFoldConcat` | Libraries/SPS30.c:16-25 | the per-byte loop is a left fold: processing `a + b` is processing `a`, then `b` from the accumulator reached |
| `Sps30.CrcAppend` | Libraries/SPS30.c:16-25 | CRC(a ++ [b]) = step(CRC(a), b): one more byte is one more XOR-and-eight-rounds step |
| `Sps30.CrcTestVector` | Libraries/SPS30.c:13-28 | the Sensirion check value: CRC of [0xBE, 0xEF] is 0x92 |
| `Sps30.CrcRoundInjective` | Libraries/SPS30.c:19-23 | one shift round (with the conditional XOR of 0x31) maps different accumulators to different ones |
| `Sps30.CrcRoundsInjective` | Libraries/SPS30.c:18-24 | any number of rounds, in particular the 8 of the bit loop, is injective |
| `Sps30.CrcStepSeparatesBytes` | Libraries/SPS30.c:16-25 | from one accumulator, two different input bytes give two different accumulators |
| `Sps30.CrcFoldInjective` | Libraries/SPS30.c:16-25 | two different accumulators stay different whatever bytes follow |
| `Sps30.CrcDetectsSingleByteError` | Libraries/SPS30.c:13-28 | two equally long messages that differ in exactly one byte have different CRCs |
| `Sps30.WordCrcDetectsByteChange` | Libraries/SPS30.c:13-28 | for a 2-byte word, changing either data byte alone always changes the CRC |
| `Sps30.PointerFrame` | Libraries/SPS30.c:35-36 | the frame `[(op>>8)&0xFF, op&0xFF]` has two bytes and `buf[0]*256 + buf[1] == op` |
| `Sps30.SplitWord` | Libraries/SPS30.c:35-36 | the MSB and LSB of a 16-bit word, read as numbers, make up the word |
| `Sps30.PointerFrameRoundTrip` | Libraries/SPS30.c:35-36 | framing is a bijection: opcode → frame → opcode and frame → opcode → frame are identities |
| `Sps30.CommandFrames` | Libraries/SPS0.h:49-87 | reset, fan cleaning, wake-up and sleep put 0xD3 0x04, 0x56 0x07, 0x11 0x03 and 0x10 0x01 on the wire |
| `Sps30.NewPointerBuffer` | Libraries/SPS30.c:32-36 | the local 2-byte `buf` holds the pointer frame of the opcode |
| `Sps30.DeviceReset` | Libraries/SPS30.c:30-44 | one 2-byte write of 0xD304 to 0x69; a non-OK transport status becomes `Error` with no delay; on success a 100 ms delay and `Ok` |
| `Sps30.StartFanCleaning` | Libraries/SPS30.c:46-59 | one write of 0x5607 to 0x69; failure gives `Error` with no delay; success logs a 10000 ms delay and gives `Ok` |
| `Sps30.WakeUp` | Libraries/SPS30.c:61-80 | 0x1103 written, 5 ms delay, 0x1103 written again; a failed first write skips the delay and the second write; only `Ok` or `Error` is returned |
| `Sps30.Sleep` | Libraries/SPS30.c:82-95 | one write of 0x1001 to 0x69 and no delay; any non-OK status becomes `Error` |
| `Bh1750.ConversionWait` | Libraries/BH1750.c:85-96 | a mode has a conversion wait exactly when it is one of the three continuous modes 0x10, 0x11, 0x13 |
| `Bh1750.ConversionWaits` | Libraries/BH1750.c:87-93 | 200 ms for 0x10 and 0x11, 30 ms for 0x13 |
| `Bh1750.OneTimeModesRejected` | Libraries/BH1750.h:19-31 | the one-time modes 0x20, 0x21, 0x23 and the power/reset opcodes are refused by the mode switch |
| `Bh1750.MeasurementTimeBytes` | Libraries/BH1750.c:112-113 | high has top bits 01000, low has top bits 011, and `((high & 7) << 5)` OR-ed with `(low & 0x1F)` gives back MTreg |
| `Bh1750.MeasurementTimeBytesOnto` | Libraries/BH1750.c:112-113 | every well-shaped (high, low) pair is the packing of exactly the MTreg it decodes to (the packing is a bijection) |
| `Bh1750.CombineBigEndian` | Libraries/BH1750.c:59 | `data[0] << 8` OR-ed with `data[1]` equals `data[0]*256 + data[1]`, and both bytes are recoverable from it |
| `Bh1750.JoinBytes` | Libraries/BH1750.c:59 | the shift-and-OR of two bytes is their base-256 value |
| `Bh1750.ResetSensor` | Libraries/BH1750.c:11-28 | sends 0x01, waits 10 ms, sends 0x07; a failed first write stops before the delay and returns its status; otherwise the second write's status is returned |
| `Bh1750.PowerOn` | Libraries/BH1750.c:31-35 | exactly one byte 0x01 to 0x46; the transport status unchanged |
| `Bh1750.PowerDown` | Libraries/BH1750.c:38-42 | exactly one byte 0x00 to 0x46; the transport status unchanged |
| `Bh1750.SetMode` | Libraries/BH1750.c:44-47 | exactly one byte, the mode itself, whatever its value; the transport status unchanged |
| `Bh1750.ReadRaw` | Libraries/BH1750.c:50-62 | one 2-byte receive; on success `*raw` is the big-endian combination of the received bytes; on failure the status is returned unchanged and `*raw` is not written |
| `Bh1750.ReadLux` | Libraries/BH1750.c:69-106 | power-on, then mode byte, then the mode check; a refused mode returns `Error` after both bytes were sent, with no read and `*lux` unwritten; continuous modes wait 200/30 ms and read; every earlier failure returns its status verbatim; `*lux` is written only on success |
| `Bh1750.SetMeasurementTime` | Libraries/BH1750.c:109-122 | sends high before low; a failed high write returns its status and low is never sent |

## Left out

- The SPS30 operations declared in `Libraries/SPS0.h:162-180` (start/stop
  measurement, auto-cleaning interval read/write, device info, product type,
  serial number) have no bodies in the driver sources. So they are not part of
  this model. Neither are the checksum-validated multi-word reads, the value
  decoders or the measurement-start payload that they would need. The float
  measurement struct (`Libraries/SPS0.h:113-124`) goes with them.
- `SPS30_CalcCRC` accepts any length up to 65535. The model follows that code
  rather than a 2-byte-only checksum, so every CRC lemma holds for messages of
  any length.
- `BH1750_CalcLux` divides by 1.2f in single precision, which is floating
  point. `Bh1750.Lux` is the opaque value `CalcLux(raw)`. `ReadLux` is proved
  to store `CalcLux` of the raw count it read; the division itself is not
  modelled.
- Real I2C transfers, bus timeouts (`I2C_TIMEOUT` = 1000, `HAL_MAX_DELAY`) and
  the passage of time in `HAL_Delay` are left out. The fake only records the
  delay argument.
- The address argument is logged as the drivers pass it. The BH1750 driver
  passes the left-shifted form `0x23 << 1` = 0x46, while the SPS30 driver
  passes 0x69 unshifted. The HAL's own address convention is not part of this
  model, so the model does not judge which form reaches the wire.
- The driver keeps no sensor state (sleep, idle, measuring), and the model
  adds none.

# SDS011 serial frame logic in Dafny

A model of the frame handling in `sds011.py`, a small script that talks to a
Nova SDS011 particulate-matter sensor over a serial line. The model covers:

- the two fixed 19-byte "set working mode" commands, `SLEEP_BYTES` and
  `WAKE_BYTES`;
- `wake_up` and `sleep`, which send a template one byte per `ser.write` call;
- `sensor_read`. It reads 11-byte attempts (`read(1)` then `read(10)`) until
  one has the data-report command id 0xC0 at offset 1. It then checks that
  chunk's 8-bit additive checksum and its tail byte 0xAB, and decodes the two
  little-endian uint16 PM values.

Files:

- `bytes.dfy` (module `Bytes`): the byte type, the head and tail bytes that
  both frames share, `Sum`, `Checksum`, `U16Le`.
- `commands.dfy` (module `Commands`): the templates, the protocol's command
  layout `CommandFrame`, and the write loop.
- `reader.dfy` (module `Reader`): `Unpack`, `Decode`, the specification
  function `ReadFrom` and the method `SensorRead`.

How the serial port is modelled:

- Writes are a value `seq<seq<byte>>` with one entry per `ser.write` call.
  `Flatten` gives the bytes on the line.
- Reads are a finite `seq<byte>` with a cursor. `SensorRead` returns the
  outcome and the cursor after the call.
- The outcome is `Accepted(Reading)`, or `Rejected` for the source's bare
  `return` (None), or `Exhausted`.
- `Exhausted` is a modelling choice. It means fewer than 11 bytes remain, and
  the cursor stays at the start of that incomplete attempt. On a real port the
  source would block there, or fail inside struct unpacking or indexing.
- Readings are kept in the sensor's native unit, tenths of µg/m³: the raw
  uint16 that the source divides by 10.0.

The model follows the code where it differs from the protocol description:

- No head byte is checked. In Python 3, `byte != "\xaa"` compares `bytes` with
  `str`, so it is always true. The loop is `while true` and ends only by
  returning. `ReadFromReadsOnlyFrameBytes` proves that a chunk's head byte
  (offset 0) and its last byte (offset 10) never affect the result.
- There is no rescan. A chunk whose byte at offset 1 is not 0xC0 is dropped
  whole (`SkippedChunkIgnored`, `NoRescanLosesFrame`).
- Checksum and tail failures are one outcome. Either one ends the call with
  "no reading"; the source does not tell them apart.
- Each attempt is 11 bytes, one more than a 10-byte report. For reports sent
  back to back, the second call therefore misses the second report
  (`BackToBackReports`).

## Model

| member | source | states |
|---|---|---|
| `Bytes.Sum` | sds011.py:102 | the byte sum of a slice is at most 255 per byte and is 0 for an empty slice |
| `Bytes.Checksum` | sds011.py:102 | `sum(d[2:8]) % 256` as a byte: 0 for an empty slice, the byte itself for a single byte |
| `Bytes.ChecksumRunning` | sds011.py:102 | truncating the full sum equals adding the bytes one at a time in an 8-bit accumulator that wraps around |
| `Bytes.ChecksumDetectsSingleChange` | sds011.py:102 | changing any single byte of the summed range changes `sum(...) % 256` |
| `Bytes.U16Le` | sds011.py:99 | a `<H` field is a value below 65536 whose low byte is the first byte and whose high byte is the second |
| `Bytes.U16LeInjective` | sds011.py:99 | two `<H` fields decode equal only when both bytes are equal |
| `Bytes.U16LeSurjective` | sds011.py:99 | every value below 65536 is the decoding of its own low and high bytes |
| `Commands.TemplatesLayout` | sds011.py:25-63 | both templates: length 19, `AA B4 06 01`, mode byte, ten 0x00 at offsets 5-14, `FF FF`, 0x05 at 17, `AB` at 18; they differ only at offset 4 (0x00 sleep, 0x01 wake) |
| `Commands.CommandBodySum` | sds011.py:27-41 | bytes 2 to 16 of a mode command sum to 517 plus the mode byte |
| `Commands.CommandFrame` | sds011.py:25-43 | the protocol frame for a mode has the template layout and byte 17 equal to the checksum of bytes 2-16 |
| `Commands.SleepTemplateValid` | sds011.py:25-43 | `SLEEP_BYTES` is exactly the protocol frame for mode 0x00; its checksum 0x05 is correct |
| `Commands.WakeChecksumMismatch` | sds011.py:45-63 | the checksum of `WAKE_BYTES` bytes 2-16 is 0x06, yet byte 17 is 0x05, so the template is not a valid frame; it equals the correct wake frame with byte 17 replaced by 0x05 |
| `Commands.WriteTemplate` | sds011.py:81-82 | the loop makes one write per template byte, in order; the sink's record grows by exactly those writes, and the bytes on the line grow by exactly the template |
| `Commands.WakeUp` | sds011.py:79-83 | the sink receives `WAKE_BYTES`, one byte per write, and nothing else |
| `Commands.Sleep` | sds011.py:86-88 | the sink receives `SLEEP_BYTES`, one byte per write, and nothing else; those bytes are the valid sleep frame |
| `Commands.WakeUpCorrected` | sds011.py:79-83 | with the checksum computed, the sink receives the valid wake frame |
| `Reader.Unpack` | sds011.py:99 | `<HHxxBBB` gives PM2.5 with low byte `p[0]` and high byte `p[1]`, PM10 with low byte `p[2]` and high byte `p[3]` (both below 65536), skips the two pad bytes, and returns `p[6]`, `p[7]`, `p[8]` as checksum, tail and trailing byte |
| `Reader.UnpackSkipsPadding` | sds011.py:99 | two 9-byte inputs unpack alike exactly when they agree outside the pad bytes (both directions) |
| `Reader.IsDataChunk` | sds011.py:98 | the test `d[1].to_bytes(1, byteorder='big') == b'\xc0'` holds exactly when the byte at offset 1 of the attempt is 0xC0 |
| `Reader.Decode` | sds011.py:98-107 | a chunk is accepted exactly when `(d[2]+...+d[7]) % 256 == d[8]` and `d[9] == 0xAB`; an accepted chunk gives PM2.5 `d[2] + 256*d[3]` and PM10 `d[4] + 256*d[5]`, both below 65536 |
| `Reader.ReadFrom` | sds011.py:93-107 | the cursor moves by a multiple of 11; the call stops at the first attempt with 0xC0 at offset 1 and decodes exactly those 11 bytes; every earlier attempt lacked 0xC0; it is exhausted only when fewer than 11 bytes remain |
| `Reader.SensorRead` | sds011.py:91-107 | the read loop (11 bytes per attempt, drop or decode, return) yields exactly `ReadFrom`'s outcome and cursor |
| `Reader.DecodeReadsOnlyFrameBytes` | sds011.py:98-104 | the decision and the values depend only on `d[2..9]`; `d[0]` and `d[10]` are ignored |
| `Reader.ReadingIgnoresDeviceId` | sds011.py:99-101 | the device id bytes `d[6]`, `d[7]` do not reach the reading |
| `Reader.SingleByteCorruptionRejected` | sds011.py:102-106 | changing any one of `d[2..9]` of an accepted chunk, including the device id bytes, makes it rejected |
| `Reader.ReadFromReadsOnlyFrameBytes` | sds011.py:94-104 | over a whole stream, the outcome and cursor depend only on offsets 1-9 of each attempt; no head byte is ever checked |
| `Reader.ReadFromSuffix` | sds011.py:96-97 | a call reads nothing before its cursor |
| `Reader.ReadFromOffset` | sds011.py:96-97 | reading from cursor `off` is reading the suffix from 0, with the cursor shifted by `off` |
| `Reader.SkippedChunkIgnored` | sds011.py:98 | an attempt without 0xC0 at offset 1 is dropped whole: replacing its contents by any other non-0xC0 chunk changes nothing, and the call continues 11 bytes later |
| `Reader.NoiseChunksThenFrame` | sds011.py:94-98 | whole noise chunks without 0xC0 at offset 1, followed by a 0xC0 chunk: that chunk is decoded and everything is consumed |
| `Reader.ExampleChecksum` | sds011.py:102 | the checksum of `28 00 3C 00 00 00` is 0x64 |
| `Reader.ExampleChunkAccepted` | sds011.py:98-107 | `AA C0 28 00 3C 00 00 00 64 AB xx` is accepted on the first attempt with PM2.5 40 and PM10 60 (tenths), cursor 11 |
| `Reader.CorruptThenValid` | sds011.py:102-106 | a bad-checksum chunk ends the first call with no reading at cursor 11; the next call decodes the following chunk |
| `Reader.NoRescanLosesFrame` | sds011.py:96-98 | a complete report starting two bytes into a dropped chunk is never decoded, and the call ends exhausted |
| `Reader.BackToBackReports` | sds011.py:96-99 | with 10-byte reports back to back, the first call decodes report one and consumes the head of report two; the second call drops report two and ends exhausted |

## Findings

| source | as written | input that shows it | evidently intended | confidence | as-written member | corrected member |
|---|---|---|---|---|---|---|
| sds011.py:62 | the wake template stores checksum byte 0x05, copied from the sleep template | `WAKE_BYTES` bytes 2-16: 0x06+0x01+0x01+0xFF+0xFF = 518, and 518 mod 256 = 6 | checksum byte 0x06, the sum of bytes 2-16 mod 256 | high; not executed | `Commands.WakeChecksumMismatch` | `Commands.CommandFrame` (used by `Commands.WakeUpCorrected`) |

The comment on the mode byte of `WAKE_BYTES` (sds011.py:49) says "(sleep)".
The byte itself is 0x01, the wake mode.

## Left out

- `open_serial` and the port setup (baud rate, `flushInput`). This is I/O on
  the pyserial library, which is not part of this model.
- `main`, docopt argument parsing, and the endless polling loop. These are
  command-line glue.
- Logging: the logger setup and every `logger` call. They are side effects
  only.
- The timestamp from `datetime.datetime.now()`. The wall clock is not
  modelled, so a reading carries the two PM values only.
- The division by 10.0. Floating point is not modelled. Values stay in integer
  tenths of µg/m³, the raw uint16.
- Blocking and short reads of `ser.read`, and the struct or index errors that
  a short chunk would raise. The model reports `Exhausted` instead.

/** The inbound side: `sensor_read`, which pulls fixed 11-byte chunks off the
    serial stream until one carries the data-report command id, then validates
    and decodes that chunk. The stream is a finite sequence with a cursor. */
module Reader {
  import opened Bytes

  /** The first read of an attempt, `ser.read(size=1)`. */
  const HEAD_READ := 1
  /** The second read of an attempt, `ser.read(size=10)`. */
  const BODY_READ := 10
  /** Bytes consumed by one attempt. */
  const CHUNK := HEAD_READ + BODY_READ
  /** Command id of a data report, expected at offset 1 of a chunk. */
  const DATA_COMMAND_ID: byte := 0xC0

  /** The fields of `struct.unpack('<HHxxBBB', d[2:])`. */
  datatype Unpacked = Unpacked(pm25: nat, pm10: nat, checksum: byte, tail: byte, trailing: byte)

  /** A measurement in the sensor's native unit, tenths of a microgram per
      cubic metre (the source divides these raw values by 10). */
  datatype Reading = Reading(pm25: nat, pm10: nat)

  /** What one call of `sensor_read` ends with: a reading, "no reading" after a
      failed checksum or tail check, or a stream too short for another attempt. */
  datatype Outcome = Accepted(reading: Reading) | Rejected | Exhausted

  /** `<HHxxBBB` over nine bytes: two little-endian uint16, two pad bytes, then
      three single bytes. */
  function Unpack(p: seq<byte>): (r: Unpacked)
    requires |p| == 9
    ensures r.pm25 < 0x1_0000 && r.pm10 < 0x1_0000
    ensures r.pm25 % 256 == p[0] && r.pm25 / 256 == p[1]
    ensures r.pm10 % 256 == p[2] && r.pm10 / 256 == p[3]
    ensures r.checksum == p[6] && r.tail == p[7] && r.trailing == p[8]
  {
    Unpacked(U16Le(p[0], p[1]), U16Le(p[2], p[3]), p[6], p[7], p[8])
  }

  /** Two inputs unpack alike exactly when they agree outside the pad bytes. */
  lemma UnpackSkipsPadding(p: seq<byte>, q: seq<byte>)
    requires |p| == 9 && |q| == 9
    ensures Unpack(p) == Unpack(q) <==> p[..4] == q[..4] && p[6..] == q[6..]
  {
  }

  /** The body of the `if d[1] == 0xc0` branch: the checksum over d[2..8] must
      equal d[8] and d[9] must be the tail byte. */
  function Decode(d: seq<byte>): (r: Outcome)
    requires |d| == CHUNK
    ensures !r.Exhausted?
    ensures r.Accepted? <==> Checksum(d[2..8]) == d[8] && d[9] == TAIL
    ensures r.Accepted? ==> r.reading.pm25 == d[2] as int + 256 * d[3] as int
    ensures r.Accepted? ==> r.reading.pm10 == d[4] as int + 256 * d[5] as int
    ensures r.Accepted? ==> r.reading.pm25 < 0x1_0000 && r.reading.pm10 < 0x1_0000
  {
    var fields := Unpack(d[2..]);
    var checksum := Checksum(d[2..8]);
    if checksum == fields.checksum && fields.tail == TAIL then
      Accepted(Reading(fields.pm25, fields.pm10))
    else
      Rejected
  }

  /** Whether the attempt starting at `k` finds the data-report command id:
      `d[1].to_bytes(1, byteorder='big') == b'\xc0'`, a one-byte string
      compared with a one-byte string, which is plain byte equality. */
  predicate IsDataChunk(input: seq<byte>, k: nat)
    requires k + 1 < |input|
    ensures IsDataChunk(input, k) <==> input[k + 1] == DATA_COMMAND_ID
  {
    [input[k + 1]] == [DATA_COMMAND_ID]
  }

  /** Start of the attempt with index `j` of a call that starts at `pos`. */
  function ChunkStart(pos: nat, j: nat): nat {
    pos + CHUNK * j
  }

  /** How many attempts of a call were dropped: all of them when the stream
      ran out, all but the decoded one otherwise. */
  function Dropped(pos: nat, r: (Outcome, nat)): int {
    if r.0.Exhausted? then (r.1 - pos) / CHUNK else (r.1 - pos) / CHUNK - 1
  }

  /** The whole of one `sensor_read` call on `input` from cursor `pos`: the
      outcome and the cursor afterwards. Attempts take 11 bytes each; one whose
      offset-1 byte is not 0xC0 is dropped whole; the first that has it is
      decoded and ends the call, accepted or not. */
  function ReadFrom(input: seq<byte>, pos: nat): (r: (Outcome, nat))
    requires pos <= |input|
    ensures pos <= r.1 <= |input| && (r.1 - pos) % CHUNK == 0
    ensures r.0.Exhausted? ==> |input| - r.1 < CHUNK
    ensures !r.0.Exhausted? ==>
      pos + CHUNK <= r.1 && IsDataChunk(input, r.1 - CHUNK) &&
      r.0 == Decode(input[r.1 - CHUNK..r.1])
    ensures forall j :: 0 <= j < Dropped(pos, r) ==> !IsDataChunk(input, ChunkStart(pos, j))
    decreases |input| - pos
  {
    if |input| - pos < CHUNK then
      (Exhausted, pos)
    else if IsDataChunk(input, pos) then
      (Decode(input[pos..pos + CHUNK]), pos + CHUNK)
    else
      var r := ReadFrom(input, pos + CHUNK);
      assert forall j :: 0 < j < Dropped(pos, r) ==> ChunkStart(pos, j) == ChunkStart(pos + CHUNK, j - 1);
      r
  }

  /** sensor_read. In Python 3 the loop guard `byte != "\xaa"` compares bytes
      with a str and is always true, so the loop ends only by returning. */
  method SensorRead(input: seq<byte>, start: nat) returns (outcome: Outcome, cursor: nat)
    requires start <= |input|
    ensures (outcome, cursor) == ReadFrom(input, start)
  {
    cursor := start;
    while true
      invariant start <= cursor <= |input|
      invariant ReadFrom(input, cursor) == ReadFrom(input, start)
      decreases |input| - cursor
    {
      if |input| - cursor < HEAD_READ + BODY_READ {
        return Exhausted, cursor;
      }
      var head := input[cursor..cursor + HEAD_READ];
      var d := head + input[cursor + HEAD_READ..cursor + CHUNK];
      assert d == input[cursor..cursor + CHUNK];
      cursor := cursor + CHUNK;
      if d[1] == DATA_COMMAND_ID {
        outcome := Decode(d);
        return;
      }
    }
  }

  // ---------------------------------------------------------------------------
  // What the decision and the decoded values depend on

  /** Only bytes 2 to 9 of a chunk are looked at by the decoder: the head byte
      d[0] is never checked and the trailing byte d[10] is ignored. */
  lemma DecodeReadsOnlyFrameBytes(d: seq<byte>, e: seq<byte>)
    requires |d| == CHUNK && |e| == CHUNK
    requires d[2..10] == e[2..10]
    ensures Decode(d) == Decode(e)
  {
    assert d[2..8] == d[2..10][..6] && e[2..8] == e[2..10][..6];
    assert d[8] == e[8] && d[9] == e[9];
    assert d[2] == e[2] && d[3] == e[3] && d[4] == e[4] && d[5] == e[5];
  }

  /** The device id bytes d[6] and d[7] do not reach the reading. */
  lemma ReadingIgnoresDeviceId(d: seq<byte>, e: seq<byte>)
    requires |d| == CHUNK && |e| == CHUNK
    requires Decode(d).Accepted? && Decode(e).Accepted?
    requires d[2..6] == e[2..6]
    ensures Decode(d).reading == Decode(e).reading
  {
  }

  /** Changing any one of bytes 2 to 9 of an accepted chunk, the device id
      bytes included, makes it rejected. */
  lemma SingleByteCorruptionRejected(d: seq<byte>, i: nat, x: byte)
    requires |d| == CHUNK && Decode(d).Accepted?
    requires 2 <= i <= 9 && x != d[i]
    ensures Decode(d[i := x]) == Rejected
  {
    var e := d[i := x];
    if i < 8 {
      assert e[2..8] == d[2..8][i - 2 := x];
      ChecksumDetectsSingleChange(d[2..8], i - 2, x);
    } else {
      assert e[2..8] == d[2..8];
    }
  }

  /** Two streams that agree, chunk by chunk from `pos`, on offsets 1 to 9. */
  predicate AgreeOnFrameBytes(a: seq<byte>, b: seq<byte>, pos: nat) {
    |a| == |b| &&
    forall k :: pos <= k < |a| && 1 <= (k - pos) % CHUNK <= 9 ==> a[k] == b[k]
  }

  /** Streams that agree on frame bytes agree on the command byte and on
      bytes 2 to 9 of the first chunk. */
  lemma AgreeOnFirstChunk(a: seq<byte>, b: seq<byte>, pos: nat)
    requires pos + CHUNK <= |a| && AgreeOnFrameBytes(a, b, pos)
    ensures a[pos + 1] == b[pos + 1]
    ensures a[pos..pos + CHUNK][2..10] == b[pos..pos + CHUNK][2..10]
  {
    var d, e := a[pos..pos + CHUNK], b[pos..pos + CHUNK];
    forall j | 1 <= j < 10
      ensures d[j] == e[j]
    {
      assert (pos + j - pos) % CHUNK == j;
      assert d[j] == a[pos + j] && e[j] == b[pos + j];
    }
    assert d[1] == e[1];
  }

  /** Agreement on frame bytes carries over to the next chunk boundary. */
  lemma AgreeOnNextChunk(a: seq<byte>, b: seq<byte>, pos: nat)
    requires pos + CHUNK <= |a| && AgreeOnFrameBytes(a, b, pos)
    ensures AgreeOnFrameBytes(a, b, pos + CHUNK)
  {
    forall k | pos + CHUNK <= k < |a| && 1 <= (k - (pos + CHUNK)) % CHUNK <= 9
      ensures a[k] == b[k]
    {
      assert (k - pos) % CHUNK == (k - (pos + CHUNK)) % CHUNK;
    }
  }

  /** Over a whole stream, the outcome and the cursor depend only on offsets 1
      to 9 of each chunk: no head byte is ever checked. */
  lemma {:induction false} ReadFromReadsOnlyFrameBytes(a: seq<byte>, b: seq<byte>, pos: nat)
    requires pos <= |a| && AgreeOnFrameBytes(a, b, pos)
    ensures ReadFrom(a, pos) == ReadFrom(b, pos)
    decreases |a| - pos
  {
    if |a| - pos >= CHUNK {
      AgreeOnFirstChunk(a, b, pos);
      if IsDataChunk(a, pos) {
        DecodeReadsOnlyFrameBytes(a[pos..pos + CHUNK], b[pos..pos + CHUNK]);
      } else {
        AgreeOnNextChunk(a, b, pos);
        ReadFromReadsOnlyFrameBytes(a, b, pos + CHUNK);
      }
    }
  }

  /** ReadFrom looks at nothing before its cursor. */
  lemma {:induction false} ReadFromSuffix(a: seq<byte>, b: seq<byte>, pos: nat)
    requires pos <= |a| && |a| == |b| && a[pos..] == b[pos..]
    ensures ReadFrom(a, pos) == ReadFrom(b, pos)
    decreases |a| - pos
  {
    if |a| - pos >= CHUNK {
      assert a[pos + 1] == a[pos..][1] && b[pos + 1] == b[pos..][1];
      assert a[pos..pos + CHUNK] == a[pos..][..CHUNK] && b[pos..pos + CHUNK] == b[pos..][..CHUNK];
      assert a[pos + CHUNK..] == a[pos..][CHUNK..] && b[pos + CHUNK..] == b[pos..][CHUNK..];
      ReadFromSuffix(a, b, pos + CHUNK);
    }
  }

  /** No rescan: a chunk without the data command id is dropped whole, so
      whatever else it contains (a head byte 0xAA, a 0xC0, a complete frame
      start) has no effect on the call. */
  lemma SkippedChunkIgnored(input: seq<byte>, pos: nat, c: seq<byte>)
    requires pos + CHUNK <= |input| && |c| == CHUNK
    requires !IsDataChunk(input, pos) && c[1] != DATA_COMMAND_ID
    ensures ReadFrom(input[..pos] + c + input[pos + CHUNK..], pos) == ReadFrom(input, pos)
    ensures ReadFrom(input, pos) == ReadFrom(input, pos + CHUNK)
  {
    var other := input[..pos] + c + input[pos + CHUNK..];
    assert other[pos + 1] == c[1];
    assert other[pos + CHUNK..] == input[pos + CHUNK..];
    ReadFromSuffix(other, input, pos + CHUNK);
  }

  /** Noise in whole chunks, none with 0xC0 at offset 1, followed by one chunk
      that has it: that chunk is decoded and the call consumes everything. */
  lemma {:induction false} NoiseChunksThenFrame(noise: seq<seq<byte>>, frame: seq<byte>)
    requires forall i :: 0 <= i < |noise| ==> |noise[i]| == CHUNK && noise[i][1] != DATA_COMMAND_ID
    requires |frame| == CHUNK && frame[1] == DATA_COMMAND_ID
    ensures ReadFrom(Flatten(noise) + frame, 0) == (Decode(frame), |Flatten(noise)| + CHUNK)
    decreases |noise|
  {
    var input := Flatten(noise) + frame;
    if noise == [] {
      assert input == frame;
      assert input[0..CHUNK] == frame;
    } else {
      var rest := Flatten(noise[1..]) + frame;
      assert input == noise[0] + rest;
      assert input[1] == noise[0][1];
      assert input[CHUNK..] == rest;
      assert ReadFrom(input, 0) == ReadFrom(input, CHUNK);
      NoiseChunksThenFrame(noise[1..], frame);
      ReadFromOffset(input, rest, CHUNK);
    }
  }

  /** ReadFrom on `a` from `off` is ReadFrom on the suffix `a[off..]` from 0,
      with the cursor shifted by `off`. */
  lemma {:induction false} ReadFromOffset(a: seq<byte>, s: seq<byte>, off: nat)
    requires off <= |a| && s == a[off..]
    ensures ReadFrom(a, off) == (ReadFrom(s, 0).0, ReadFrom(s, 0).1 + off)
    decreases |s|
  {
    if |s| >= CHUNK {
      assert a[off + 1] == s[1];
      assert a[off..off + CHUNK] == s[0..CHUNK];
      if s[1] != DATA_COMMAND_ID {
        ReadFromOffset(a, a[off + CHUNK..], off + CHUNK);
        ReadFromOffset(s, s[CHUNK..], CHUNK);
        assert a[off + CHUNK..] == s[CHUNK..];
      }
    }
  }

  // ---------------------------------------------------------------------------
  // Concrete streams

  /** A 10-byte data report: PM2.5 raw 0x0028, PM10 raw 0x003C, device id 0,
      checksum 0x28 + 0x3C = 0x64. */
  const EXAMPLE_FRAME: seq<byte> := [0xAA, 0xC0, 0x28, 0x00, 0x3C, 0x00, 0x00, 0x00, 0x64, 0xAB]

  lemma ExampleChecksum()
    ensures Checksum(EXAMPLE_FRAME[2..8]) == 0x64
  {
    var p := EXAMPLE_FRAME[2..8];
    assert p == [0x28, 0x00, 0x3C, 0x00, 0x00, 0x00];
    assert p[1..] == [0x00, 0x3C, 0x00, 0x00, 0x00];
    assert p[1..][1..] == [0x3C, 0x00, 0x00, 0x00];
    ZerosSum(p[1..][1..][1..]);
    assert Sum(p[1..][1..]) == 0x3C;
    assert Sum(p[1..]) == 0x3C;
  }

  /** The example report followed by any eleventh byte is accepted on the
      first attempt with PM2.5 40 and PM10 60 tenths. */
  lemma ExampleChunkAccepted(x: byte)
    ensures Decode(EXAMPLE_FRAME + [x]) == Accepted(Reading(40, 60))
    ensures ReadFrom(EXAMPLE_FRAME + [x], 0) == (Accepted(Reading(40, 60)), CHUNK)
  {
    var d := EXAMPLE_FRAME + [x];
    ExampleChecksum();
    assert d[2..8] == EXAMPLE_FRAME[2..8];
    assert d[0..CHUNK] == d;
  }

  /** A chunk with a wrong checksum ends the first call with "no reading"; a
      second call from the returned cursor then reads the following chunk. */
  lemma CorruptThenValid(x: byte, y: byte)
    ensures ReadFrom((EXAMPLE_FRAME + [x])[8 := 0x65] + (EXAMPLE_FRAME + [y]), 0) == (Rejected, CHUNK)
    ensures ReadFrom((EXAMPLE_FRAME + [x])[8 := 0x65] + (EXAMPLE_FRAME + [y]), CHUNK) ==
      (Accepted(Reading(40, 60)), 2 * CHUNK)
  {
    var bad := (EXAMPLE_FRAME + [x])[8 := 0x65];
    var good := EXAMPLE_FRAME + [y];
    var input := bad + good;
    ExampleChunkAccepted(x);
    ExampleChunkAccepted(y);
    SingleByteCorruptionRejected(EXAMPLE_FRAME + [x], 8, 0x65);
    assert input[0..CHUNK] == bad;
    assert input[CHUNK..] == good;
    ReadFromOffset(input, good, CHUNK);
  }

  /** No rescan, the consequence: a complete report that starts two bytes into
      a dropped chunk is never decoded, and the call runs out of stream. */
  lemma NoRescanLosesFrame()
    ensures ([0xAA, 0x00] + EXAMPLE_FRAME + seq(10, _ => 0x00))[2..12] == EXAMPLE_FRAME
    ensures ReadFrom([0xAA, 0x00] + EXAMPLE_FRAME + seq(10, _ => 0x00), 0) == (Exhausted, 2 * CHUNK)
  {
  }

  /** Eleven-byte attempts over reports sent back to back: the first call
      decodes the first report and consumes the head byte of the second; the
      next call drops the rest of the second report and runs out, though the
      second report arrived complete. */
  lemma BackToBackReports()
    ensures (EXAMPLE_FRAME + EXAMPLE_FRAME + EXAMPLE_FRAME)[10..20] == EXAMPLE_FRAME
    ensures ReadFrom(EXAMPLE_FRAME + EXAMPLE_FRAME + EXAMPLE_FRAME, 0) == (Accepted(Reading(40, 60)), CHUNK)
    ensures ReadFrom(EXAMPLE_FRAME + EXAMPLE_FRAME + EXAMPLE_FRAME, CHUNK) == (Exhausted, 2 * CHUNK)
  {
    var input := EXAMPLE_FRAME + EXAMPLE_FRAME + EXAMPLE_FRAME;
    assert input[10..20] == EXAMPLE_FRAME;
    ExampleChunkAccepted(0xAA);
    assert input[0..CHUNK] == EXAMPLE_FRAME + [0xAA];
    assert input[CHUNK + 1] == 0x28;
  }
}

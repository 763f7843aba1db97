/** The outbound side: the two fixed 19-byte "set working mode" command
    templates and the writers that send them one byte per write call. */
module Commands {
  import opened Bytes

  const COMMAND_ID: byte := 0xB4
  const SET_MODE: byte := 0x06
  const APPLY_SETTING: byte := 0x01
  const SLEEP_MODE: byte := 0x00
  const WAKE_MODE: byte := 0x01
  const BROADCAST_ID: byte := 0xFF
  const FRAME_LENGTH := 19

  /** The sleep command as the source spells it out, byte by byte. */
  const SLEEP_BYTES: seq<byte> :=
    [0xAA, 0xB4, 0x06, 0x01, 0x00,
     0x00, 0x00, 0x00, 0x00, 0x00, 0x00, 0x00, 0x00, 0x00, 0x00,
     0xFF, 0xFF, 0x05, 0xAB]

  /** The wake command as the source spells it out; its checksum byte is the
      sleep template's 0x05. */
  const WAKE_BYTES: seq<byte> :=
    [0xAA, 0xB4, 0x06, 0x01, 0x01,
     0x00, 0x00, 0x00, 0x00, 0x00, 0x00, 0x00, 0x00, 0x00, 0x00,
     0xFF, 0xFF, 0x05, 0xAB]

  /** The fixed layout shared by both templates: head, command id, subcommand,
      apply flag, the mode byte, ten reserved zeros, broadcast device id,
      checksum byte `sum` and tail. */
  predicate HasTemplateLayout(t: seq<byte>, mode: byte, sum: byte) {
    |t| == FRAME_LENGTH &&
    t[0] == HEAD && t[1] == COMMAND_ID && t[2] == SET_MODE && t[3] == APPLY_SETTING &&
    t[4] == mode &&
    (forall i :: 5 <= i < 15 ==> t[i] == 0x00) &&
    t[15] == BROADCAST_ID && t[16] == BROADCAST_ID &&
    t[17] == sum && t[18] == TAIL
  }

  /** What the device accepts: a 19-byte command whose byte 17 is the checksum
      of bytes 2 through 16. */
  predicate ValidCommandFrame(f: seq<byte>) {
    |f| == FRAME_LENGTH && f[0] == HEAD && f[1] == COMMAND_ID &&
    f[17] == Checksum(f[2..17]) && f[18] == TAIL
  }

  /** Both templates have the fixed layout with the stored checksum 0x05, and
      they differ at offset 4 only. */
  lemma TemplatesLayout()
    ensures HasTemplateLayout(SLEEP_BYTES, SLEEP_MODE, 0x05)
    ensures HasTemplateLayout(WAKE_BYTES, WAKE_MODE, 0x05)
    ensures forall i :: 0 <= i < FRAME_LENGTH && i != 4 ==> SLEEP_BYTES[i] == WAKE_BYTES[i]
    ensures SLEEP_BYTES[4] != WAKE_BYTES[4]
  {
  }

  /** Bytes 2 to 16 of a command in a given mode: the part the checksum covers. */
  function CommandBody(mode: byte): (b: seq<byte>)
    ensures |b| == 15 && b[2] == mode
  {
    [SET_MODE, APPLY_SETTING, mode] + seq(10, _ => 0x00) + [BROADCAST_ID, BROADCAST_ID]
  }

  /** The summed bytes add up to 517 plus the mode byte. */
  lemma {:induction false} CommandBodySum(mode: byte)
    ensures Sum(CommandBody(mode)) == 517 + mode
  {
    var head: seq<byte> := [SET_MODE, APPLY_SETTING, mode];
    var zeros: seq<byte> := seq(10, _ => 0x00);
    var id: seq<byte> := [BROADCAST_ID, BROADCAST_ID];
    assert Sum(head) == 7 + mode by {
      assert head[1..] == [APPLY_SETTING, mode] && head[1..][1..] == [mode];
      assert Sum([mode]) == mode by { assert [mode][1..] == []; }
    }
    assert Sum(id) == 510 by {
      assert id[1..] == [BROADCAST_ID];
      assert Sum([BROADCAST_ID]) == 255 by { assert [BROADCAST_ID][1..] == []; }
    }
    ZerosSum(zeros);
    SumConcat([SET_MODE, APPLY_SETTING, mode], zeros);
    SumConcat([SET_MODE, APPLY_SETTING, mode] + zeros, [BROADCAST_ID, BROADCAST_ID]);
  }

  /** A command frame built from its layout with the checksum computed over
      bytes 2 to 16, as the protocol requires. */
  function CommandFrame(mode: byte): (f: seq<byte>)
    ensures ValidCommandFrame(f)
    ensures HasTemplateLayout(f, mode, (517 + mode) % 256)
  {
    var body := CommandBody(mode);
    CommandBodySum(mode);
    var f := [HEAD, COMMAND_ID] + body + [Checksum(body), TAIL];
    assert f[2..17] == body;
    f
  }

  /** The sleep template is exactly the frame the protocol prescribes. */
  lemma SleepTemplateValid()
    ensures SLEEP_BYTES == CommandFrame(SLEEP_MODE)
    ensures ValidCommandFrame(SLEEP_BYTES)
  {
  }

  /** The wake template's stored checksum 0x05 does not match its payload,
      whose checksum is 0x06; the correct frame differs from it at offset 17
      only. */
  lemma WakeChecksumMismatch()
    ensures Checksum(WAKE_BYTES[2..17]) == 0x06
    ensures WAKE_BYTES[17] == 0x05
    ensures !ValidCommandFrame(WAKE_BYTES)
    ensures WAKE_BYTES == CommandFrame(WAKE_MODE)[17 := 0x05]
  {
    var f := CommandFrame(WAKE_MODE);
    assert HasTemplateLayout(f, WAKE_MODE, 0x06);
    TemplatesLayout();
    assert forall i :: 0 <= i < FRAME_LENGTH ==> f[17 := 0x05][i] == WAKE_BYTES[i];
    assert WAKE_BYTES[2..17] == f[2..17];
  }

  /** The sequence of write calls that sends `frame` one byte at a time. */
  function ByteWrites(frame: seq<byte>): seq<seq<byte>> {
    seq(|frame|, i requires 0 <= i < |frame| => [frame[i]])
  }

  /** The loop `for b in TEMPLATE: ser.write(b)`: one write call per byte of
      `frame`, in order; `writes` is the record of the write calls the serial
      sink has received so far. */
  method WriteTemplate(frame: seq<byte>, writes: seq<seq<byte>>) returns (writes': seq<seq<byte>>)
    ensures writes' == writes + ByteWrites(frame)
    ensures Flatten(writes') == Flatten(writes) + frame
  {
    writes' := writes;
    var i := 0;
    while i < |frame|
      invariant 0 <= i <= |frame|
      invariant writes' == writes + ByteWrites(frame[..i])
      invariant Flatten(writes') == Flatten(writes) + frame[..i]
    {
      FlattenAppend(writes', [[frame[i]]]);
      assert Flatten([[frame[i]]]) == [frame[i]];
      assert frame[..i + 1] == frame[..i] + [frame[i]];
      assert ByteWrites(frame[..i + 1]) == ByteWrites(frame[..i]) + [[frame[i]]];
      writes' := writes' + [[frame[i]]];
      i := i + 1;
    }
    assert frame[..i] == frame;
  }

  /** wake_up: the sink receives WAKE_BYTES, one byte per write, and nothing else. */
  method WakeUp(writes: seq<seq<byte>>) returns (writes': seq<seq<byte>>)
    ensures writes' == writes + ByteWrites(WAKE_BYTES)
    ensures Flatten(writes') == Flatten(writes) + WAKE_BYTES
  {
    writes' := WriteTemplate(WAKE_BYTES, writes);
  }

  /** sleep: the sink receives SLEEP_BYTES, one byte per write, and nothing else,
      which is a valid sleep command. */
  method Sleep(writes: seq<seq<byte>>) returns (writes': seq<seq<byte>>)
    ensures writes' == writes + ByteWrites(SLEEP_BYTES)
    ensures Flatten(writes') == Flatten(writes) + CommandFrame(SLEEP_MODE)
  {
    SleepTemplateValid();
    writes' := WriteTemplate(SLEEP_BYTES, writes);
  }

  /** wake_up with the checksum computed rather than hard-coded: the sink
      receives a valid wake command. */
  method WakeUpCorrected(writes: seq<seq<byte>>) returns (writes': seq<seq<byte>>)
    ensures Flatten(writes') == Flatten(writes) + CommandFrame(WAKE_MODE)
    ensures ValidCommandFrame(Flatten(writes')[|Flatten(writes)|..])
  {
    writes' := WriteTemplate(CommandFrame(WAKE_MODE), writes);
    assert Flatten(writes')[|Flatten(writes)|..] == CommandFrame(WAKE_MODE);
  }
}

/** The cat-printer BLE protocol: frames, status notifications, row coding and
    the byte stream of one print job. */
module Proto {
  import opened Bytes
  import opened Checksum
  import opened Rle

  const ROW_BYTES: nat := 48
  const CMD_FEED_PAPER: bv8 := 0xA1
  const CMD_DRAW_BITMAP: bv8 := 0xA2
  const CMD_DEVICE_STATUS: bv8 := 0xAE
  const CMD_SET_ENERGY: bv8 := 0xAF
  const CMD_SET_SPEED: bv8 := 0xBD
  const CMD_APPLY_ENERGY: bv8 := 0xBE
  const CMD_DRAW_BITMAP_RLE: bv8 := 0xBF

  // --- Frames --------------------------------------------------------------------

  function FrameOf(cmd: bv8, payload: seq<bv8>): seq<bv8> {
    [0x51, 0x78, cmd, 0x00, Lo(|payload|), Hi(|payload|)] + payload + [Crc(payload), 0xFF]
  }

  method Frame(cmd: bv8, payload: seq<bv8>) returns (out: seq<bv8>)
    ensures out == FrameOf(cmd, payload)
  {
    out := [0x51, 0x78, cmd, 0x00];
    out := out + [Lo(|payload|), Hi(|payload|)];
    out := out + payload;
    var check := Crc8(payload);
    out := out + [check, 0xFF];
  }

  // --- Status notifications ----------------------------------------------------------

  datatype Status = BufferFull | Ready

  function StatusCode(status: Status): bv8 {
    match status
    case BufferFull => 0x10
    case Ready => 0x00
  }

  /** The notification a printer sends for a status. */
  function StatusFrame(status: Status): seq<bv8> {
    var code := StatusCode(status);
    [0x51, 0x78, CMD_DEVICE_STATUS, 0x01, 0x01, 0x00, code, Crc([code]), 0xFF]
  }

  /** Recognises exactly the two status notifications. */
  function ParseStatus(data: seq<bv8>): (r: Option<Status>)
    ensures forall status :: r == Some(status) <==> data == StatusFrame(status)
  {
    if |data| != 9 || data[0] != 0x51 || data[1] != 0x78 || data[2] != CMD_DEVICE_STATUS
       || data[3] != 0x01 || data[4] != 0x01 || data[5] != 0x00 || data[8] != 0xFF
    then None
    else if Crc(data[6..7]) != data[7] then None
    else
      assert data[6..7] == [data[6]];
      if data[6] == 0x10 then Some(BufferFull)
      else if data[6] == 0x00 then Some(Ready)
      else None
  }

  /** The reference vectors of the protocol, byte by byte. */
  lemma ReferenceFrames()
    ensures FrameOf(0xBD, [16]) == [0x51, 0x78, 0xBD, 0x00, 0x01, 0x00, 0x10, 0x70, 0xFF]
    ensures FrameOf(0xBE, [0x01]) == [0x51, 0x78, 0xBE, 0x00, 0x01, 0x00, 0x01, 0x07, 0xFF]
    ensures StatusFrame(BufferFull) == [0x51, 0x78, 0xAE, 0x01, 0x01, 0x00, 0x10, 0x70, 0xFF]
    ensures StatusFrame(Ready) == [0x51, 0x78, 0xAE, 0x01, 0x01, 0x00, 0x00, 0x00, 0xFF]
  {
    hide Crc, Lo, Hi;
    LoIs(1, 1, 1);
    HiIs(1, 0, 0);
    OneByteCrc(0x10, 0x20, 0x40, 0x80, 0x07, 0x0E, 0x1C, 0x38, 0x70);
    OneByteCrc(0x01, 0x02, 0x04, 0x08, 0x10, 0x20, 0x40, 0x80, 0x07);
    OneByteCrc(0x00, 0x00, 0x00, 0x00, 0x00, 0x00, 0x00, 0x00, 0x00);
  }

  lemma OneByteCrc(b: bv8, s1: bv8, s2: bv8, s3: bv8, s4: bv8, s5: bv8, s6: bv8, s7: bv8, s8: bv8)
    requires TimesX(b) == s1 && TimesX(s1) == s2 && TimesX(s2) == s3 && TimesX(s3) == s4
    requires TimesX(s4) == s5 && TimesX(s5) == s6 && TimesX(s6) == s7 && TimesX(s7) == s8
    ensures Crc([b]) == s8
  {
    hide TimesX;
    assert [b][..0] == [] && Xor(0, b) == b;
    assert Shift(b, 1) == s1 && Shift(b, 2) == s2 && Shift(b, 3) == s3 && Shift(b, 4) == s4;
    assert Shift(b, 5) == s5 && Shift(b, 6) == s6 && Shift(b, 7) == s7;
  }

  // --- Rows ----------------------------------------------------------------------------

  function ReverseBits(b: bv8): (r: bv8)
  {
    var b1 := ((b & 0xF0) >> 4) | ((b & 0x0F) << 4);
    var b2 := ((b1 & 0xCC) >> 2) | ((b1 & 0x33) << 2);
    ((b2 & 0xAA) >> 1) | ((b2 & 0x55) << 1)
  }

  /** Bit k from the left becomes bit k from the right. */
  lemma {:induction false} ReverseBitsMirrors(b: bv8, k: nat)
    requires k < 8
    ensures ReverseBits(b) & LsbMask(k) != 0 <==> b & MsbMask(k) != 0
  {
    var r := ReverseBits(b);
    assert r & 0x01 != 0 <==> b & 0x80 != 0;
    assert r & 0x02 != 0 <==> b & 0x40 != 0;
    assert r & 0x04 != 0 <==> b & 0x20 != 0;
    assert r & 0x08 != 0 <==> b & 0x10 != 0;
    assert r & 0x10 != 0 <==> b & 0x08 != 0;
    assert r & 0x20 != 0 <==> b & 0x04 != 0;
    assert r & 0x40 != 0 <==> b & 0x02 != 0;
    assert r & 0x80 != 0 <==> b & 0x01 != 0;
  }

  function PrinterRow(row: seq<bv8>): seq<bv8> {
    seq(ROW_BYTES, i requires 0 <= i => if i < |row| then ReverseBits(row[i]) else 0)
  }

  method FrameRowPlain(row: seq<bv8>) returns (out: seq<bv8>)
    ensures out == FrameOf(CMD_DRAW_BITMAP, PrinterRow(row))
  {
    var printerRow: seq<bv8> := [];
    var n := if |row| < ROW_BYTES then |row| else ROW_BYTES;
    for i := 0 to n
      invariant printerRow == PrinterRow(row)[..i]
    {
      printerRow := printerRow + [ReverseBits(row[i])];
    }
    while |printerRow| < ROW_BYTES
      invariant n <= |printerRow| <= ROW_BYTES && printerRow == PrinterRow(row)[..|printerRow|]
    {
      printerRow := printerRow + [0];
    }
    assert printerRow == PrinterRow(row);
    out := Frame(CMD_DRAW_BITMAP, printerRow);
  }

  function RowFrame(row: seq<bv8>, rle: bool): seq<bv8> {
    if rle && |row| == ROW_BYTES && EncodedRow(row).Some?
    then FrameOf(CMD_DRAW_BITMAP_RLE, EncodedRow(row).value)
    else FrameOf(CMD_DRAW_BITMAP, PrinterRow(row))
  }

  method FrameRow(row: seq<bv8>, rle: bool) returns (out: seq<bv8>)
    ensures out == RowFrame(row, rle)
  {
    if rle && |row| == ROW_BYTES {
      var runs := RleEncodeRow(row);
      if runs.Some? {
        out := Frame(CMD_DRAW_BITMAP_RLE, runs.value);
        return;
      }
    }
    out := FrameRowPlain(row);
  }

  // --- Jobs ----------------------------------------------------------------------------

  /** Every row slice `JobRows` takes below row `to` lies inside `bits`. */
  ghost predicate RowsInside(bits: seq<bv8>, stride: nat, to: nat) {
    forall y: nat :: y < to ==> RowStart(stride, y) + RowWidth(stride) <= |bits|
  }

  function RowStart(stride: nat, y: nat): nat { y * stride }

  function RowWidth(stride: nat): nat { if stride < ROW_BYTES then stride else ROW_BYTES }

  function RowBytes(bits: seq<bv8>, stride: nat, y: nat): seq<bv8>
    requires RowStart(stride, y) + RowWidth(stride) <= |bits|
  {
    bits[RowStart(stride, y)..RowStart(stride, y) + RowWidth(stride)]
  }

  function SetupStream(energy: nat, speed: bv8): seq<bv8> {
    FrameOf(CMD_SET_SPEED, [speed])
    + FrameOf(CMD_SET_ENERGY, Le16(energy))
    + FrameOf(CMD_APPLY_ENERGY, [0x01])
    + FrameOf(CMD_DRAW_BITMAP, PrinterRow(BlankRow()))
  }

  function BlankRow(): seq<bv8> { seq(ROW_BYTES, _ => 0) }

  ghost function RowsStream(bits: seq<bv8>, stride: nat, from: nat, to: nat, rle: bool): seq<bv8>
    requires RowsInside(bits, stride, to)
    decreases if from < to then to - from else 0
  {
    if from >= to then []
    else RowFrame(RowBytes(bits, stride, from), rle) + RowsStream(bits, stride, from + 1, to, rle)
  }

  function FinishStream(feedSteps: nat): seq<bv8> {
    if feedSteps > 0 then FrameOf(CMD_FEED_PAPER, Le16(feedSteps)) else []
  }

  /** All bytes of one print job. */
  ghost function JobStream(bits: seq<bv8>, stride: nat, height: nat,
                           energy: nat, speed: bv8, feedSteps: nat, rle: bool): seq<bv8>
    requires RowsInside(bits, stride, height)
  {
    SetupStream(energy, speed) + RowsStream(bits, stride, 0, height, rle) + FinishStream(feedSteps)
  }

  method JobSetup(energy: nat, speed: bv8) returns (out: seq<bv8>)
    ensures out == SetupStream(energy, speed)
  {
    out := Frame(CMD_SET_SPEED, [speed]);
    var f := Frame(CMD_SET_ENERGY, Le16(energy));
    out := out + f;
    f := Frame(CMD_APPLY_ENERGY, [0x01]);
    out := out + f;
    f := FrameRowPlain(BlankRow());
    out := out + f;
  }

  lemma RowsStreamNext(bits: seq<bv8>, stride: nat, from: nat, to: nat, rle: bool)
    requires from < to && RowsInside(bits, stride, to)
    ensures RowsStream(bits, stride, from, to, rle)
         == RowFrame(RowBytes(bits, stride, from), rle) + RowsStream(bits, stride, from + 1, to, rle)
  {
  }

  lemma RowsStreamEnd(bits: seq<bv8>, stride: nat, from: nat, to: nat, rle: bool)
    requires from >= to && RowsInside(bits, stride, to)
    ensures RowsStream(bits, stride, from, to, rle) == []
  {
  }

  lemma {:induction false} RowsStreamSplit(bits: seq<bv8>, stride: nat, from: nat, mid: nat, to: nat, rle: bool)
    requires from <= mid <= to && RowsInside(bits, stride, to)
    ensures RowsStream(bits, stride, from, to, rle)
         == RowsStream(bits, stride, from, mid, rle) + RowsStream(bits, stride, mid, to, rle)
    decreases mid - from
  {
    hide RowsStream, RowFrame, RowBytes, RowStart, RowWidth;
    if from < mid {
      RowsStreamNext(bits, stride, from, mid, rle);
      RowsStreamNext(bits, stride, from, to, rle);
      RowsStreamSplit(bits, stride, from + 1, mid, to, rle);
    } else {
      RowsStreamEnd(bits, stride, from, mid, rle);
    }
  }

  method JobRows(bits: seq<bv8>, stride: nat, from: nat, to: nat, rle: bool) returns (out: seq<bv8>)
    requires RowsInside(bits, stride, to)
    ensures out == RowsStream(bits, stride, from, to, rle)
  {
    hide RowsStream, RowStart, RowWidth, RowFrame, RowBytes;
    out := [];
    RowsStreamEnd(bits, stride, if from < to then to else from, to, rle);
    if from < to {
      for y := from to to
        invariant out + RowsStream(bits, stride, y, to, rle) == RowsStream(bits, stride, from, to, rle)
      {
        var f := FrameRow(RowBytes(bits, stride, y), rle);
        RowsStreamNext(bits, stride, y, to, rle);
        out := out + f;
      }
    }
  }

  method JobFinish(feedSteps: nat) returns (out: seq<bv8>)
    ensures out == FinishStream(feedSteps)
  {
    if feedSteps > 0 {
      out := Frame(CMD_FEED_PAPER, Le16(feedSteps));
    } else {
      out := [];
    }
  }

  method BuildJob(bits: seq<bv8>, stride: nat, height: nat, energy: nat, speed: bv8,
                  feedSteps: nat, rle: bool) returns (out: seq<bv8>)
    requires RowsInside(bits, stride, height)
    ensures out == JobStream(bits, stride, height, energy, speed, feedSteps, rle)
  {
    out := JobSetup(energy, speed);
    var rows := JobRows(bits, stride, 0, height, rle);
    var finish := JobFinish(feedSteps);
    out := out + rows + finish;
  }
}

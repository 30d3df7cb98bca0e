/** What the printer makes of a byte stream: the meaning of the protocol,
    independent of how the badge builds it. */
module Printer {
  import opened Bytes
  import opened Checksum
  import opened Proto
  import opened Rle

  const WIDTH_PX: nat := 384

  datatype Command =
    | SetSpeed(speed: bv8)
    | SetEnergy(energy: nat)
    | ApplyEnergy
    | DrawRow(pixels: seq<bool>)
    | FeedPaper(steps: nat)

  datatype RawFrame = RawFrame(cmd: bv8, payload: seq<bv8>, rest: seq<bv8>)

  /** Split the first frame off a stream, checking framing and checksum. */
  function NextFrame(s: seq<bv8>): Option<RawFrame> {
    if |s| < 8 || s[0] != 0x51 || s[1] != 0x78 || s[3] != 0x00 then None
    else
      var len := FromLe16(s[4], s[5]);
      if |s| < 8 + len || s[6 + len] != Crc(s[6..6 + len]) || s[7 + len] != 0xFF then None
      else Some(RawFrame(s[2], s[6..6 + len], s[8 + len..]))
  }

  function Interpret(cmd: bv8, payload: seq<bv8>): Option<Command> {
    if cmd == 0xBD && |payload| == 1 then Some(SetSpeed(payload[0]))
    else if cmd == 0xAF && |payload| == 2 then Some(SetEnergy(FromLe16(payload[0], payload[1])))
    else if cmd == 0xBE && payload == [0x01] then Some(ApplyEnergy)
    else if cmd == 0xA2 && |payload| == 48 then Some(DrawRow(LsbBits(payload)))
    else if cmd == 0xBF && |Expand(payload)| == WIDTH_PX then Some(DrawRow(Expand(payload)))
    else if cmd == 0xA1 && |payload| == 2 then Some(FeedPaper(FromLe16(payload[0], payload[1])))
    else None
  }

  /** The commands of a stream, or `None` if any byte of it is not understood. */
  function Decode(s: seq<bv8>): Option<seq<Command>>
    decreases |s|
  {
    if s == [] then Some([])
    else
      match NextFrame(s)
      case None => None
      case Some(f) =>
        match Interpret(f.cmd, f.payload)
        case None => None
        case Some(c) =>
          match Decode(f.rest)
          case None => None
          case Some(cs) => Some([c] + cs)
  }

  /** Pixels cut or padded with white to the print width. */
  function Fit(px: seq<bool>): seq<bool> {
    seq(WIDTH_PX, x requires 0 <= x => x < |px| && px[x])
  }

  // --- Frames ----------------------------------------------------------------------

  /** The printer gets a frame back exactly when its length fits 16 bits. */
  lemma {:induction false} FrameRoundTrip(cmd: bv8, payload: seq<bv8>, rest: seq<bv8>)
    ensures NextFrame(FrameOf(cmd, payload) + rest) == Some(RawFrame(cmd, payload, rest))
       <==> |payload| < 0x1_0000
  {
    var s := FrameOf(cmd, payload) + rest;
    var n := |payload|;
    hide *;
    FrameLengthBytes(cmd, payload, rest);
    Le16RoundTrip(n);
    if n < 0x1_0000 {
      FrameFields(cmd, payload, rest);
    } else {
      NextFrameLength(s);
    }
  }

  lemma FrameLengthBytes(cmd: bv8, payload: seq<bv8>, rest: seq<bv8>)
    ensures var s := FrameOf(cmd, payload) + rest;
            |s| >= 8 && s[4] == Lo(|payload|) && s[5] == Hi(|payload|)
  {
    hide Lo, Hi;
  }

  lemma FrameFields(cmd: bv8, payload: seq<bv8>, rest: seq<bv8>)
    requires FromLe16(Lo(|payload|), Hi(|payload|)) == |payload|
    ensures NextFrame(FrameOf(cmd, payload) + rest) == Some(RawFrame(cmd, payload, rest))
  {
    hide FromLe16, Lo, Hi, Crc;
    var s := FrameOf(cmd, payload) + rest;
    var n := |payload|;
    assert s[6..6 + n] == payload;
    assert s[6 + n] == Crc(payload) && s[7 + n] == 0xFF;
    assert s[8 + n..] == rest;
  }

  lemma NextFrameLength(s: seq<bv8>)
    ensures NextFrame(s).Some? ==> |s| >= 8 && |NextFrame(s).value.payload| == FromLe16(s[4], s[5])
  {
  }

  lemma DecodeFrame(cmd: bv8, payload: seq<bv8>, rest: seq<bv8>)
    requires |payload| < 0x1_0000
    requires Interpret(cmd, payload).Some? && Decode(rest).Some?
    ensures Decode(FrameOf(cmd, payload) + rest)
         == Some([Interpret(cmd, payload).value] + Decode(rest).value)
  {
    FrameRoundTrip(cmd, payload, rest);
    hide Interpret, NextFrame;
  }

  // --- Rows ------------------------------------------------------------------------

  lemma PlainRowPixels(row: seq<bv8>)
    ensures LsbBits(PrinterRow(row)) == Fit(Bits(row))
  {
    hide ReverseBits, LsbMask, MsbMask;
    var p := PrinterRow(row);
    forall x | 0 <= x < WIDTH_PX
      ensures LsbBits(p)[x] == Fit(Bits(row))[x]
    {
      if x / 8 < |row| {
        ReverseBitsMirrors(row[x / 8], x % 8);
      } else {
        ZeroBits(LsbMask(x % 8));
      }
    }
  }

  lemma ZeroBits(m: bv8)
    ensures (0 as bv8) & m == 0
  {
  }

  lemma FitExact(px: seq<bool>)
    requires |px| == WIDTH_PX
    ensures Fit(px) == px
  {
  }

  lemma PlainRowMeaning(row: seq<bv8>)
    ensures Interpret(CMD_DRAW_BITMAP, PrinterRow(row)) == Some(DrawRow(Fit(Bits(row))))
  {
    PlainRowPixels(row);
    hide PrinterRow, LsbBits, Bits, Fit;
    assert |PrinterRow(row)| == ROW_BYTES by { RowSizes(row); }
  }

  lemma RowSizes(row: seq<bv8>)
    ensures |PrinterRow(row)| == ROW_BYTES == 48 && |Bits(row)| == 8 * |row|
  {
  }

  lemma RunRowMeaning(row: seq<bv8>)
    requires |row| == ROW_BYTES && EncodedRow(row).Some?
    ensures Interpret(CMD_DRAW_BITMAP_RLE, EncodedRow(row).value) == Some(DrawRow(Fit(Bits(row))))
    ensures |EncodedRow(row).value| < ROW_BYTES == 48
  {
    RowSizes(row);
    RunsExpand(Bits(row), false, 0);
    assert Repeat(false, 0) + Bits(row) == Bits(row);
    FitExact(Bits(row));
    hide Expand, Bits, Fit, Runs;
  }

  /** Either coding of a row draws the row's pixels, cut or padded to 384. */
  lemma {:induction false} RowFrameMeaning(row: seq<bv8>, rle: bool, rest: seq<bv8>)
    requires Decode(rest).Some?
    ensures Decode(RowFrame(row, rle) + rest) == Some([DrawRow(Fit(Bits(row)))] + Decode(rest).value)
  {
    hide *;
    RowFrameCases(row, rle);
    if rle && |row| == ROW_BYTES && EncodedRow(row).Some? {
      RunRowMeaning(row);
      DecodeFrame(CMD_DRAW_BITMAP_RLE, EncodedRow(row).value, rest);
    } else {
      RowSizes(row);
      PlainRowMeaning(row);
      DecodeFrame(CMD_DRAW_BITMAP, PrinterRow(row), rest);
    }
  }

  lemma RowFrameCases(row: seq<bv8>, rle: bool)
    ensures RowFrame(row, rle)
         == if rle && |row| == ROW_BYTES && EncodedRow(row).Some?
            then FrameOf(CMD_DRAW_BITMAP_RLE, EncodedRow(row).value)
            else FrameOf(CMD_DRAW_BITMAP, PrinterRow(row))
  {
  }

  lemma FrameSize(cmd: bv8, payload: seq<bv8>)
    ensures |FrameOf(cmd, payload)| == 8 + |payload|
  {
  }

  /** The run coding is used only where it makes the frame strictly shorter. */
  lemma {:induction false} RowFrameShorter(row: seq<bv8>)
    ensures |RowFrame(row, true)| <= |RowFrame(row, false)| == 56
  {
    hide *;
    RowFrameCases(row, true);
    RowFrameCases(row, false);
    RowSizes(row);
    FrameSize(CMD_DRAW_BITMAP, PrinterRow(row));
    if |row| == ROW_BYTES && EncodedRow(row).Some? {
      RunRowMeaning(row);
      FrameSize(CMD_DRAW_BITMAP_RLE, EncodedRow(row).value);
    }
  }

  /** A row goes out run-coded exactly when that is enabled, the row has the full
      width, and some run coding of its pixels is shorter than the row. */
  lemma {:induction false} RunCodingUsed(row: seq<bv8>, rle: bool)
    ensures |RowFrame(row, rle)| > 2 && RowFrame(row, rle)[2] in {0xA2, 0xBF}
    ensures RowFrame(row, rle)[2] == 0xBF
       <==> rle && |row| == 48 && exists runs :: Expand(runs) == Bits(row) && |runs| < 48
  {
    hide Bits, Expand, Runs, PrinterRow, Crc, Lo, Hi;
    RunsExpand(Bits(row), false, 0);
    RunsShortest(Bits(row));
    var runs := Runs(Bits(row), false, 0);
    assert Repeat(false, 0) + Bits(row) == Bits(row);
    assert Expand(runs) == Bits(row);
  }

  // --- Jobs ------------------------------------------------------------------------

  /** The rows a raster stands for, as the printer draws them. */
  function RowCommands(bits: seq<bv8>, stride: nat, from: nat, to: nat): seq<Command>
    requires RowsInside(bits, stride, to) && from <= to
  {
    seq(to - from, y requires 0 <= y < to - from => DrawRow(Fit(Bits(RowBytes(bits, stride, from + y)))))
  }

  /** Pixel by pixel: row `y` draws the bits of its own bytes, the highest first,
      and white behind them. */
  lemma {:induction false} RowPixels(bits: seq<bv8>, stride: nat, height: nat, y: nat, x: nat)
    requires RowsInside(bits, stride, height) && y < height && x < 384
    ensures var row := RowCommands(bits, stride, 0, height)[y];
            && row.DrawRow? && |row.pixels| == 384 && (x / 8 < stride ==> y * stride + x / 8 < |bits|)
            && row.pixels[x] == (x / 8 < stride && bits[y * stride + x / 8] & MsbMask(x % 8) != 0)
  {
    hide MsbMask;
    assert RowStart(stride, y) + RowWidth(stride) <= |bits|;
    var row := RowBytes(bits, stride, y);
    if x / 8 < stride {
      assert row[x / 8] == bits[y * stride + x / 8];
    }
  }

  /** The commands a job asks for, read off its raster and settings. */
  function JobCommands(bits: seq<bv8>, stride: nat, height: nat, energy: nat, speed: bv8, feedSteps: nat): seq<Command>
    requires RowsInside(bits, stride, height)
  {
    [SetSpeed(speed), SetEnergy(energy), ApplyEnergy, DrawRow(Repeat(false, WIDTH_PX))]
    + RowCommands(bits, stride, 0, height)
    + (if feedSteps > 0 then [FeedPaper(feedSteps)] else [])
  }

  lemma RowsStep(bits: seq<bv8>, stride: nat, from: nat, to: nat, rle: bool)
    requires from < to && RowsInside(bits, stride, to)
    ensures RowsStream(bits, stride, from, to, rle)
         == RowFrame(RowBytes(bits, stride, from), rle) + RowsStream(bits, stride, from + 1, to, rle)
    ensures RowCommands(bits, stride, from, to)
         == [DrawRow(Fit(Bits(RowBytes(bits, stride, from))))] + RowCommands(bits, stride, from + 1, to)
  {
    hide RowFrame, RowBytes, Fit, Bits;
  }

  lemma RowsEnd(bits: seq<bv8>, stride: nat, to: nat, rle: bool)
    requires RowsInside(bits, stride, to)
    ensures RowsStream(bits, stride, to, to, rle) == []
    ensures RowCommands(bits, stride, to, to) == []
  {
  }

  lemma {:induction false} RowsMeaning(bits: seq<bv8>, stride: nat, from: nat, to: nat, rle: bool, rest: seq<bv8>)
    requires from <= to && RowsInside(bits, stride, to) && Decode(rest).Some?
    ensures Decode(RowsStream(bits, stride, from, to, rle) + rest)
         == Some(RowCommands(bits, stride, from, to) + Decode(rest).value)
    decreases if from < to then to - from else 0
  {
    hide RowFrame, RowBytes, RowsStream, RowCommands, Decode, Fit, Bits, RowStart, RowWidth;
    if from < to {
      RowsStep(bits, stride, from, to, rle);
      RowsMeaning(bits, stride, from + 1, to, rle, rest);
      var row, tail := RowBytes(bits, stride, from), RowsStream(bits, stride, from + 1, to, rle);
      var cmds := RowCommands(bits, stride, from + 1, to);
      RowFrameMeaning(row, rle, tail + rest);
      assert RowFrame(row, rle) + tail + rest == RowFrame(row, rle) + (tail + rest);
      assert [DrawRow(Fit(Bits(row)))] + (cmds + Decode(rest).value)
          == [DrawRow(Fit(Bits(row)))] + cmds + Decode(rest).value;
    } else {
      RowsEnd(bits, stride, to, rle);
      assert [] + rest == rest;
      assert [] + Decode(rest).value == Decode(rest).value;
    }
  }

  lemma SettingsMeaning(n: nat, speed: bv8)
    requires n < 0x1_0000
    ensures |Le16(n)| == 2
    ensures Interpret(CMD_FEED_PAPER, Le16(n)) == Some(FeedPaper(n))
    ensures Interpret(CMD_SET_ENERGY, Le16(n)) == Some(SetEnergy(n))
    ensures Interpret(CMD_SET_SPEED, [speed]) == Some(SetSpeed(speed))
    ensures Interpret(CMD_APPLY_ENERGY, [0x01]) == Some(ApplyEnergy)
  {
    Le16RoundTrip(n);
    hide Lo, Hi, FromLe16, LsbBits, Expand;
  }

  lemma FinishMeaning(feedSteps: nat)
    requires feedSteps < 0x1_0000
    ensures Decode(FinishStream(feedSteps)) == Some(if feedSteps > 0 then [FeedPaper(feedSteps)] else [])
  {
    hide *;
    NoFeed();
    if feedSteps > 0 {
      SettingsMeaning(feedSteps, 0);
      SomeFeed(feedSteps);
      var f := FinishStream(feedSteps);
      assert f + [] == f;
      DecodeFrame(CMD_FEED_PAPER, Le16(feedSteps), []);
      assert [FeedPaper(feedSteps)] + [] == [FeedPaper(feedSteps)];
    }
  }

  lemma SomeFeed(feedSteps: nat)
    requires feedSteps > 0
    ensures FinishStream(feedSteps) == FrameOf(CMD_FEED_PAPER, Le16(feedSteps))
  {
  }

  lemma NoFeed()
    ensures FinishStream(0) == [] && Decode([]) == Some([])
  {
  }

  lemma SetupMeaning(energy: nat, speed: bv8, rest: seq<bv8>)
    requires energy < 0x1_0000 && Decode(rest).Some?
    ensures Decode(SetupStream(energy, speed) + rest)
         == Some([SetSpeed(speed), SetEnergy(energy), ApplyEnergy, DrawRow(Repeat(false, WIDTH_PX))]
                 + Decode(rest).value)
  {
    hide *;
    SetupParts(energy, speed, rest);
    SettingsMeaning(energy, speed);
    BlankRowPixels();
    PlainRowMeaning(BlankRow());
    RowSizes(BlankRow());
    var f2, f3 := FrameOf(CMD_SET_ENERGY, Le16(energy)), FrameOf(CMD_APPLY_ENERGY, [0x01]);
    var f4 := FrameOf(CMD_DRAW_BITMAP, PrinterRow(BlankRow()));
    DecodeFrame(CMD_DRAW_BITMAP, PrinterRow(BlankRow()), rest);
    DecodeFrame(CMD_APPLY_ENERGY, [0x01], f4 + rest);
    DecodeFrame(CMD_SET_ENERGY, Le16(energy), f3 + (f4 + rest));
    DecodeFrame(CMD_SET_SPEED, [speed], f2 + (f3 + (f4 + rest)));
    var blank := DrawRow(Repeat(false, WIDTH_PX));
    assert [SetSpeed(speed)] + ([SetEnergy(energy)] + ([ApplyEnergy] + ([blank] + Decode(rest).value)))
        == [SetSpeed(speed), SetEnergy(energy), ApplyEnergy, blank] + Decode(rest).value;
  }

  lemma SetupParts(energy: nat, speed: bv8, rest: seq<bv8>)
    ensures SetupStream(energy, speed) + rest
         == FrameOf(CMD_SET_SPEED, [speed])
            + (FrameOf(CMD_SET_ENERGY, Le16(energy))
               + (FrameOf(CMD_APPLY_ENERGY, [0x01])
                  + (FrameOf(CMD_DRAW_BITMAP, PrinterRow(BlankRow())) + rest)))
  {
    hide FrameOf, PrinterRow, Le16;
  }

  lemma BlankRowPixels()
    ensures Fit(Bits(BlankRow())) == Repeat(false, WIDTH_PX)
  {
    forall x | 0 <= x < WIDTH_PX ensures !Bits(BlankRow())[x] {
      ZeroBits(MsbMask(x % 8));
    }
  }

  /** The printed result of a job is its raster and settings, whatever the row
      coding: the settings, a white row, the rows of the raster, and any feed. */
  lemma {:induction false} JobMeaning(bits: seq<bv8>, stride: nat, height: nat,
                                      energy: nat, speed: bv8, feedSteps: nat, rle: bool)
    requires RowsInside(bits, stride, height) && energy < 0x1_0000 && feedSteps < 0x1_0000
    ensures Decode(JobStream(bits, stride, height, energy, speed, feedSteps, rle))
         == Some(JobCommands(bits, stride, height, energy, speed, feedSteps))
  {
    hide *;
    FinishMeaning(feedSteps);
    RowsMeaning(bits, stride, 0, height, rle, FinishStream(feedSteps));
    SetupMeaning(energy, speed, RowsStream(bits, stride, 0, height, rle) + FinishStream(feedSteps));
    JobParts(bits, stride, height, energy, speed, feedSteps, rle);
  }

  lemma JobParts(bits: seq<bv8>, stride: nat, height: nat, energy: nat, speed: bv8, feedSteps: nat, rle: bool)
    requires RowsInside(bits, stride, height)
    ensures JobStream(bits, stride, height, energy, speed, feedSteps, rle)
         == SetupStream(energy, speed) + (RowsStream(bits, stride, 0, height, rle) + FinishStream(feedSteps))
    ensures JobCommands(bits, stride, height, energy, speed, feedSteps)
         == [SetSpeed(speed), SetEnergy(energy), ApplyEnergy, DrawRow(Repeat(false, WIDTH_PX))]
            + (RowCommands(bits, stride, 0, height) + (if feedSteps > 0 then [FeedPaper(feedSteps)] else []))
  {
    hide SetupStream, RowsStream, FinishStream, RowCommands, RowsInside;
  }

  /** Run coding never lengthens a job. */
  lemma {:induction false} RowsNoLonger(bits: seq<bv8>, stride: nat, from: nat, to: nat)
    requires from <= to && RowsInside(bits, stride, to)
    ensures |RowsStream(bits, stride, from, to, true)| <= |RowsStream(bits, stride, from, to, false)|
    ensures |RowsStream(bits, stride, from, to, false)| == (to - from) * 56
    decreases if from < to then to - from else 0
  {
    hide RowFrame, RowBytes, RowsStream, RowCommands, Decode, Fit, Bits, RowStart, RowWidth;
    if from < to {
      RowsNoLonger(bits, stride, from + 1, to);
      RowsStep(bits, stride, from, to, true);
      RowsStep(bits, stride, from, to, false);
      RowFrameShorter(RowBytes(bits, stride, from));
    } else {
      RowsEnd(bits, stride, to, true);
      RowsEnd(bits, stride, to, false);
    }
  }

  /** A whole job is never longer with run coding than without. */
  lemma {:induction false} JobNoLonger(bits: seq<bv8>, stride: nat, height: nat,
                                       energy: nat, speed: bv8, feedSteps: nat)
    requires RowsInside(bits, stride, height)
    ensures |JobStream(bits, stride, height, energy, speed, feedSteps, true)|
         <= |JobStream(bits, stride, height, energy, speed, feedSteps, false)|
  {
    hide RowsStream, SetupStream, FinishStream, RowsInside;
    RowsNoLonger(bits, stride, 0, height);
  }

  /** A payload hit by an error burst of at most 8 bits is never printed: the
      checksum byte that `FrameOf` wrote no longer fits. */
  lemma {:induction false} BurstRejected(cmd: bv8, payload: seq<bv8>, hit: seq<bv8>, k: nat, rest: seq<bv8>)
    requires |hit| == |payload| < 0x1_0000 && hit != payload
    requires forall j :: 0 <= j < 8 * |payload| && !(k <= j < k + 8) ==> Bits(payload)[j] == Bits(hit)[j]
    ensures NextFrame(FrameOf(cmd, payload)[..6] + hit + FrameOf(cmd, payload)[6 + |payload|..] + rest) == None
  {
    hide FromLe16, Lo, Hi, Crc, Bits;
    BurstDetected(payload, hit, k);
    Le16RoundTrip(|payload|);
    var f, n := FrameOf(cmd, payload), |payload|;
    var s := f[..6] + hit + f[6 + n..] + rest;
    assert s[4] == f[4] == Lo(n) && s[5] == f[5] == Hi(n);
    assert s[6..6 + n] == hit;
    assert s[6 + n] == f[6 + n] == Crc(payload);
  }
}

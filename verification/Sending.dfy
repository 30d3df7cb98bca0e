/** A print transfer: the driver's sending state, and the log of what was written. */
module Sending {
  import opened Bytes
  import opened Proto
  import Printer

  const GATE_EVERY: nat := 8
  const ROWS_PER_REFILL: nat := 32
  const MIN_CHUNK: nat := 20

  datatype Ras = Ras(bits: seq<bv8>, stride: nat, height: nat)

  /** A raster that holds all the rows it announces. */
  type PrintRas = r: Ras | RowsInside(r.bits, r.stride, r.height) witness Ras([], 0, 0)

  /** The settings a transfer reads when it starts. */
  datatype Settings = Settings(energy: nat, speed: bv8, feedSteps: nat, rle: bool)

  datatype Drive =
    | Idle
    | Scanning
    | Connecting(since: nat)
    | Discovering(since: nat)
    | Sending(
        ras: PrintRas,
        nextRow: nat,
        finished: bool,
        feedSteps: nat,
        rle: bool,
        buf: seq<bv8>,
        off: nat,
        gated: bool,
        sinceGate: nat,
        pausedSince: Option<nat>)

  // --- What is left to send ----------------------------------------------------------

  predicate Shape(d: Drive) {
    && d.Sending? && d.off <= |d.buf| && d.nextRow <= d.ras.height
    && (d.finished ==> d.nextRow == d.ras.height && d.buf == FinishStream(d.feedSteps))
  }

  /** The bytes of the transfer that have not been written yet. */
  ghost function Remaining(d: Drive): seq<bv8>
    requires Shape(d)
  {
    d.buf[d.off..]
    + RowsStream(d.ras.bits, d.ras.stride, d.nextRow, d.ras.height, d.rle)
    + (if d.finished then [] else FinishStream(d.feedSteps))
  }

  /** Where the next refill stops. */
  function RefillStop(d: Drive): nat
    requires d.Sending?
  {
    if d.nextRow + ROWS_PER_REFILL < d.ras.height then d.nextRow + ROWS_PER_REFILL else d.ras.height
  }

  /** The state with bytes to write, or with an empty buffer when none are left. */
  ghost function Refilled(d: Drive): (e: Drive)
    requires Shape(d)
    ensures e.Sending?
  {
    if d.off < |d.buf| then d
    else if d.nextRow < d.ras.height then
      var rows := RowsStream(d.ras.bits, d.ras.stride, d.nextRow, RefillStop(d), d.rle);
      d.(buf := rows, off := 0, nextRow := RefillStop(d))
    else if !d.finished then d.(buf := FinishStream(d.feedSteps), off := 0, finished := true)
    else d
  }

  /** The closing feed has been written out. */
  predicate Ended(d: Drive)
    requires d.Sending?
  {
    d.finished && d.feedSteps > 0 && d.off == |d.buf|
  }

  /** A refill keeps what is left to send, and leaves bytes in the buffer exactly
      when there are any. */
  lemma {:induction false} RefillKeeps(d: Drive)
    requires Shape(d)
    ensures var e := Refilled(d);
            && Shape(e) && Remaining(e) == Remaining(d)
            && e == d.(buf := e.buf, off := e.off, nextRow := e.nextRow, finished := e.finished)
            && (if e.off < |e.buf| then Remaining(d) != [] else Remaining(d) == [] && e.finished)
            && (e.off < |e.buf| ==> !Ended(d) && !Ended(e))
  {
    hide Remaining, RowsStream, FinishStream;
    if d.off < |d.buf| {
      BytesRemain(d);
    } else if d.nextRow < d.ras.height {
      NextRows(d, RefillStop(d), RowsStream(d.ras.bits, d.ras.stride, d.nextRow, RefillStop(d), d.rle));
      SomeRows(d.ras, d.nextRow, RefillStop(d), d.rle);
      BytesRemain(Refilled(d));
    } else if !d.finished {
      NextFinish(d);
      FinishSize(d.feedSteps);
      if d.feedSteps > 0 {
        BytesRemain(Refilled(d));
      } else {
        NothingRemains(Refilled(d));
      }
    } else {
      NothingRemains(d);
    }
  }

  lemma BytesRemain(d: Drive)
    requires Shape(d) && d.off < |d.buf|
    ensures Remaining(d) != []
  {
    assert Remaining(d)[0] == d.buf[d.off];
  }

  lemma SomeRows(ras: PrintRas, from: nat, to: nat, rle: bool)
    requires from < to <= ras.height
    ensures RowsInside(ras.bits, ras.stride, to) && RowsStream(ras.bits, ras.stride, from, to, rle) != []
  {
    RowsStreamNext(ras.bits, ras.stride, from, to, rle);
    assert RowFrame(RowBytes(ras.bits, ras.stride, from), rle) != [];
  }

  lemma FinishSize(feedSteps: nat)
    ensures FinishStream(feedSteps) == [] <==> feedSteps == 0
  {
  }

  lemma {:induction false} NextRows(d: Drive, to: nat, rows: seq<bv8>)
    requires Shape(d) && d.off == |d.buf| && d.nextRow < to <= d.ras.height
    requires rows == RowsStream(d.ras.bits, d.ras.stride, d.nextRow, to, d.rle)
    ensures var e := d.(buf := rows, off := 0, nextRow := to); Shape(e) && Remaining(e) == Remaining(d)
  {
    hide RowsStream, FinishStream;
    RowsStreamSplit(d.ras.bits, d.ras.stride, d.nextRow, to, d.ras.height, d.rle);
    assert rows[0..] == rows && d.buf[d.off..] == [];
  }

  lemma NextFinish(d: Drive)
    requires Shape(d) && d.off == |d.buf| && d.nextRow == d.ras.height && !d.finished
    ensures var e := d.(buf := FinishStream(d.feedSteps), off := 0, finished := true);
            Shape(e) && Remaining(e) == Remaining(d)
  {
    hide RowsStream, FinishStream;
    RowsStreamEnd(d.ras.bits, d.ras.stride, d.nextRow, d.ras.height, d.rle);
    var f := FinishStream(d.feedSteps);
    assert f[0..] == f && d.buf[d.off..] == [];
  }

  lemma NothingRemains(d: Drive)
    requires Shape(d) && d.off == |d.buf| && d.nextRow == d.ras.height && d.finished
    ensures Remaining(d) == []
  {
    hide RowsStream, FinishStream;
    RowsStreamEnd(d.ras.bits, d.ras.stride, d.nextRow, d.ras.height, d.rle);
    assert d.buf[d.off..] == [];
  }

  /** Writing `buf[off..end]` takes exactly those bytes off what remains. */
  lemma {:induction false} TakeChunk(d: Drive, end: nat)
    requires Shape(d) && d.off <= end <= |d.buf|
    ensures var e := d.(off := end);
            Shape(e) && Remaining(d) == d.buf[d.off..end] + Remaining(e)
  {
    hide RowsStream, FinishStream;
    assert d.buf[d.off..] == d.buf[d.off..end] + d.buf[end..];
    var rows := RowsStream(d.ras.bits, d.ras.stride, d.nextRow, d.ras.height, d.rle);
    var finish := if d.finished then [] else FinishStream(d.feedSteps);
    assert d.buf[d.off..end] + d.buf[end..] + rows + finish == d.buf[d.off..end] + (d.buf[end..] + rows + finish);
  }

  // --- How long it takes -------------------------------------------------------------------

  /** The buffers still to be written out, the present one included. */
  function BuffersLeft(d: Drive): nat
    requires Shape(d)
  {
    (if d.off < |d.buf| then 1 else 0)
    + (d.ras.height - d.nextRow + ROWS_PER_REFILL - 1) / ROWS_PER_REFILL
    + (if d.finished then 0 else 1)
  }

  /** A bound on the writes still to come: one for every full chunk, and one for
      the end of each buffer. */
  ghost function WritesLeft(d: Drive, size: nat): nat
    requires Shape(d) && size > 0
  {
    Quotient(|Remaining(d)|, size) + BuffersLeft(d)
  }

  function RoomFor(chunkSize: nat): (size: nat)
    ensures size >= MIN_CHUNK
  {
    if chunkSize < MIN_CHUNK then MIN_CHUNK else chunkSize
  }

  /** Nothing is left to send. */
  predicate Spent(d: Drive)
    requires d.Sending?
  {
    d.off >= |d.buf| && d.nextRow >= d.ras.height && (d.finished || d.feedSteps == 0)
  }

  lemma SpentIff(d: Drive)
    requires Shape(d)
    ensures Spent(d) <==> Remaining(d) == []
  {
    hide RowsStream, FinishStream;
    FinishSize(d.feedSteps);
    if Remaining(d) == [] {
      EndReached(d);
    } else if Spent(d) {
      RowsStreamEnd(d.ras.bits, d.ras.stride, d.nextRow, d.ras.height, d.rle);
    }
  }

  lemma RefillShortens(d: Drive)
    requires Shape(d)
    ensures Shape(Refilled(d)) && BuffersLeft(Refilled(d)) <= BuffersLeft(d)
  {
    hide Remaining, RowsStream, FinishStream;
    RefillKeeps(d);
  }

  function Quotient(n: nat, size: nat): nat
    requires size > 0
  {
    n / size
  }

  lemma Quotients(n: nat, m: nat, size: nat)
    requires size > 0
    ensures n <= m ==> Quotient(n, size) <= Quotient(m, size)
    ensures n + size <= m ==> Quotient(n, size) < Quotient(m, size)
  {
    var a, b := n / size, m / size;
    assert n == size * a + n % size && m == size * b + m % size;
    assert a >= b + 1 ==> size * a >= size * (b + 1);
    assert a >= b ==> size * a >= size * b;
  }

  /** A write of a full chunk, or of the end of a buffer, brings the end closer. */
  lemma WriteShortens(d: Drive, end: nat, size: nat)
    requires Shape(d) && d.off < end <= |d.buf| && size > 0 && (end == |d.buf| || end == d.off + size)
    ensures Shape(d.(off := end)) && WritesLeft(d.(off := end), size) < WritesLeft(d, size)
  {
    hide Remaining, FinishStream, Quotient;
    TakeChunk(d, end);
    var e := d.(off := end);
    assert |Remaining(d)| == end - d.off + |Remaining(e)|;
    Quotients(|Remaining(e)|, |Remaining(d)|, size);
  }

  lemma WritesIgnoreGate(d: Drive, e: Drive, size: nat)
    requires Shape(d) && e.Sending? && size > 0
    requires e == d.(gated := e.gated, sinceGate := e.sinceGate, pausedSince := e.pausedSince)
    ensures Shape(e) && WritesLeft(e, size) == WritesLeft(d, size)
  {
    hide Remaining;
    RemainingIgnoresGate(d, e);
  }

  /** The bound at the start of a transfer, read off its raster. */
  lemma {:induction false} WritesOfJob(ras: PrintRas, cfg: Settings, size: nat)
    requires size > 0
    ensures Shape(Begun(ras, cfg))
    ensures WritesLeft(Begun(ras, cfg), size)
         <= Quotient(94 + 56 * ras.height, size) + (ras.height + ROWS_PER_REFILL - 1) / ROWS_PER_REFILL + 2
  {
    hide RowsStream, SetupStream, FinishStream, Quotient;
    SetupSize(cfg.energy, cfg.speed);
    FinishLength(cfg.feedSteps);
    Printer.RowsNoLonger(ras.bits, ras.stride, 0, ras.height);
    var d := Begun(ras, cfg);
    assert |Remaining(d)| <= 94 + 56 * ras.height;
    Quotients(|Remaining(d)|, 94 + 56 * ras.height, size);
  }

  lemma SetupSize(energy: nat, speed: bv8)
    ensures |SetupStream(energy, speed)| == 84
  {
    hide ReverseBits;
  }

  lemma FinishLength(feedSteps: nat)
    ensures |FinishStream(feedSteps)| <= 10
  {
  }

  // --- The log of transfers --------------------------------------------------------------

  datatype Write = Write(bytes: seq<bv8>, withResponse: bool)

  /** Which writes a TX characteristic takes. */
  datatype TxKind = TxKind(response: bool, plain: bool)

  /** One transfer: its raster and settings, the characteristic it goes to, what
      was written, and whether it completed. */
  datatype Transfer = Transfer(ras: PrintRas, cfg: Settings, tx: TxKind, writes: seq<Write>, done: bool)

  /** All bytes written, in order. */
  function Sent(writes: seq<Write>): seq<bv8> {
    if writes == [] then [] else Sent(writes[..|writes| - 1]) + writes[|writes| - 1].bytes
  }

  /** Writes without response since the last one with response. */
  function Plain(writes: seq<Write>): nat {
    if writes == [] || writes[|writes| - 1].withResponse then 0 else Plain(writes[..|writes| - 1]) + 1
  }

  ghost function Job(t: Transfer): seq<bv8> {
    JobStream(t.ras.bits, t.ras.stride, t.ras.height, t.cfg.energy, t.cfg.speed, t.cfg.feedSteps, t.cfg.rle)
  }

  /** Never eight writes in a row without response. */
  ghost predicate Regular(writes: seq<Write>) {
    forall k :: 0 <= k <= |writes| ==> Plain(writes[..k]) < 8
  }

  /** Write number `k` waits for its response, the closing one aside. */
  predicate Due(tx: TxKind, k: nat) { !tx.plain || (tx.response && (k + 1) % GATE_EVERY == 0) }

  ghost predicate OnBeat(writes: seq<Write>, tx: TxKind, n: nat)
    requires n <= |writes|
  {
    forall k :: 0 <= k < n ==> writes[k].withResponse == Due(tx, k)
  }

  /** Which writes wait; the one that closes a paper feed waits whenever it can. */
  ghost predicate Rhythm(writes: seq<Write>, tx: TxKind, ended: bool) {
    var n := |writes|;
    if ended then n > 0 && OnBeat(writes, tx, n - 1) && writes[n - 1].withResponse == (!tx.plain || tx.response)
    else OnBeat(writes, tx, n)
  }

  /** A transfer that is over wrote a part of its job from the start, and the
      whole job if it completed. */
  ghost predicate Closed(t: Transfer) {
    && Sent(t.writes) <= Job(t)
    && (t.done ==> Sent(t.writes) == Job(t) && Rhythm(t.writes, t.tx, t.cfg.feedSteps > 0))
    && (t.tx.response ==> Regular(t.writes))
  }

  ghost predicate AllClosed(log: seq<Transfer>) { forall k :: 0 <= k < |log| ==> Closed(log[k]) }

  /** The running transfer: what was written and what remains is the job. */
  ghost predicate Running(t: Transfer, d: Drive) {
    && Shape(d) && t.ras == d.ras && t.cfg.feedSteps == d.feedSteps && t.cfg.rle == d.rle && !t.done
    && Sent(t.writes) + Remaining(d) == Job(t)
    && Plain(t.writes) == d.sinceGate
    && (d.gated ==> t.writes != [] && t.writes[|t.writes| - 1].withResponse)
    && (t.tx.response ==> Regular(t.writes)) && Rhythm(t.writes, t.tx, Ended(d))
  }

  ghost predicate LogOk(log: seq<Transfer>, d: Drive, tx: TxKind) {
    if d.Sending? then
      && log != [] && AllClosed(log[..|log| - 1])
      && Running(log[|log| - 1], d) && log[|log| - 1].tx == tx
    else AllClosed(log)
  }

  lemma SentSnoc(writes: seq<Write>, w: Write)
    ensures Sent(writes + [w]) == Sent(writes) + w.bytes
    ensures Plain(writes + [w]) == if w.withResponse then 0 else Plain(writes) + 1
  {
    assert (writes + [w])[..|writes|] == writes;
  }

  lemma RegularSnoc(writes: seq<Write>, w: Write)
    requires Regular(writes) && (w.withResponse || Plain(writes) + 1 < GATE_EVERY)
    ensures Regular(writes + [w])
  {
    hide Plain;
    SentSnoc(writes, w);
    var all := writes + [w];
    forall k | 0 <= k <= |all| ensures Plain(all[..k]) < GATE_EVERY {
      if k <= |writes| {
        assert all[..k] == writes[..k];
      } else {
        assert all[..k] == all;
      }
    }
  }

  lemma NoWritesIsRegular()
    ensures Regular([])
  {
  }

  lemma ClosedSnoc(log: seq<Transfer>, t: Transfer)
    requires AllClosed(log) && Closed(t)
    ensures AllClosed(log + [t])
  {
    hide Closed;
  }

  /** Abandoning a running transfer leaves a part of its job on the wire. */
  lemma Abandon(log: seq<Transfer>, d: Drive, tx: TxKind)
    requires LogOk(log, d, tx)
    ensures AllClosed(log)
  {
    hide Regular, Sent, Plain, Job, Remaining, Shape, Rhythm;
    if d.Sending? {
      var n := |log| - 1;
      assert Sent(log[n].writes) <= Job(log[n]);
      assert log == log[..n] + [log[n]];
      ClosedSnoc(log[..n], log[n]);
    }
  }

  /** Completing one leaves the whole job there. */
  lemma Complete(log: seq<Transfer>, d: Drive, tx: TxKind)
    requires d.Sending? && LogOk(log, d, tx) && Remaining(d) == []
    ensures AllClosed(Completed(log)) && !log[|log| - 1].done
  {
    hide Regular, Sent, Plain, Job, Remaining, Rhythm;
    EndReached(d);
    var n := |log| - 1;
    var t := log[n].(done := true);
    assert Sent(t.writes) + [] == Sent(t.writes) && Job(t) == Job(log[n]) by { JobIgnoresDone(log[n]); }
    ClosedSnoc(log[..n], t);
  }

  /** The log with its last transfer marked complete. */
  ghost function Completed(log: seq<Transfer>): seq<Transfer>
    requires log != []
  {
    var n := |log| - 1;
    log[..n] + [log[n].(done := true)]
  }

  lemma EndReached(d: Drive)
    requires Shape(d) && Remaining(d) == []
    ensures d.off == |d.buf| && d.nextRow == d.ras.height
    ensures Ended(d) <==> d.feedSteps > 0
  {
    hide RowsStream, FinishStream;
    var rows := RowsStream(d.ras.bits, d.ras.stride, d.nextRow, d.ras.height, d.rle);
    assert |d.buf[d.off..]| + |rows| + |if d.finished then [] else FinishStream(d.feedSteps)| == 0;
    FinishSize(d.feedSteps);
    if d.nextRow < d.ras.height {
      SomeRows(d.ras, d.nextRow, d.ras.height, d.rle);
    }
  }

  lemma JobIgnoresDone(t: Transfer)
    ensures Job(t.(done := true)) == Job(t)
  {
  }

  function Begun(ras: PrintRas, cfg: Settings): Drive {
    Sending(ras, 0, false, cfg.feedSteps, cfg.rle, SetupStream(cfg.energy, cfg.speed), 0, false, 0, None)
  }

  lemma Begin(log: seq<Transfer>, ras: PrintRas, cfg: Settings, tx: TxKind)
    requires AllClosed(log)
    ensures LogOk(log + [Transfer(ras, cfg, tx, [], false)], Begun(ras, cfg), tx)
  {
    hide RowsStream, FinishStream, SetupStream;
    var t, d := Transfer(ras, cfg, tx, [], false), Begun(ras, cfg);
    var l := log + [t];
    assert l[..|l| - 1] == log;
    assert d.buf[0..] == d.buf;
    assert Sent([]) + Remaining(d) == Job(t) by { assert [] + Remaining(d) == Remaining(d); }
    NoWritesIsRegular();
  }

  /** The state after writing up to `end`. */
  function Advanced(d: Drive, end: nat, withResponse: bool): Drive
    requires d.Sending?
  {
    d.(off := end, gated := d.gated || withResponse, sinceGate := if withResponse then 0 else d.sinceGate + 1)
  }

  /** Whether the write of `buf[off..end]` waits for a response. */
  predicate Waited(d: Drive, tx: TxKind, end: nat)
    requires d.Sending?
  {
    !tx.plain || (tx.response && (d.sinceGate + 1 >= GATE_EVERY || (d.finished && end == |d.buf|)))
  }

  lemma {:induction false} PlainOnBeat(writes: seq<Write>, tx: TxKind)
    requires OnBeat(writes, tx, |writes|) && tx.plain && tx.response
    ensures Plain(writes) == |writes| % GATE_EVERY
  {
    if writes != [] {
      var n := |writes| - 1;
      assert writes[n].withResponse == Due(tx, n);
      PlainOnBeat(writes[..n], tx);
    }
  }

  lemma RhythmWritten(writes: seq<Write>, d: Drive, tx: TxKind, end: nat)
    requires Shape(d) && d.off < end <= |d.buf| && Plain(writes) == d.sinceGate && Rhythm(writes, tx, Ended(d))
    ensures var w := Write(d.buf[d.off..end], Waited(d, tx, end));
            Rhythm(writes + [w], tx, Ended(Advanced(d, end, Waited(d, tx, end))))
  {
    hide Plain;
    FinishSize(d.feedSteps);
    if tx.plain && tx.response {
      PlainOnBeat(writes, tx);
    }
  }

  lemma RunningWritten(t: Transfer, d: Drive, end: nat)
    requires Shape(d) && Running(t, d) && !d.gated && d.off < end <= |d.buf|
    requires t.tx.response ==> d.sinceGate < GATE_EVERY
    ensures var waited := Waited(d, t.tx, end);
            Running(t.(writes := t.writes + [Write(d.buf[d.off..end], waited)]), Advanced(d, end, waited))
  {
    hide Regular, Sent, Plain, Remaining, Job, Rhythm, FinishStream;
    var waited := Waited(d, t.tx, end);
    var w := Write(d.buf[d.off..end], waited);
    var u, e := t.(writes := t.writes + [w]), Advanced(d, end, waited);
    TakeChunk(d, end);
    SentSnoc(t.writes, w);
    if t.tx.response {
      RegularSnoc(t.writes, w);
    }
    RhythmWritten(t.writes, d, t.tx, end);
    RemainingIgnoresGate(d.(off := end), e);
    JobIgnoresWrites(t, u);
    assert Sent(t.writes) + w.bytes + Remaining(e) == Sent(t.writes) + (w.bytes + Remaining(e));
  }

  /** The log with one more write of the running transfer. */
  ghost function Logged(log: seq<Transfer>, w: Write): seq<Transfer>
    requires log != []
  {
    var n := |log| - 1;
    log[..n] + [log[n].(writes := log[n].writes + [w])]
  }

  /** After a write, the log holds it and the rest of the job still remains. */
  lemma Written(log: seq<Transfer>, d: Drive, tx: TxKind, end: nat)
    requires Shape(d) && LogOk(log, d, tx) && !d.gated && d.off < end <= |d.buf|
    requires tx.response ==> d.sinceGate < GATE_EVERY
    ensures var w, e := Write(d.buf[d.off..end], Waited(d, tx, end)), Advanced(d, end, Waited(d, tx, end));
            && LogOk(Logged(log, w), e, tx) && !log[|log| - 1].done
            && Shape(e) && Remaining(d) == w.bytes + Remaining(e)
  {
    hide Running, AllClosed, Remaining, Waited, FinishStream;
    var waited := Waited(d, tx, end);
    TakeChunk(d, end);
    RemainingIgnoresGate(d.(off := end), Advanced(d, end, waited));
    var n := |log| - 1;
    var u := log[n].(writes := log[n].writes + [Write(d.buf[d.off..end], waited)]);
    RunningWritten(log[n], d, end);
    NotDone(log[n], d);
    var l := log[..n] + [u];
    assert l[..|l| - 1] == log[..n];
  }

  lemma NotDone(t: Transfer, d: Drive)
    requires Running(t, d)
    ensures !t.done
  {
  }

  lemma RemainingIgnoresGate(d: Drive, e: Drive)
    requires Shape(d) && e.Sending?
    requires e == d.(gated := e.gated, sinceGate := e.sinceGate, pausedSince := e.pausedSince)
    ensures Shape(e) && Remaining(e) == Remaining(d)
  {
  }

  lemma JobIgnoresWrites(t: Transfer, u: Transfer)
    requires u == t.(writes := u.writes)
    ensures Job(u) == Job(t)
  {
  }

  // --- The log over time -----------------------------------------------------------------

  /** `later` is `earlier` with more written, or completed since. */
  ghost predicate Continues(earlier: Transfer, later: Transfer) {
    && later == earlier.(writes := later.writes, done := later.done)
    && earlier.writes <= later.writes && (earlier.done ==> later == earlier)
  }

  /** No transfer is ever dropped from the log or taken back. */
  ghost predicate Grows(earlier: seq<Transfer>, later: seq<Transfer>) {
    |earlier| <= |later| && forall k :: 0 <= k < |earlier| ==> Continues(earlier[k], later[k])
  }

  lemma GrowsAtEnd(log: seq<Transfer>, w: Write)
    requires log != [] && !log[|log| - 1].done
    ensures Grows(log, Logged(log, w)) && Grows(log, Completed(log))
  {
  }

  lemma GrowsOn(a: seq<Transfer>, b: seq<Transfer>, c: seq<Transfer>)
    requires Grows(a, b) && Grows(b, c)
    ensures Grows(a, c)
  {
  }

  /** Refilling, releasing the gate and pausing leave the log in order. */
  lemma SameRest(log: seq<Transfer>, d: Drive, e: Drive, tx: TxKind)
    requires d.Sending? && LogOk(log, d, tx) && Shape(e) && Remaining(e) == Remaining(d)
    requires e.ras == d.ras && e.feedSteps == d.feedSteps && e.rle == d.rle && e.sinceGate == d.sinceGate
    requires (e.gated ==> d.gated) && Ended(e) == Ended(d)
    ensures LogOk(log, e, tx)
  {
    hide Regular, Sent, Plain, Remaining, AllClosed, Job, Rhythm, FinishStream;
  }

  /** Every completed transfer in a sound log wrote exactly its job. */
  lemma {:induction false} CompletedTransfers(log: seq<Transfer>, d: Drive, tx: TxKind, k: nat)
    requires LogOk(log, d, tx) && k < |log| && log[k].done
    ensures Sent(log[k].writes) == Job(log[k])
  {
    hide Sent, Plain, Regular, Remaining, Job;
    if d.Sending? {
      assert k < |log| - 1 && log[..|log| - 1][k] == log[k];
    }
  }

  /** The end of a completed transfer, where writes with response are possible:
      the last write waits for its response exactly when it closes a paper feed,
      when plain writes are not possible, or when it is an eighth one. */
  lemma {:induction false} LastWriteWaits(log: seq<Transfer>, d: Drive, tx: TxKind, k: nat)
    requires LogOk(log, d, tx) && k < |log| && log[k].done && log[k].tx.response
    ensures var t, n := log[k], |log[k].writes|;
            n > 0 && (t.writes[n - 1].withResponse
                      <==> t.cfg.feedSteps > 0 || !t.tx.plain || n % 8 == 0)
  {
    hide Sent, Plain, Regular, Remaining, Job;
    if d.Sending? {
      NotDone(log[|log| - 1], d);
      assert log[..|log| - 1][k] == log[k];
    }
    JobNotEmpty(log[k]);
  }

  lemma JobNotEmpty(t: Transfer)
    ensures Job(t) != [] && Sent([]) == []
  {
    hide RowsStream, FinishStream;
    assert Job(t)[0] == 0x51;
  }

  /** What the printer makes of a completed transfer is its raster and settings,
      however the bytes were cut into chunks, gated and paused. */
  lemma {:induction false} CompletedTransferPrints(log: seq<Transfer>, d: Drive, tx: TxKind, k: nat)
    requires LogOk(log, d, tx) && k < |log| && log[k].done
    requires log[k].cfg.energy < 0x1_0000 && log[k].cfg.feedSteps < 0x1_0000
    ensures var t := log[k];
            Printer.Decode(Sent(t.writes))
            == Some(Printer.JobCommands(t.ras.bits, t.ras.stride, t.ras.height,
                                        t.cfg.energy, t.cfg.speed, t.cfg.feedSteps))
  {
    hide Sent, LogOk, Printer.Decode, Printer.JobCommands, JobStream;
    var t := log[k];
    CompletedTransfers(log, d, tx, k);
    Printer.JobMeaning(t.ras.bits, t.ras.stride, t.ras.height, t.cfg.energy, t.cfg.speed, t.cfg.feedSteps, t.cfg.rle);
  }
}

/** Runs of the driver: a transfer that is let run ends, and the cases that
    callers may not expect. */
module Scenarios {
  import opened Bytes
  import opened Driver
  import opened Layout
  import opened Pages
  import opened Prints
  import opened Proto
  import opened Sending
  import Raster

  // --- Progress --------------------------------------------------------------------------

  /** When writes succeed, nothing pauses the transfer and each gated write is
      completed, a transfer ends within a number of ticks that its raster and the
      chunk size determine; then the next page begins or the print is over. */
  method RunOut(d: Driver, host: TickHost) returns (ticks: nat)
    requires d.Valid() && host.writeOk && d.drive.Sending? && !d.drive.gated && d.drive.pausedSince == None
    modifies d
    ensures d.Valid() && d.consumed == old(d.consumed)
    ensures Shape(old(d.drive)) && old(d.log) != []
    ensures ticks <= WritesLeft(old(d.drive), RoomFor(host.chunk)) + 1
    ensures d.Kept() == Turned(old(d.Kept()), host.render, d.font)
    ensures d.drive == match NextPrint(old(d.after), host.render)
                       case None => Idle
                       case Some(ras) => Begun(ras, host.cfg)
    ensures var n := |old(d.log)| - 1;
            && |d.log| == n + 1 + (if NextPrint(old(d.after), host.render).Some? then 1 else 0)
            && Grows(old(d.log), d.log) && d.log[n].done
            && |d.log[n].writes| + 1 <= |old(d.log)[n].writes| + ticks
  {
    hide LogOk, Begun, Grows, Pumped, PageOf, Remaining, WritesLeft, Shape, BooksOk, Logged, Completed, Turned;
    ghost var size, n := RoomFor(host.chunk), |d.log| - 1;
    LogShape(d.log, d.drive, d.TxAccepts());
    GrowsByAnything(d.log);
    ticks := 0;
    ghost var left, next := WritesLeft(d.drive, size), NextPrint(d.after, host.render);
    SpentIff(d.drive);
    while !Spent(d.drive)
      invariant d.Valid() && d.drive.Sending? && !d.drive.gated && d.drive.pausedSince == None && Shape(d.drive)
      invariant d.nowMs == old(d.nowMs) && d.consumed == old(d.consumed) && d.Kept() == old(d.Kept())
      invariant |d.log| == n + 1 && Grows(old(d.log), d.log)
      invariant |d.log[n].writes| <= |old(d.log)[n].writes| + ticks
      invariant ticks + WritesLeft(d.drive, size) <= left
      invariant Spent(d.drive) <==> Remaining(d.drive) == []
      decreases WritesLeft(d.drive, size)
    {
      ghost var before, log, tx := d.drive, d.log, d.TxAccepts();
      var sent := d.OnTick(d.nowMs, host);
      PumpShortens(before, d.drive, log, d.log, d.nowMs, host, next, tx, sent);
      LoggedOnce(log, sent.value);
      GrowsOn(old(d.log), log, d.log);
      ghost var after := d.drive;
      if d.drive.gated {
        d.OnWriteDone(d.txHandle, 0);
      }
      WritesIgnoreGate(after, d.drive, size);
      SpentIff(d.drive);
      ticks := ticks + 1;
    }
    ghost var before, log, tx := d.drive, d.log, d.TxAccepts();
    var sent := d.OnTick(d.nowMs, host);
    PumpCompletes(before, d.drive, log, d.log, d.nowMs, host, next, tx, sent);
    GrowsOn(old(d.log), log, d.log);
    ticks := ticks + 1;
  }

  /** The tick that completes a transfer. */
  lemma PumpCompletes(before: Drive, after: Drive, log: seq<Transfer>, log': seq<Transfer>, now: nat,
                      host: TickHost, next: Option<PrintRas>, tx: TxKind, sent: Option<Write>)
    requires Shape(before) && log != [] && Pumped(before, after, log, log', now, host, next, tx, sent)
    requires !Waits(before, now) && Remaining(before) == []
    ensures sent == None && after == if next.Some? then Begun(next.value, host.cfg) else Idle
    ensures |log'| == |log| + (if next.Some? then 1 else 0)
    ensures log'[|log| - 1] == log[|log| - 1].(done := true)
  {
    hide Remaining, Begun;
  }

  lemma LoggedOnce(log: seq<Transfer>, w: Write)
    requires log != []
    ensures |Logged(log, w)| == |log| && Logged(log, w)[|log| - 1].writes == log[|log| - 1].writes + [w]
  {
  }

  // --- From a job to its transfer -------------------------------------------------------------

  /** A link whose saved printer answers. */
  const NEAR := Link(true, true, true, true)

  /** Host answers of a tick in which everything works but page rendering. */
  function Fine(chunk: nat, cfg: Settings): TickHost {
    TickHost(true, true, None, 1, true, 1, true, chunk, true, Failed, cfg)
  }

  /** A TX characteristic that takes both kinds of writes. */
  const BOTH := [RemoteChar(Tx, 1, 0x0C)]

  lemma BothKinds()
    ensures LastOf(BOTH, Tx) == BOTH[0] && AcceptsResponse(0x0C) && AcceptsPlain(0x0C)
  {
  }

  /** From a connecting driver to the start of its transfer. */
  method Attach(d: Driver, cfg: Settings, chars: seq<RemoteChar>)
    requires d.Valid() && d.drive.Connecting? && LastOf(chars, Tx).handle != 0
    modifies d
    ensures d.Valid() && old(d.pending).Some? && d.drive == Begun(old(d.pending).value, cfg)
    ensures d.Kept() == old(d.Kept()).(queue := old(d.Kept()).queue.(pending := None))
    ensures d.log == old(d.log) + [Transfer(old(d.pending).value, cfg, d.TxAccepts(), [], false)]
    ensures d.txProps == LastOf(chars, Tx).properties && d.consumed == old(d.consumed)
  {
    hide LogOk, Begun, Grows, Pumped, LastOf, BooksOk, Shape, Booked;
    var sent := d.OnTick(d.nowMs, Fine(0, cfg));
    d.OnDiscovered(chars, cfg);
    BegunIsSending(old(d.pending).value, cfg);
  }

  /** A fresh driver takes a job, finds its printer, and begins to send. */
  method Deliver(font: Setter, payload: seq<bv8>, lines: Option<seq<Line>>, render: Render, cfg: Settings,
                 chars: seq<RemoteChar>)
    returns (d: Driver)
    requires JobAsked(payload, lines, render, font).Some? && LastOf(chars, Tx).handle != 0
    ensures fresh(d) && d.Valid() && d.font == font && d.consumed == 1
    ensures var a := JobAsked(payload, lines, render, font).value;
            && d.drive == Begun(a.ras, cfg) && d.txProps == LastOf(chars, Tx).properties
            && d.log == [Transfer(a.ras, cfg, d.TxAccepts(), [], false)]
            && d.Kept() == Books(Queue(None, a.page.rest, AfterPage(a.page.rest), true,
                                       Some(Print(a.source, true, 0, [Sheet(a.page.rows, a.ras)]))), [], [])
  {
    hide LogOk, Begun, LastOf, BooksOk, JobAsked;
    d := new Driver(font);
    d.OnJob(payload, lines, render, NEAR, cfg);
    Attach(d, cfg, chars);
  }

  // --- The unexpected cases ------------------------------------------------------------------

  /** Any job: discovery is delivered a second time, during its transfer. The
      driver is idle, and the job is never answered. */
  method LateDiscovery(font: Setter, payload: seq<bv8>, lines: Option<seq<Line>>, render: Render, cfg: Settings,
                       chars: seq<RemoteChar>)
    returns (d: Driver)
    requires JobAsked(payload, lines, render, font).Some? && LastOf(chars, Tx).handle != 0
    ensures !d.Consistent() && d.drive == Idle && d.jobActive && d.consumed == 1 && d.reports == []
    ensures |d.log| == 1 && !d.log[0].done && d.log[0].writes == []
  {
    hide LogOk, Begun, LastOf, BooksOk, JobAsked;
    d := Deliver(font, payload, lines, render, cfg, chars);
    BegunIsSending(JobAsked(payload, lines, render, font).value.ras, cfg);
    d.OnDiscovered(chars, cfg);
  }

  /** A raster job of one row, no paper feed, a characteristic that takes both
      kinds of writes: the last write of the completed transfer is plain. */
  method UnawaitedEnd(font: Setter, payload: seq<bv8>, cfg: Settings) returns (d: Driver)
    requires Raster.Parse(payload).Some? && Raster.Parse(payload).value.height == 1 && cfg.feedSteps == 0
    ensures d.Valid() && d.drive == Idle && d.reports == [Done]
    ensures |d.log| == 1 && d.log[0].done && d.log[0].tx == TxKind(true, true)
    ensures var writes := d.log[0].writes; writes != [] && !writes[|writes| - 1].withResponse
  {
    hide LogOk, Begun, LastOf, BooksOk, Raster.Parse, Remaining, Shape, WritesLeft, Grows;
    BothKinds();
    d := Deliver(font, payload, None, NoScratch, cfg, BOTH);
    ghost var ras := d.log[0].ras;
    BegunRuns(ras, cfg);
    WritesOfJob(ras, cfg, 180);
    FewTicks();
    ghost var log := d.log;
    var ticks := RunOut(d, Fine(180, cfg));
    assert Continues(log[0], d.log[0]) by { GrownAt(log, d.log, 0); }
    LastWriteWaits(d.log, d.drive, d.TxAccepts(), 0);
  }

  lemma BegunRuns(ras: PrintRas, cfg: Settings)
    ensures var d := Begun(ras, cfg); d.Sending? && !d.gated && d.pausedSince == None
  {
  }

  lemma FewTicks()
    ensures Quotient(94 + 56 * 1, 180) + (1 + ROWS_PER_REFILL - 1) / ROWS_PER_REFILL + 2 == 3
  {
  }

  lemma GrownAt(log: seq<Transfer>, log': seq<Transfer>, k: nat)
    requires Grows(log, log') && k < |log|
    ensures k < |log'| && Continues(log[k], log'[k])
  {
  }

  // --- Rows reported as printed ----------------------------------------------------------

  /** The printer's line heights, and a font whose characters are 11 pixels wide. */
  const LINE_HEIGHT: bool -> int := headline => if headline then 26 else 20

  const ELEVEN_WIDE: bool -> Measure := headline => (text => 11 * |text|)

  const FONT := Setter(LINE_HEIGHT, FontWrap(ELEVEN_WIDE, 376))

  const BODY := Line(false, "a")

  /** `n` lines of one character. */
  function Alike(n: nat): seq<Line> { seq(n, _ => BODY) }

  lemma BodyIsOneRow()
    ensures Stable(FONT.wrap) && FONT.wrap(false, "a") == ["a"] && Rows(BODY, FONT.wrap) == [BODY]
  {
    hide Stable, Rows;
    forall headline ensures Monotone(ELEVEN_WIDE(headline)) {
      AllAlikeWide(headline);
    }
    FontWrapIsStable(ELEVEN_WIDE, 376);
    OneLetterLine(376, ELEVEN_WIDE(false));
    RewrapIsIdentity("a", 376, ELEVEN_WIDE(false));
    assert FONT.wrap(false, "a") == Wrapped("a", 376, ELEVEN_WIDE(false));
    TextRows(BODY, FONT.wrap);
    assert AsLines(false, ["a"]) == [BODY];
  }

  lemma AllAlikeWide(headline: bool)
    ensures Monotone(ELEVEN_WIDE(headline))
  {
  }

  lemma OneLetterLine(max: nat, m: Measure)
    ensures GoodLine("a", max, m)
  {
    assert Join(["a"]) == "a" by { JoinOne("a"); }
    assert LineOf("a", ["a"], max, m);
  }

  /** A page takes as many of them as fit. */
  lemma {:induction false} AlikeOnPage(n: nat, first: bool, y: int)
    requires y <= PAGE_MAX_ROWS && (first ==> y + 20 <= PAGE_MAX_ROWS)
    ensures var m := RowsFitting(PAGE_MAX_ROWS - y, 20);
            var k := if n < m then n else m;
            Laid(Alike(n), first, y, PAGE_MAX_ROWS, FONT.lineH, FONT.wrap) == Page(Alike(k), Alike(n - k))
    decreases n
  {
    hide Laid;
    var m := RowsFitting(PAGE_MAX_ROWS - y, 20);
    assert Alike(0) == [];
    if n > 0 {
      NextAlike(n, first, y);
      if m >= 1 {
        AlikeOnPage(n - 1, false, y + 20);
        var k := if n < m then n else m;
        assert [BODY] + Alike(k - 1) == Alike(k);
      }
    } else {
      NoAlike(first, y);
    }
  }

  lemma NoAlike(first: bool, y: int)
    ensures Laid(Alike(0), first, y, PAGE_MAX_ROWS, FONT.lineH, FONT.wrap) == Page([], [])
  {
  }

  lemma NextAlike(n: nat, first: bool, y: int)
    requires n > 0 && y <= PAGE_MAX_ROWS && (first ==> y + 20 <= PAGE_MAX_ROWS)
    ensures Laid(Alike(n), first, y, PAGE_MAX_ROWS, FONT.lineH, FONT.wrap)
         == if RowsFitting(PAGE_MAX_ROWS - y, 20) == 0 then Page([], Alike(n))
            else Below([BODY], Laid(Alike(n - 1), false, y + 20, PAGE_MAX_ROWS, FONT.lineH, FONT.wrap))
  {
    hide Rows, Stable, FontWrap;
    BodyIsOneRow();
    assert Alike(n)[1..] == Alike(n - 1) && LineHeight(false, FONT.lineH) == 20;
  }

  /** Of 60 lines, 59 go on the first page, and one is left for the second. */
  lemma SixtyLines()
    ensures PageOf(Alike(60), FONT) == Page(Alike(59), Alike(1))
    ensures PageOf(Alike(1), FONT) == Page(Alike(1), Alike(0)) && Alike(0) == [] && Alike(1) == [BODY]
  {
    hide Laid;
    AlikeOnPage(60, true, MARGIN);
    AlikeOnPage(1, true, MARGIN);
  }

  /** A feature job with a text of 60 lines, whose second page fails to render: it
      is answered DONE, and its last row is on no page. */
  method LostRow(payload: seq<bv8>, ras: PrintRas, cfg: Settings, chunk: nat) returns (d: Driver)
    requires Raster.Parse(payload) == None
    ensures d.Valid() && d.drive == Idle && d.consumed == 1 && d.reports == [Done]
    ensures d.ended == [Ended(Print(Text(Alike(60)), true, 0, [Sheet(Alike(59), ras)]), Done, [BODY], 0)]
  {
    hide LogOk, Begun, LastOf, BooksOk, Raster.Parse, Remaining, Shape, WritesLeft, Grows, PageOf;
    BothKinds();
    SixtyLines();
    d := Deliver(FONT, payload, Some(Alike(60)), Rendered(ras), cfg, BOTH);
    BegunRuns(ras, cfg);
    var ticks := RunOut(d, Fine(chunk, cfg));
  }
}

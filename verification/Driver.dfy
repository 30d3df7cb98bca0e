/** The print driver. Every event of the host is a method call; what the host
    answers during it is a parameter. */
module Driver {
  import opened Bytes
  import opened Pages
  import opened Prints
  import opened Proto
  import opened Sending
  import Raster
  import Wire

  const POLL_INTERVAL_MS: nat := 200
  const RESCAN_INTERVAL_MS: nat := 3000
  const CONNECT_TIMEOUT_MS: nat := 10_000
  const DISCOVER_TIMEOUT_MS: nat := 8_000
  const PAUSE_MAX_MS: nat := 10_000
  const PROP_WRITE_NO_RSP: bv8 := 0x04
  const PROP_WRITE: bv8 := 0x08

  /** State of the radio when a print starts. */
  datatype Link = Link(enabled: bool, saved: bool, connectOk: bool, scanOk: bool)

  datatype NextPageOutcome = PageStarted | PageFailed | NoMorePages

  datatype CharKind = Tx | Rx | Other

  datatype RemoteChar = RemoteChar(kind: CharKind, handle: nat, properties: bv8)

  /** What the host answers during one tick. */
  datatype TickHost = TickHost(
    scanOk: bool, scanDone: bool, best: Option<bool>,
    connHandle: nat, connIsSaved: bool, connAgain: nat, discoverOk: bool,
    chunk: nat, writeOk: bool, render: Render, cfg: Settings)

  /** Elapsed time, never negative. */
  function Since(now: nat, then_: nat): nat { if now < then_ then 0 else now - then_ }

  /** The TX characteristic takes writes with / without response. */
  predicate AcceptsResponse(props: bv8) { props & PROP_WRITE != 0 }

  predicate AcceptsPlain(props: bv8) { props & PROP_WRITE_NO_RSP != 0 || props == 0 }

  /** The pause state after a batch of notifications; an empty one ends it. */
  function PausedAfter(notes: seq<seq<bv8>>, paused: Option<nat>, now: nat): Option<nat> {
    if notes == [] || notes[0] == [] then paused
    else
      match ParseStatus(notes[0])
      case Some(BufferFull) => PausedAfter(notes[1..], Some(now), now)
      case Some(Ready) => PausedAfter(notes[1..], None, now)
      case None => PausedAfter(notes[1..], paused, now)
  }

  /** Nothing may be written: a write is outstanding, or the printer asked for a
      pause that still runs. */
  predicate Waits(d: Drive, now: nat)
    requires d.Sending?
  {
    d.gated || (d.pausedSince.Some? && Since(now, d.pausedSince.value) < PAUSE_MAX_MS)
  }

  /** The write that carries the next chunk of what remains. */
  ghost predicate Wrote(before: Drive, after: Drive, log: seq<Transfer>, log': seq<Transfer>,
                        chunkSize: nat, tx: TxKind, w: Write)
    requires Shape(before) && log != []
  {
    var d := Resumed(Refilled(before));
    && d.off < |d.buf| && w == NextWrite(d, chunkSize, tx)
    && after == Advanced(d, d.off + |w.bytes|, w.withResponse) && log' == Logged(log, w)
    && Shape(after) && Remaining(before) == w.bytes + Remaining(after)
  }

  /** The next chunk of a buffer, and whether its write waits. */
  function NextWrite(d: Drive, chunkSize: nat, tx: TxKind): (w: Write)
    requires d.Sending? && d.off < |d.buf|
    ensures w.bytes != [] && w.bytes <= d.buf[d.off..]
  {
    var end := ChunkEnd(d, chunkSize);
    Write(d.buf[d.off..end], Waited(d, tx, end))
  }

  function Resumed(d: Drive): Drive
    requires d.Sending?
  {
    d.(pausedSince := None)
  }

  function ChunkEnd(d: Drive, chunkSize: nat): nat
    requires d.Sending?
  {
    var size := RoomFor(chunkSize);
    if d.off + size < |d.buf| then d.off + size else |d.buf|
  }

  /** What one tick does to a running transfer; `next` is the page to print after it. */
  ghost predicate Pumped(before: Drive, after: Drive, log: seq<Transfer>, log': seq<Transfer>, now: nat,
                         host: TickHost, next: Option<PrintRas>, tx: TxKind, sent: Option<Write>)
    requires Shape(before) && log != []
  {
    if Waits(before, now) then sent == None && after == before && log' == log
    else if Remaining(before) == [] then
      && sent == None && !before.gated
      && after == (if next.Some? then Begun(next.value, host.cfg) else Idle)
      && log' == Completed(log) + if next.Some? then [Transfer(next.value, host.cfg, tx, [], false)] else []
    else if !host.writeOk then sent == None && after == Idle && log' == log
    else sent.Some? && Wrote(before, after, log, log', host.chunk, tx, sent.value)
  }

  /** The page that follows, if there is one and it can be rendered. */
  function NextPrint(after: AfterPrint, render: Render): Option<PrintRas> {
    if after == NextPage && render.Rendered? then Some(render.ras) else None
  }

  /** When a tick of a transfer with bytes left writes: never behind a gated write,
      never within 10 seconds of a BufferFull, and otherwise always. */
  lemma {:induction false} WritesUnlessHeld(before: Drive, after: Drive, log: seq<Transfer>, log': seq<Transfer>,
                                            now: nat, host: TickHost, next: Option<PrintRas>, tx: TxKind,
                                            sent: Option<Write>)
    requires Shape(before) && log != [] && Pumped(before, after, log, log', now, host, next, tx, sent)
    ensures before.gated || (before.pausedSince.Some? && now < before.pausedSince.value + 10_000) ==>
              sent == None && after == before && log' == log
    ensures !before.gated && (before.pausedSince.Some? ==> now >= before.pausedSince.value + 10_000) ==>
              (sent.Some? <==> Remaining(before) != [] && host.writeOk)
    ensures sent.Some? ==> after.Sending? && (after.gated <==> sent.value.withResponse) && after.pausedSince == None
  {
    hide Remaining, Refilled;
    RefillKeeps(before);
  }

  /** How many notifications of a batch are read: those before the first empty one. */
  function BatchSize(notes: seq<seq<bv8>>): (n: nat)
    ensures n <= |notes|
  {
    if notes == [] || notes[0] == [] then 0 else 1 + BatchSize(notes[1..])
  }

  /** The last status among those read decides the pause. */
  lemma {:induction false} LastStatusDecides(notes: seq<seq<bv8>>, k: nat, status: Status, paused: Option<nat>,
                                             now: nat)
    requires k < BatchSize(notes) && notes[k] == StatusFrame(status)
    requires forall j, other :: k < j < BatchSize(notes) ==> notes[j] != StatusFrame(other)
    ensures PausedAfter(notes, paused, now) == match status case BufferFull => Some(now) case Ready => None
    decreases |notes|
  {
    hide StatusFrame, ParseStatus;
    var rest := notes[1..];
    var p := PausedAfter([notes[0]], paused, now);
    FirstStatus(notes, paused, now);
    if k == 0 {
      forall j, other | 0 <= j < BatchSize(rest) ensures rest[j] != StatusFrame(other) {
        assert rest[j] == notes[j + 1];
      }
      NoStatusKeeps(rest, p, now);
    } else {
      forall j, other | k - 1 < j < BatchSize(rest) ensures rest[j] != StatusFrame(other) {
        assert rest[j] == notes[j + 1];
      }
      LastStatusDecides(rest, k - 1, status, p, now);
    }
  }

  lemma {:induction false} NoStatusKeeps(notes: seq<seq<bv8>>, paused: Option<nat>, now: nat)
    requires forall j, other :: 0 <= j < BatchSize(notes) ==> notes[j] != StatusFrame(other)
    ensures PausedAfter(notes, paused, now) == paused
    decreases |notes|
  {
    hide StatusFrame, ParseStatus;
    if BatchSize(notes) > 0 {
      var rest := notes[1..];
      FirstStatus(notes, paused, now);
      assert notes[0] != StatusFrame(BufferFull) && notes[0] != StatusFrame(Ready);
      forall j, other | 0 <= j < BatchSize(rest) ensures rest[j] != StatusFrame(other) {
        assert rest[j] == notes[j + 1];
      }
      NoStatusKeeps(rest, paused, now);
    }
  }

  lemma FirstStatus(notes: seq<seq<bv8>>, paused: Option<nat>, now: nat)
    requires BatchSize(notes) > 0
    ensures var p := PausedAfter([notes[0]], paused, now);
            && PausedAfter(notes, paused, now) == PausedAfter(notes[1..], p, now)
            && p == if notes[0] == StatusFrame(BufferFull) then Some(now)
                    else if notes[0] == StatusFrame(Ready) then None
                    else paused
  {
    assert [notes[0]][1..] == [];
    var r := ParseStatus(notes[0]);
    assert r == Some(BufferFull) <==> notes[0] == StatusFrame(BufferFull);
    assert r == Some(Ready) <==> notes[0] == StatusFrame(Ready);
    hide StatusFrame, ParseStatus;
  }

  /** Where a tick leads from a state without a transfer. */
  function Ticked(d: Drive, pending: bool, rescanDue: bool, pollDue: bool, now: nat, host: TickHost): Drive {
    match d
    case Idle => if rescanDue && host.scanOk then Scanning else Idle
    case Scanning =>
      if !pollDue || !host.scanDone then Scanning
      else if pending && host.best == Some(true) then Connecting(now)
      else Idle
    case Connecting(since) =>
      if host.connHandle != 0 && host.connIsSaved then
        if host.connAgain == 0 then d else if host.discoverOk then Discovering(now) else Idle
      else if Since(now, since) > CONNECT_TIMEOUT_MS then Idle
      else d
    case Discovering(since) => if Since(now, since) > DISCOVER_TIMEOUT_MS then Idle else d
    case Sending(_, _, _, _, _, _, _, _, _, _) => d
  }

  /** Where a print leads that an idle driver accepts. */
  function Started(link: Link, up: bool, ras: PrintRas, cfg: Settings, now: nat): Drive {
    if !link.enabled then Idle
    else if up then Begun(ras, cfg)
    else if link.saved && link.connectOk then Connecting(now)
    else if link.scanOk then Scanning
    else Idle
  }

  /** The log once that print has begun, if it has. */
  function StartedLog(log: seq<Transfer>, d: Drive, ras: PrintRas, cfg: Settings, tx: TxKind): seq<Transfer> {
    if d.Sending? then log + [Transfer(ras, cfg, tx, [], false)] else log
  }

  /** What a feature job asks to print, if anything. */
  function JobAsked(payload: seq<bv8>, lines: Option<seq<Line>>, render: Render, s: Setter): Option<Asked> {
    match Raster.Parse(payload)
    case Some(job) =>
      Raster.ParsedRowsInside(payload);
      Some(PictureAsked(Ras(job.rows, job.stride, job.height)))
    case None => if lines.Some? then TextAsked(lines.value, render, s) else None
  }

  /** What a received frame asks to print, if anything. */
  function FrameAsked(frame: seq<bv8>, image: Option<PrintRas>, lines: seq<Line>, render: Render, s: Setter)
    : Option<Asked>
  {
    match Wire.Parse(frame)
    case None => None
    case Some(job) =>
      if job.kind == 0 then TextAsked(lines, render, s)
      else if job.kind == 1 then if image.Some? then Some(PictureAsked(image.value)) else None
      else if job.kind == 2 then JobAsked(job.payload, None, render, s)
      else None
  }

  /** What a tick does to the books while a transfer runs. */
  ghost predicate Booked(before: Drive, b: Books, b': Books, now: nat, sent: Option<Write>, render: Render, s: Setter)
    requires Shape(before)
  {
    b' == if Waits(before, now) || sent.Some? then b
          else if Remaining(before) == [] then Turned(b, render, s)
          else Dropped(b)
  }

  /** A driver with books `b` takes a print. */
  ghost predicate TookUp(a: Asked, link: Link, up: bool, cfg: Settings, now: nat, tx: TxKind, b: Books,
                         log: seq<Transfer>, d: Drive, b': Books, log': seq<Transfer>)
  {
    && d == Started(link, up, a.ras, cfg, now) && log' == StartedLog(log, d, a.ras, cfg, tx)
    && b' == Accepted(b, a, |log|, d == Idle, d.Sending?)
  }

  class Driver {
    const font: Setter

    var drive: Drive
    var after: AfterPrint
    /** The raster that waits for a connection. */
    var pending: Option<PrintRas>
    /** Lines for the pages still to come. */
    var pendingLines: seq<Line>
    var jobActive: bool
    var conn: nat
    var txHandle: nat
    var txProps: bv8
    var rxHandle: nat
    var lastPollMs: nat
    var lastScanMs: nat
    var nowMs: nat
    var scanMenu: bool

    /** Every transfer so far, the running one last. */
    ghost var log: seq<Transfer>
    /** External-feature jobs taken from the host, and results reported for them. */
    ghost var consumed: nat
    ghost var reports: seq<Report>
    /** The print that is under way, and all that are over. */
    ghost var current: Option<Print>
    ghost var ended: seq<Ended>

    function TxAccepts(): TxKind
      reads this`txProps
    {
      TxKind(AcceptsResponse(txProps), AcceptsPlain(txProps))
    }

    predicate LinkUp()
      reads this`conn, this`txHandle
    {
      conn != 0 && txHandle != 0
    }

    ghost function Kept(): Books
      reads this
    {
      Books(Queue(pending, pendingLines, after, jobActive, current), ended, reports)
    }

    /** Every consumed job but the active one has been answered, once. */
    ghost predicate Ledger()
      reads this
    {
      consumed == |reports| + if jobActive then 1 else 0
    }

    ghost predicate NothingQueued()
      reads this
    {
      pending == None && pendingLines == [] && after == Nothing
    }

    /** More pages follow exactly when lines are queued. */
    predicate Chained()
      reads this
    {
      after == NextPage <==> pendingLines != []
    }

    ghost predicate QueueOk()
      reads this
    {
      match drive
      case Idle => NothingQueued() && !jobActive
      case Scanning => if pending == None then NothingQueued() && !jobActive else Chained()
      case Connecting(_) => pending.Some? && Chained()
      case Discovering(_) => pending.Some? && Chained()
      case Sending(_, _, _, _, _, _, _, _, _, _) => pending == None && Chained()
    }

    /** Jobs, queue and transfers fit the state. */
    ghost predicate Consistent()
      reads this
    {
      Ledger() && LogOk(log, drive, TxAccepts()) && QueueOk()
    }

    /** What holds between any two events. */
    ghost predicate Valid()
      reads this
    {
      Consistent() && BooksOk(Kept(), drive.Sending?, log, font)
    }

    /** Like `Valid`, but an idle driver may have just taken a job. */
    ghost predicate Accepting()
      reads this
    {
      if drive.Idle? then
        && Ledger() && AllClosed(log) && NothingQueued() && current == None
        && AllSettled(ended, log, reports, font)
      else Valid()
    }

    constructor (font: Setter)
      ensures Valid() && drive == Idle && log == [] && consumed == 0
      ensures this.font == font && !LinkUp() && nowMs == 0 && Kept() == Books(NO_QUEUE, [], [])
    {
      this.font := font;
      drive, after, pending, pendingLines, jobActive := Idle, Nothing, None, [], false;
      conn, txHandle, txProps, rxHandle := 0, 0, 0, 0;
      lastPollMs, lastScanMs, nowMs, scanMenu := 0, 0, 0, false;
      log, consumed, reports, current, ended := [], 0, [], None, [];
    }

    // --- Queue and link ---------------------------------------------------------------

    /** The print is over; report the result if an external job drove it. */
    method FinishJob(status: Report, ghost lost: seq<Line>)
      modifies this`jobActive, this`reports, this`current, this`ended
      ensures !jobActive && reports == Answer(old(reports), old(jobActive), status)
      ensures current == None && ended == End(old(Kept()), status, lost)
    {
      ended := End(Kept(), status, lost);
      current := None;
      if jobActive {
        jobActive := false;
        reports := reports + [status];
      }
    }

    /** Nothing stays queued, and an active job has failed. */
    method ClearQueue()
      modifies this`pending, this`pendingLines, this`after, this`jobActive, this`reports, this`current, this`ended
      ensures Kept() == Dropped(old(Kept()))
    {
      pending := None;
      pendingLines := [];
      after := Nothing;
      FinishJob(Error, []);
    }

    /** The connection and its characteristics are gone. */
    method ResetLink()
      modifies this`conn, this`txHandle, this`txProps, this`rxHandle
      ensures conn == txHandle == rxHandle == 0 && txProps == 0
    {
      conn, txHandle, txProps, rxHandle := 0, 0, 0, 0;
    }

    method FailPrint()
      requires LogOk(log, drive, TxAccepts()) || AllClosed(log)
      modifies this`drive, this`conn, this`txHandle, this`txProps, this`rxHandle, this`pending, this`pendingLines,
               this`after, this`jobActive, this`reports, this`current, this`ended
      ensures drive == Idle && conn == 0 && AllClosed(log) && Kept() == Dropped(old(Kept()))
    {
      hide Running, AllClosed;
      if LogOk(log, drive, TxAccepts()) {
        Abandon(log, drive, TxAccepts());
      }
      drive := Idle;
      ResetLink();
      ClearQueue();
    }

    /** Open a transfer for the pending raster. */
    method BeginSend(cfg: Settings)
      requires AllClosed(log)
      modifies this`drive, this`pending, this`log
      ensures Kept() == old(Kept()).(queue := old(Kept()).queue.(pending := None))
      ensures old(pending) == None ==> drive == Idle && log == old(log)
      ensures old(pending).Some? ==>
                && drive == Begun(old(pending).value, cfg)
                && log == old(log) + [Transfer(old(pending).value, cfg, TxAccepts(), [], false)]
      ensures LogOk(log, drive, TxAccepts())
    {
      hide Running, AllClosed, SetupStream;
      if pending == None {
        drive := Idle;
        return;
      }
      var ras := pending.value;
      pending := None;
      var setup := JobSetup(cfg.energy, cfg.speed);
      Begin(log, ras, cfg, TxAccepts());
      log := log + [Transfer(ras, cfg, TxAccepts(), [], false)];
      drive := Sending(ras, 0, false, cfg.feedSteps, cfg.rle, setup, 0, false, 0, None);
    }

    method StartScan(autoPick: bool, scanOk: bool)
      modifies this`drive, this`scanMenu, this`pending, this`pendingLines, this`after, this`jobActive, this`reports,
               this`current, this`ended
      ensures scanOk ==> drive == Scanning && scanMenu == !autoPick && Kept() == old(Kept())
      ensures !scanOk ==> drive == old(drive) && Kept() == Dropped(old(Kept()))
    {
      if !scanOk {
        ClearQueue();
        return;
      }
      drive := Scanning;
      scanMenu := !autoPick;
    }

    /** Send the pending raster if a link is up, else look for one. */
    method ConnectOrScan(link: Link, cfg: Settings)
      requires AllClosed(log) && drive == Idle && pending.Some? && Ledger() && Chained()
      modifies this`drive, this`pending, this`pendingLines, this`after, this`jobActive, this`reports,
               this`log, this`scanMenu, this`current, this`ended
      ensures Consistent()
      ensures drive == Started(link, old(LinkUp()), old(pending).value, cfg, nowMs)
      ensures log == StartedLog(old(log), drive, old(pending).value, cfg, TxAccepts())
      ensures Kept() == if drive == Idle then Dropped(old(Kept()))
                        else if drive.Sending? then old(Kept()).(queue := old(Kept()).queue.(pending := None))
                        else old(Kept())
    {
      hide Running, AllClosed, Begun;
      if !link.enabled {
        ClearQueue();
        return;
      }
      if conn != 0 && txHandle != 0 {
        BeginSend(cfg);
        BegunIsSending(old(pending).value, cfg);
        return;
      }
      if link.saved && link.connectOk {
        drive := Connecting(nowMs);
        return;
      }
      StartScan(true, link.scanOk);
    }

    // --- Starting a print ----------------------------------------------------------------

    /** Only an idle driver takes a print; a refused one leaves no trace. */
    method StartPrint(ras: PrintRas, after': AfterPrint, link: Link, cfg: Settings, ghost a: Asked) returns (ok: bool)
      requires drive != Idle ==> Valid()
      requires drive == Idle ==>
                 && Ledger() && AllClosed(log) && pending == None && current == None
                 && AllSettled(ended, log, reports, font)
                 && a.ras == ras && a.page.rest == pendingLines && after' == AfterPage(pendingLines)
                 && match a.source
                    case Picture(r) => a == PictureAsked(r)
                    case Text(lines) => a.page == PageOf(lines, font)
      modifies this
      ensures ok <==> old(drive) == Idle
      ensures Valid() && consumed == old(consumed) && nowMs == old(nowMs)
      ensures !ok ==> unchanged(this)
      ensures ok ==>
                TookUp(a, link, old(LinkUp()), cfg, nowMs, TxAccepts(), old(Kept()), old(log), drive, Kept(), log)
    {
      hide Running, AllClosed, Begun, BooksOk, AllSettled, PageOf, LogOk, Over, Dropped, NewPrint, Started;
      if drive != Idle {
        return false;
      }
      ghost var t := Transfer(ras, cfg, TxAccepts(), [], false);
      current := Some(NewPrint(Kept(), a, |log|));
      pending := Some(ras);
      after := after';
      ConnectOrScan(link, cfg);
      AcceptKeeps(old(Kept()), a, drive == Idle, drive.Sending?, old(log), t, font);
      return true;
    }

    /** Print one raster: an image, a QR code, a decoded job. */
    method PrintRaster(ras: PrintRas, link: Link, cfg: Settings) returns (ok: bool)
      requires Accepting()
      modifies this
      ensures ok <==> old(drive) == Idle
      ensures Valid() && consumed == old(consumed) && nowMs == old(nowMs)
      ensures !ok ==> unchanged(this)
      ensures ok ==> TookUp(PictureAsked(ras), link, old(LinkUp()), cfg, nowMs, TxAccepts(), old(Kept()), old(log),
                            drive, Kept(), log)
    {
      hide Running, AllClosed, AllSettled, BooksOk, Started, TookUp;
      ok := StartPrint(ras, Nothing, link, cfg, PictureAsked(ras));
    }

    /** Compose one page from the front of `lines`; leftover lines stay queued. */
    method ComposeLinesPage(lines: seq<Line>, render: Render)
      returns (ras: Option<PrintRas>, rest: seq<Line>, ghost page: seq<Line>)
      ensures ras == (if lines != [] && render.Rendered? then Some(render.ras) else None)
      ensures lines == [] || render.NoScratch? ==> rest == lines && page == []
      ensures lines != [] && !render.NoScratch? ==>
                Page(page, rest) == PageOf(lines, font) && page != [] && OnPage(page, MARGIN, PAGE_MAX_ROWS, font.lineH)
      ensures Stable(font.wrap) ==> page + Flow(rest, font.wrap) == Flow(lines, font.wrap)
    {
      hide Stable, Flow, OnPage, PageFull, Laid;
      if lines == [] || render.NoScratch? {
        page := [];
        assert [] + Flow(lines, font.wrap) == Flow(lines, font.wrap);
        return None, lines, [];
      }
      var queue := new PageQueue(lines);
      var rows, y := queue.Paginate(MARGIN, PAGE_MAX_ROWS, font.lineH, font.wrap);
      page := rows;
      rest := queue.lines;
      ras := if render.Rendered? then Some(render.ras) else None;
    }

    /** Print a text, page by page. */
    method PrintText(lines: seq<Line>, render: Render, link: Link, cfg: Settings) returns (ok: bool)
      requires Accepting()
      modifies this
      ensures ok <==> old(drive) == Idle && TextAsked(lines, render, font).Some?
      ensures !ok ==> unchanged(this)
      ensures ok ==>
                && Valid() && consumed == old(consumed) && nowMs == old(nowMs)
                && TookUp(TextAsked(lines, render, font).value, link, old(LinkUp()), cfg, nowMs, TxAccepts(),
                          old(Kept()), old(log), drive, Kept(), log)
    {
      hide Running, AllClosed, AllSettled, BooksOk, Started, PageOf, Stable, Flow, OnPage, LogOk;
      if drive != Idle {
        return false;
      }
      var first, rest, page := ComposeLinesPage(lines, render);
      if first == None {
        return false;
      }
      pendingLines := rest;
      ok := StartPrint(first.value, if rest == [] then Nothing else NextPage, link, cfg,
                       Asked(Text(lines), Page(page, rest), first.value));
    }

    // --- Streaming --------------------------------------------------------------------------

    /** Puts bytes into an exhausted buffer; false when the job has none left. */
    method RefillSendBuffer() returns (more: bool)
      requires Shape(drive)
      modifies this`drive
      ensures more <==> Remaining(old(drive)) != []
      ensures drive.Sending?
      ensures more ==> drive == Refilled(old(drive)) && drive.off < |drive.buf|
    {
      hide Remaining, FinishStream, RowsStream;
      ghost var before := drive;
      RefillKeeps(before);
      while drive.off >= |drive.buf|
        invariant drive == before || drive == Refilled(before)
        invariant before.off < |before.buf| ==> drive == before
        decreases drive.ras.height - drive.nextRow, if drive.finished then 0 else 1
      {
        if drive.nextRow < drive.ras.height {
          var to := if drive.nextRow + ROWS_PER_REFILL < drive.ras.height
                    then drive.nextRow + ROWS_PER_REFILL else drive.ras.height;
          var rows := JobRows(drive.ras.bits, drive.ras.stride, drive.nextRow, to, drive.rle) by {
            RowsInsideUpTo(drive.ras, to);
          }
          drive := drive.(buf := rows, off := 0, nextRow := to);
        } else if !drive.finished {
          var finish := JobFinish(drive.feedSteps);
          drive := drive.(buf := finish, off := 0, finished := true);
        } else {
          drive := drive.(off := 0);
          return false;
        }
      }
      return true;
    }

    /** The running transfer is written out: print the next page, or finish. */
    method OnSendComplete(render: Render, cfg: Settings)
      requires Ledger() && AllClosed(log) && drive.Sending? && pending == None && Chained()
      modifies this`drive, this`conn, this`txHandle, this`txProps, this`rxHandle, this`pending, this`pendingLines,
               this`after, this`jobActive, this`reports, this`log, this`current, this`ended
      ensures LogOk(log, drive, TxAccepts()) && Kept() == Turned(old(Kept()), render, font)
      ensures drive.Sending? <==> NextPrint(old(after), render).Some?
      ensures drive == if drive.Sending? then Begun(render.ras, cfg) else Idle
      ensures log == old(log) + if drive.Sending? then [Transfer(render.ras, cfg, old(TxAccepts()), [], false)] else []
      ensures drive.Sending? ==> txHandle == old(txHandle) && txProps == old(txProps)
    {
      hide Running, AllClosed, Begun, PageOf;
      assert old(log) + [] == old(log);
      ghost var lost := [];
      if after == NextPage {
        var page: NextPageOutcome;
        page, lost := PrintNextPage(render, cfg);
        if page == PageStarted {
          return;
        }
        if page == PageFailed {
          FailPrint();
          return;
        }
      }
      FinishJob(Done, lost);
      drive := Idle;
    }

    /** Compose the next page and open its transfer. */
    method PrintNextPage(render: Render, cfg: Settings) returns (r: NextPageOutcome, ghost lost: seq<Line>)
      requires AllClosed(log) && drive.Sending? && pending == None && after == NextPage && Chained()
      modifies this`drive, this`pending, this`pendingLines, this`after, this`log, this`current
      ensures r == PageStarted <==> render.Rendered?
      ensures r == NoMorePages <==> render == Failed && PageOf(old(pendingLines), font).rest == []
      ensures r == PageStarted ==>
                && Kept() == Turned(old(Kept()), render, font)
                && drive == Begun(render.ras, cfg) && drive.Sending? && LogOk(log, drive, TxAccepts())
                && log == old(log) + [Transfer(render.ras, cfg, TxAccepts(), [], false)]
      ensures r != PageStarted ==>
                NothingQueued() && log == old(log) && drive == old(drive) && current == old(current)
      ensures lost == if r == NoMorePages then PageOf(old(pendingLines), font).rows else []
    {
      hide Running, AllClosed, Begun, AcceptsResponse, AcceptsPlain, PageOf, OnPage, LogOk, Stable, Flow;
      after := Nothing;
      var lines := pendingLines;
      pendingLines := [];
      var ras, rest, page := ComposeLinesPage(lines, render);
      if ras.Some? {
        pendingLines := rest;
        after := if rest == [] then Nothing else NextPage;
        pending := ras;
        current := NextQueue(old(Kept()).queue, Page(page, rest), ras.value).current;
        BeginSend(cfg);
        BegunIsSending(ras.value, cfg);
        return PageStarted, [];
      }
      if rest != [] {
        return PageFailed, [];
      }
      return NoMorePages, page;
    }

    /** A tick of a running transfer, as `Pumped` and `Booked` say. */
    method PumpSend(host: TickHost) returns (ghost sent: Option<Write>)
      requires drive.Sending? && Valid()
      modifies this`drive, this`conn, this`txHandle, this`txProps, this`rxHandle, this`pending, this`pendingLines,
               this`after, this`jobActive, this`reports, this`log, this`current, this`ended
      ensures Valid() && Grows(old(log), log)
      ensures Shape(old(drive)) && old(log) != []
      ensures Pumped(old(drive), drive, old(log), log, nowMs, host, NextPrint(old(after), host.render),
                     old(TxAccepts()), sent)
      ensures Booked(old(drive), old(Kept()), Kept(), nowMs, sent, host.render, font)
      ensures old(drive).gated || (old(drive).pausedSince.Some? && nowMs < old(drive).pausedSince.value + 10_000) ==>
                sent == None && drive == old(drive) && log == old(log)
      ensures drive.Sending? ==> txHandle == old(txHandle) && txProps == old(txProps)
    {
      hide Running, AllClosed, Begun, Remaining, Closed, AcceptsResponse, AcceptsPlain, Refilled, PageOf,
           Grows, Logged, Completed, Shape, LogOk, Wrote, BooksOk;
      sent := None;
      ghost var before := drive;
      LogShape(log, drive, TxAccepts());
      RefillKeeps(before);
      GrowsByAnything(log);
      if Waits(drive, nowMs) {
        return;
      }
      var more := RefillSendBuffer();
      if !more {
        CompleteTransfer(before, host);
        return;
      }
      sent := SendChunk(before, host);
    }

    /** Write from a refilled buffer. */
    method SendChunk(ghost before: Drive, host: TickHost) returns (ghost sent: Option<Write>)
      requires Ledger() && before.Sending? && LogOk(log, before, TxAccepts()) && log != []
      requires Shape(before) && Remaining(before) != [] && !before.gated && drive == Refilled(before)
      requires BooksOk(Kept(), true, log, font)
      requires pending == None && Chained() && (TxAccepts().response ==> before.sinceGate < GATE_EVERY)
      modifies this`drive, this`conn, this`txHandle, this`txProps, this`rxHandle, this`pending, this`pendingLines,
               this`after, this`jobActive, this`reports, this`log, this`current, this`ended
      ensures Valid() && Grows(old(log), log)
      ensures sent.Some? <==> host.writeOk
      ensures !host.writeOk ==> drive == Idle && log == old(log) && Kept() == Dropped(old(Kept()))
      ensures host.writeOk ==>
                && drive.Sending? && Kept() == old(Kept()) && txHandle == old(txHandle) && txProps == old(txProps)
                && Wrote(before, drive, old(log), log, host.chunk, old(TxAccepts()), sent.value)
    {
      hide Running, AllClosed, Remaining, Closed, AcceptsResponse, AcceptsPlain, Refilled, Grows, Logged, Completed,
           Shape, LogOk, NextWrite, BooksOk;
      sent := None;
      GrowsByAnything(log);
      ResumeKeeps(log, before, TxAccepts());
      drive := drive.(pausedSince := None);
      if !host.writeOk {
        DropKeeps(Kept(), true, log, font);
        FailPrint();
        IdleLog(log, TxAccepts());
        return;
      }
      ghost var w := WriteChunk(host.chunk);
      WriteKeeps(old(Kept()), old(log), font, w);
      sent := Some(w);
    }

    /** Mark the transfer complete and go on. */
    method CompleteTransfer(ghost before: Drive, host: TickHost)
      requires Ledger() && before.Sending? && LogOk(log, before, TxAccepts()) && log != []
      requires Shape(before) && Remaining(before) == [] && drive.Sending? && pending == None && Chained()
      requires BooksOk(Kept(), true, log, font)
      modifies this`drive, this`conn, this`txHandle, this`txProps, this`rxHandle, this`pending, this`pendingLines,
               this`after, this`jobActive, this`reports, this`log, this`current, this`ended
      ensures Valid() && Grows(old(log), log)
      ensures log == Completed(old(log))
                     + match NextPrint(old(after), host.render)
                       case None => []
                       case Some(ras) => [Transfer(ras, host.cfg, old(TxAccepts()), [], false)]
      ensures drive.Sending? <==> NextPrint(old(after), host.render).Some?
      ensures drive == if drive.Sending? then Begun(host.render.ras, host.cfg) else Idle
      ensures drive.Sending? ==> txHandle == old(txHandle) && txProps == old(txProps)
      ensures Kept() == Turned(old(Kept()), host.render, font)
    {
      hide Running, AllClosed, Begun, Remaining, Closed, AcceptsResponse, AcceptsPlain, PageOf, Grows,
           Completed, LogOk, Shape, BooksOk;
      Complete(log, before, TxAccepts());
      GrowsAtEnd(log, Write([], false));
      ghost var ras := if host.render.Rendered? then host.render.ras else before.ras;
      ghost var t := Transfer(ras, host.cfg, TxAccepts(), [], false);
      TurnKeeps(Kept(), log, font, host.render, t);
      ghost var completed := Completed(log);
      assert completed + [] == completed;
      GrowsByAnything(completed);
      log := completed;
      OnSendComplete(host.render, host.cfg);
      GrowsOn(old(log), completed, log);
    }

    /** Write the next chunk of a refilled buffer. */
    method WriteChunk(chunkSize: nat) returns (ghost w: Write)
      requires Shape(drive) && drive.off < |drive.buf| && !drive.gated
      requires log != [] && LogOk(log, drive, TxAccepts())
      requires TxAccepts().response ==> drive.sinceGate < GATE_EVERY
      modifies this`drive, this`log
      ensures LogOk(log, drive, TxAccepts()) && Shape(drive) && Grows(old(log), log)
      ensures w == NextWrite(old(drive), chunkSize, TxAccepts())
      ensures drive == Advanced(old(drive), old(drive).off + |w.bytes|, w.withResponse)
      ensures Remaining(old(drive)) == w.bytes + Remaining(drive) && log == Logged(old(log), w)
      ensures !old(log)[|old(log)| - 1].done
    {
      hide Running, AllClosed, Remaining, AcceptsResponse, AcceptsPlain, LogOk, Logged, Grows, Completed, FinishStream;
      var chunk := if chunkSize < MIN_CHUNK then MIN_CHUNK else chunkSize;
      var end := if drive.off + chunk < |drive.buf| then drive.off + chunk else |drive.buf|;
      var last := drive.finished && end == |drive.buf|;
      var gateDue := drive.sinceGate + 1 >= GATE_EVERY || last;
      var withResponse := !CanNoRsp() || (TxAccepts().response && gateDue);
      w := Write(drive.buf[drive.off..end], withResponse);
      Written(log, drive, TxAccepts(), end);
      GrowsAtEnd(log, w);
      log := Logged(log, w);
      if withResponse {
        drive := drive.(off := end, gated := true, sinceGate := 0);
      } else {
        drive := drive.(off := end, sinceGate := drive.sinceGate + 1);
      }
    }

    predicate CanNoRsp()
      reads this`txProps
    {
      AcceptsPlain(txProps)
    }

    // --- Link events ------------------------------------------------------------------------

    /** The end of a scan; `best` says whether a printer was found and connects. */
    method ScanFinished(best: Option<bool>)
      requires Valid() && drive == Scanning
      modifies this`drive, this`conn, this`txHandle, this`txProps, this`rxHandle, this`pending, this`pendingLines,
               this`after, this`jobActive, this`reports, this`lastScanMs, this`current, this`ended
      ensures Valid()
      ensures drive == if old(pending).Some? && best == Some(true) then Connecting(nowMs) else Idle
      ensures Kept() == if drive == Idle then Dropped(old(Kept())) else old(Kept())
    {
      hide Running, AllClosed, BooksOk;
      DropKeeps(Kept(), false, log, font);
      if pending.Some? {
        if best == Some(true) {
          drive := Connecting(nowMs);
          return;
        }
        drive := Idle;
        ClearQueue();
        return;
      }
      IdleBooks(Kept(), log, font);
      drive := Idle;
      lastScanMs := nowMs;
    }

    method OnConnected(handle: nat, discoverOk: bool)
      requires Valid() && drive.Connecting?
      modifies this`drive, this`conn, this`txHandle, this`txProps, this`rxHandle, this`pending, this`pendingLines,
               this`after, this`jobActive, this`reports, this`current, this`ended
      ensures Valid()
      ensures drive == if handle == 0 then old(drive) else if discoverOk then Discovering(nowMs) else Idle
      ensures handle != 0 && discoverOk ==> conn == handle
      ensures Kept() == if drive == Idle then Dropped(old(Kept())) else old(Kept())
    {
      hide Running, AllClosed, BooksOk;
      conn := handle;
      if conn == 0 {
        return;
      }
      if discoverOk {
        drive := Discovering(nowMs);
      } else {
        DropKeeps(Kept(), false, log, font);
        FailPrint();
      }
    }

    /** Take up the characteristics; the last TX one counts. Delivered while
        `Discovering`, this starts the transfer. Delivered during a transfer it
        drops it silently: the print never ends, and a job or queued lines are
        left behind idle. */
    method OnDiscovered(chars: seq<RemoteChar>, cfg: Settings)
      requires Valid()
      modifies this`drive, this`conn, this`txHandle, this`txProps, this`rxHandle, this`pending, this`pendingLines,
               this`after, this`jobActive, this`reports, this`log, this`current, this`ended
      ensures Consistent() <==> !(old(drive).Sending? && LastOf(chars, Tx).handle != 0
                                  && (old(jobActive) || old(pendingLines) != []))
      ensures Valid() <==> !(old(drive).Sending? && LastOf(chars, Tx).handle != 0)
      ensures LastOf(chars, Tx).handle == 0 ==> drive == Idle && log == old(log) && Kept() == Dropped(old(Kept()))
      ensures LastOf(chars, Tx).handle != 0 ==>
                && txHandle == LastOf(chars, Tx).handle && txProps == LastOf(chars, Tx).properties
                && Kept() == old(Kept()).(queue := old(Kept()).queue.(pending := None))
                && (old(pending) == None ==> drive == Idle && log == old(log))
                && (old(pending).Some? ==>
                      && drive == Begun(old(pending).value, cfg)
                      && log == old(log) + [Transfer(old(pending).value, cfg, TxAccepts(), [], false)])
    {
      hide Running, Begun, SetupStream, AllClosed, BooksOk;
      Abandon(log, drive, TxAccepts());
      ghost var wasSending := drive.Sending?;
      TakeCharacteristics(chars);
      if txHandle == 0 {
        DropKeeps(Kept(), wasSending, log, font);
        FailPrint();
        return;
      }
      BeginSend(cfg);
      if old(pending).Some? {
        BegunIsSending(old(pending).value, cfg);
        PendingWaits(old(Kept()), wasSending, old(log), font);
        BeginKeeps(old(Kept()), old(log), font, Transfer(old(pending).value, cfg, TxAccepts(), [], false));
      } else {
        NothingRuns(Kept(), wasSending, log, font);
      }
    }

    method TakeCharacteristics(chars: seq<RemoteChar>)
      modifies this`txHandle, this`txProps, this`rxHandle
      ensures txHandle == LastOf(chars, Tx).handle && txProps == LastOf(chars, Tx).properties
      ensures rxHandle == LastOf(chars, Rx).handle
    {
      txHandle, txProps, rxHandle := 0, 0, 0;
      for k := 0 to |chars|
        invariant txHandle == LastOf(chars[..k], Tx).handle && txProps == LastOf(chars[..k], Tx).properties
        invariant rxHandle == LastOf(chars[..k], Rx).handle
      {
        assert chars[..k + 1][..k] == chars[..k];
        if chars[k].kind == Tx {
          txHandle, txProps := chars[k].handle, chars[k].properties;
        } else if chars[k].kind == Rx {
          rxHandle := chars[k].handle;
        }
      }
      assert chars[..|chars|] == chars;
    }

    /** One tick of the host clock. */
    method OnTick(now: nat, host: TickHost) returns (ghost sent: Option<Write>)
      requires Valid()
      modifies this
      ensures Valid() && nowMs == now && consumed == old(consumed) && Grows(old(log), log)
      ensures !old(drive).Sending? ==>
                && drive == Ticked(old(drive), old(pending).Some?,
                                   old(scanMenu) && now >= old(lastScanMs) + 3000,
                                   now >= old(lastPollMs) + 200, now, host)
                && log == old(log) && sent == None
                && Kept() == if drive == Idle then Dropped(old(Kept())) else old(Kept())
      ensures old(drive).Sending? ==>
                && Shape(old(drive)) && old(log) != []
                && Pumped(old(drive), drive, old(log), log, now, host, NextPrint(old(after), host.render),
                          old(TxAccepts()), sent)
                && Booked(old(drive), old(Kept()), Kept(), now, sent, host.render, font)
                && (old(drive).gated
                    || (old(drive).pausedSince.Some? && now < old(drive).pausedSince.value + 10_000) ==>
                      sent == None && drive == old(drive) && log == old(log))
                && (drive.Sending? ==> txHandle == old(txHandle) && txProps == old(txProps))
    {
      hide Running, AllClosed, Remaining, Closed, Pumped, Booked, Shape, Grows, Ticked, LogOk, BooksOk;
      sent := None;
      GrowsByAnything(log);
      nowMs := now;
      if drive.Sending? {
        sent := PumpSend(host);
      } else {
        LinkTick(host);
      }
    }

    /** One tick without a transfer. */
    method LinkTick(host: TickHost)
      requires Valid() && !drive.Sending?
      modifies this`drive, this`conn, this`txHandle, this`txProps, this`rxHandle, this`pending, this`pendingLines,
               this`after, this`jobActive, this`reports, this`lastPollMs, this`lastScanMs, this`current, this`ended
      ensures Valid()
      ensures drive == Ticked(old(drive), old(pending).Some?,
                              scanMenu && nowMs >= old(lastScanMs) + 3000, nowMs >= old(lastPollMs) + 200, nowMs, host)
      ensures Kept() == if drive == Idle then Dropped(old(Kept())) else old(Kept())
    {
      hide Running, AllClosed, BooksOk;
      DropKeeps(Kept(), false, log, font);
      match drive {
        case Idle =>
          IdleBooks(Kept(), log, font);
          if scanMenu && Since(nowMs, lastScanMs) >= RESCAN_INTERVAL_MS && host.scanOk {
            drive := Scanning;
          }
        case Scanning =>
          if Since(nowMs, lastPollMs) >= POLL_INTERVAL_MS {
            lastPollMs := nowMs;
            if host.scanDone {
              ScanFinished(host.best);
            }
          }
        case Connecting(since) =>
          if host.connHandle != 0 && host.connIsSaved {
            OnConnected(host.connAgain, host.discoverOk);
          } else if Since(nowMs, since) > CONNECT_TIMEOUT_MS {
            FailPrint();
          }
        case Discovering(since) =>
          if Since(nowMs, since) > DISCOVER_TIMEOUT_MS {
            FailPrint();
          }
      }
    }

    // --- Actions ----------------------------------------------------------------------------

    /** Notifications arrived; each status in turn sets or clears the pause. */
    method OnNotify(notes: seq<seq<bv8>>)
      requires Valid()
      modifies this`drive
      ensures Valid()
      ensures if old(drive).Sending?
              then drive == old(drive).(pausedSince := PausedAfter(notes, old(drive).pausedSince, nowMs))
              else drive == old(drive)
    {
      hide Running, AllClosed, Remaining, ParseStatus, BooksOk;
      var k := 0;
      assert notes[0..] == notes;
      while k < |notes| && notes[k] != []
        invariant k <= |notes|
        invariant if old(drive).Sending?
                  then drive.Sending? && drive == old(drive).(pausedSince := drive.pausedSince)
                       && PausedAfter(notes[k..], drive.pausedSince, nowMs)
                          == PausedAfter(notes, old(drive).pausedSince, nowMs)
                  else drive == old(drive)
      {
        assert notes[k..][0] == notes[k] && notes[k..][1..] == notes[k + 1..];
        var status := ParseStatus(notes[k]);
        if status.Some? && drive.Sending? {
          drive := drive.(pausedSince := if status.value == BufferFull then Some(nowMs) else None);
        }
        k := k + 1;
      }
      if drive.Sending? {
        LogShape(log, old(drive), TxAccepts());
        RemainingIgnoresGate(old(drive), drive);
        SameRest(log, old(drive), drive, TxAccepts());
      }
    }

    /** A write finished: release the gate, or fail the print. */
    method OnWriteDone(handle: nat, status: nat)
      requires Valid()
      modifies this`drive, this`conn, this`txHandle, this`txProps, this`rxHandle, this`pending, this`pendingLines,
               this`after, this`jobActive, this`reports, this`current, this`ended
      ensures Valid()
      ensures !(old(drive).Sending? && handle == old(txHandle)) ==> unchanged(this)
      ensures old(drive).Sending? && handle == old(txHandle) ==>
                if status == 0 then
                  && drive == old(drive).(gated := false) && Kept() == old(Kept())
                  && unchanged(this`conn, this`txHandle, this`txProps, this`rxHandle)
                else drive == Idle && Kept() == Dropped(old(Kept()))
    {
      hide Running, AllClosed, Remaining, BooksOk;
      if handle != txHandle || !drive.Sending? {
        return;
      }
      if status != 0 {
        DropKeeps(Kept(), true, log, font);
        FailPrint();
        return;
      }
      LogShape(log, drive, TxAccepts());
      RemainingIgnoresGate(drive, drive.(gated := false));
      SameRest(log, drive, drive.(gated := false), TxAccepts());
      drive := drive.(gated := false);
    }

    /** Leaving the UI lets a running transfer finish and drops anything else. */
    method OnExit()
      requires Valid()
      modifies this`drive, this`conn, this`txHandle, this`txProps, this`rxHandle, this`pending, this`pendingLines,
               this`after, this`jobActive, this`reports, this`scanMenu, this`current, this`ended
      ensures Valid()
      ensures old(drive).Sending? ==> drive == old(drive) && Kept() == old(Kept())
      ensures !old(drive).Sending? ==> drive == Idle && conn == 0 && Kept() == Dropped(old(Kept()))
    {
      hide Running, AllClosed, BooksOk, LogOk, Dropped, Over;
      scanMenu := false;
      if drive.Sending? {
        return;
      }
      Abandon(log, drive, TxAccepts());
      DropKeeps(Kept(), false, log, font);
      DroppedShape(Kept());
      ResetLink();
      IdleLog(log, TxAccepts());
      drive := Idle;
      ClearQueue();
    }

    /** "Scan printers" in the menu. */
    method OnScanMenu(scanOk: bool)
      requires Valid()
      modifies this`drive, this`pending, this`pendingLines, this`after, this`jobActive, this`reports, this`scanMenu,
               this`current, this`ended
      ensures Valid() && Kept() == old(Kept())
      ensures drive == if old(drive) == Idle && scanOk then Scanning else old(drive)
    {
      hide Running, AllClosed, BooksOk;
      scanMenu := false;
      if drive == Idle {
        IdleBooks(Kept(), log, font);
        StartScan(false, scanOk);
      }
    }

    /** Take an external-feature job: a raster payload, else a text (`lines`
        holds its decoded lines), else malformed. */
    method OnJob(payload: seq<bv8>, lines: Option<seq<Line>>, render: Render, link: Link, cfg: Settings)
      requires Valid()
      modifies this
      ensures Valid() && consumed == old(consumed) + 1 && nowMs == old(nowMs)
      ensures old(drive) != Idle ==> drive == old(drive) && log == old(log) && Kept() == Refused(old(Kept()))
      ensures old(drive) == Idle ==>
                match JobAsked(payload, lines, render, font)
                case None => drive == Idle && log == old(log) && Kept() == Refused(old(Kept()))
                case Some(a) => TookUp(a, link, old(LinkUp()), cfg, nowMs, TxAccepts(), Taken(old(Kept())), old(log),
                                       drive, Kept(), log)
    {
      hide Running, AllClosed, BooksOk, AllSettled, LogOk, JobAsked, TookUp;
      consumed := consumed + 1;
      RefusalKeeps(Kept(), drive.Sending?, log, font);
      if drive != Idle {
        reports := reports + [Error];
        return;
      }
      IdleLog(log, TxAccepts());
      IdleBooks(Kept(), log, font);
      jobActive := true;
      var started := StartJob(payload, lines, render, link, cfg);
      if !started {
        FinishJob(Error, []);
      }
    }

    /** Start what a job asks to print. */
    method StartJob(payload: seq<bv8>, lines: Option<seq<Line>>, render: Render, link: Link, cfg: Settings)
      returns (started: bool)
      requires Accepting() && drive == Idle
      modifies this
      ensures started <==> JobAsked(payload, lines, render, font).Some?
      ensures !started ==> unchanged(this)
      ensures started ==>
                && Valid() && consumed == old(consumed) && nowMs == old(nowMs)
                && TookUp(JobAsked(payload, lines, render, font).value, link, old(LinkUp()), cfg, nowMs, TxAccepts(),
                          old(Kept()), old(log), drive, Kept(), log)
    {
      hide Running, AllClosed, RowsInside, Raster.Parse, BooksOk, AllSettled, LogOk, TookUp, TextAsked;
      started := false;
      var job := Raster.Parse(payload);
      if job.Some? {
        Raster.ParsedRowsInside(payload);
        started := PrintRaster(Ras(job.value.rows, job.value.stride, job.value.height), link, cfg);
      } else if lines.Some? {
        started := PrintText(lines.value, render, link, cfg);
      }
    }

    /** Print a received wire frame; true means accepted, not printed. `image` is
        the host's rendering of an image payload, `lines` the decoded text. */
    method HandleJobFrame(frame: seq<bv8>, image: Option<PrintRas>, lines: seq<Line>,
                          render: Render, link: Link, cfg: Settings) returns (ok: bool)
      requires Valid()
      modifies this
      ensures Valid() && consumed == old(consumed) && nowMs == old(nowMs)
      ensures ok <==> old(drive) == Idle && FrameAsked(frame, image, lines, render, font).Some?
      ensures !ok ==> unchanged(this)
      ensures ok ==> TookUp(FrameAsked(frame, image, lines, render, font).value, link, old(LinkUp()), cfg, nowMs,
                            TxAccepts(), old(Kept()), old(log), drive, Kept(), log)
    {
      hide Running, AllClosed, RowsInside, Raster.Parse, Wire.Parse, BooksOk, AllSettled, TextAsked, TookUp, LogOk;
      ok := false;
      IdleLog(log, TxAccepts());
      if drive == Idle {
        IdleBooks(Kept(), log, font);
      }
      var job := Wire.Parse(frame);
      if job.None? {
        return;
      }
      if job.value.kind == 0 {
        ok := PrintText(lines, render, link, cfg);
      } else if job.value.kind == 1 {
        if image.Some? {
          ok := PrintRaster(image.value, link, cfg);
        }
      } else if job.value.kind == 2 {
        var raster := Raster.Parse(job.value.payload);
        if raster.Some? {
          Raster.ParsedRowsInside(job.value.payload);
          ok := PrintRaster(Ras(raster.value.rows, raster.value.stride, raster.value.height), link, cfg);
        }
      }
    }
  }

  /** Events of the host. `Discovered` is delivered only while discovering. */
  datatype Event =
    | Tick(now: nat, host: TickHost)
    | Notify(notes: seq<seq<bv8>>)
    | WriteDone(handle: nat, status: nat)
    | Discovered(chars: seq<RemoteChar>, cfg: Settings)
    | Exit
    | ScanMenu(scanOk: bool)
    | JobOffered(payload: seq<bv8>, lines: Option<seq<Line>>, render: Render, link: Link, cfg: Settings)
    | FrameReceived(frame: seq<bv8>, image: Option<PrintRas>, textLines: seq<Line>, render: Render,
                    link: Link, cfg: Settings)
    | ImageChosen(ras: PrintRas, link: Link, cfg: Settings)

  function JobsOffered(events: seq<Event>): nat {
    if events == [] then 0
    else JobsOffered(events[..|events| - 1]) + if events[|events| - 1].JobOffered? then 1 else 0
  }

  /** What an event does to the books. */
  ghost predicate Handled(e: Event, before: Drive, txHandle: nat, up: bool, now: nat, tx: TxKind, s: Setter, b: Books,
                          log: seq<Transfer>, d: Drive, b': Books, log': seq<Transfer>, sent: Option<Write>)
  {
    match e
    case Tick(now, host) =>
      if before.Sending? then Shape(before) && Booked(before, b, b', now, sent, host.render, s)
      else b' == if d == Idle then Dropped(b) else b
    case Notify(notes) =>
      && b' == b && log' == log
      && d == if before.Sending? then before.(pausedSince := PausedAfter(notes, before.pausedSince, now)) else before
    case WriteDone(handle, status) =>
      && log' == log
      && if !before.Sending? || handle != txHandle then b' == b && d == before
         else if status == 0 then b' == b && d == before.(gated := false)
         else b' == Dropped(b) && d == Idle
    case Discovered(chars, _) =>
      if !before.Discovering? then b' == b && d == before && log' == log
      else
        && (d.Sending? ==> |log'| == |log| + 1)
        && b' == if LastOf(chars, Tx).handle == 0 then Dropped(b) else b.(queue := b.queue.(pending := None))
    case Exit => log' == log && if before.Sending? then b' == b && d == before else b' == Dropped(b) && d == Idle
    case ScanMenu(scanOk) => b' == b && log' == log && d == if before == Idle && scanOk then Scanning else before
    case JobOffered(payload, lines, render, link, cfg) =>
      var a := JobAsked(payload, lines, render, s);
      if before == Idle && a.Some? then TookUp(a.value, link, up, cfg, now, tx, Taken(b), log, d, b', log')
      else d == before && log' == log && b' == Refused(b)
    case FrameReceived(frame, image, textLines, render, link, cfg) =>
      var a := FrameAsked(frame, image, textLines, render, s);
      if before == Idle && a.Some? then TookUp(a.value, link, up, cfg, now, tx, b, log, d, b', log')
      else d == before && log' == log && b' == b
    case ImageChosen(ras, link, cfg) =>
      if before == Idle then TookUp(PictureAsked(ras), link, up, cfg, now, tx, b, log, d, b', log')
      else d == before && log' == log && b' == b
  }

  lemma HandledFollows(e: Event, before: Drive, txHandle: nat, up: bool, now: nat, tx: TxKind, s: Setter, b: Books,
                       log: seq<Transfer>, d: Drive, b': Books, log': seq<Transfer>, sent: Option<Write>)
    requires Handled(e, before, txHandle, up, now, tx, s, b, log, d, b', log', sent)
    requires before == Idle ==> b.queue.current == None
    ensures Follows(b, b')
  {
    hide PageOf, JobAsked, FrameAsked, Started, StartedLog, Shape, Remaining, LastOf, Turned;
    StepsFollow(b, Error, [], if e.Tick? then e.host.render else NoScratch, s);
    FollowsItself(b);
  }

  /** A print request begins at most one transfer. */
  lemma HandledLog(e: Event, before: Drive, txHandle: nat, up: bool, now: nat, tx: TxKind, s: Setter, b: Books,
                   log: seq<Transfer>, d: Drive, b': Books, log': seq<Transfer>, sent: Option<Write>)
    requires Handled(e, before, txHandle, up, now, tx, s, b, log, d, b', log', sent)
    requires e.JobOffered? || e.FrameReceived? || e.ImageChosen?
    ensures log <= log' && Grows(log, log') && forall k :: |log| <= k < |log'| ==> log'[k].writes == []
  {
    hide PageOf, JobAsked, FrameAsked, Started, Accepted;
  }

  /** Over any run of events: every offered job is answered at most once, and
      exactly once whenever the driver is idle. No report is taken back, no print
      forgotten or its source changed, no transfer lost from the log. Every
      completed transfer wrote exactly its job, every print that ended well was
      transferred sheet by sheet, and every DONE was the answer to one. */
  method Serve(d: Driver, events: seq<Event>)
    requires d.Valid()
    modifies d
    ensures d.Valid() && d.consumed == old(d.consumed) + JobsOffered(events)
    ensures |d.reports| <= d.consumed && (d.drive == Idle ==> |d.reports| == d.consumed)
    ensures Follows(old(d.Kept()), d.Kept()) && Grows(old(d.log), d.log)
    ensures forall k :: 0 <= k < |d.log| && d.log[k].done ==> Sent(d.log[k].writes) == Job(d.log[k])
    ensures Stable(d.font.wrap) ==>
              && (forall k :: 0 <= k < |d.ended| && d.ended[k].status == Done ==> WasPrinted(d.ended[k], d.log, d.font))
              && (forall i :: 0 <= i < |d.reports| && d.reports[i] == Done ==>
                    exists k :: 0 <= k < |d.ended| && d.ended[k].subject.job && d.ended[k].report == i
                                && d.ended[k].status == Done)
  {
    hide Grows, Follows, BooksOk, WasPrinted, AllSettled, Stable;
    GrowsByAnything(d.log);
    FollowsItself(d.Kept());
    for i := 0 to |events|
      invariant d.Valid() && d.consumed == old(d.consumed) + JobsOffered(events[..i])
      invariant Follows(old(d.Kept()), d.Kept()) && Grows(old(d.log), d.log)
    {
      assert events[..i + 1][..i] == events[..i];
      ghost var log, books := d.log, d.Kept();
      var sent := Handle(d, events[i]);
      GrowsOn(old(d.log), log, d.log);
      FollowsOn(old(d.Kept()), books, d.Kept());
    }
    assert events[..|events|] == events;
    BooksAreSettled(d.Kept(), d.drive.Sending?, d.log, d.font);
    if Stable(d.font.wrap) {
      DoneWasPrinted(d.ended, d.log, d.reports, d.font);
    }
    forall k | 0 <= k < |d.log| && d.log[k].done ensures Sent(d.log[k].writes) == Job(d.log[k]) {
      CompletedTransfers(d.log, d.drive, d.TxAccepts(), k);
    }
  }

  /** A print request, by a feature job, a received frame or the user. */
  method HandleRequest(d: Driver, e: Event)
    requires d.Valid() && (e.JobOffered? || e.FrameReceived? || e.ImageChosen?)
    modifies d
    ensures d.Valid() && d.consumed == old(d.consumed) + (if e.JobOffered? then 1 else 0) && d.nowMs == old(d.nowMs)
    ensures Handled(e, old(d.drive), old(d.txHandle), old(d.LinkUp()), d.nowMs, d.TxAccepts(), d.font,
                    old(d.Kept()), old(d.log), d.drive, d.Kept(), d.log, None)
    ensures old(d.log) <= d.log && Grows(old(d.log), d.log)
    ensures forall k :: |old(d.log)| <= k < |d.log| ==> d.log[k].writes == []
  {
    hide Running, AllClosed, Grows, PageOf, JobAsked, FrameAsked, LogOk, BooksOk, AllSettled, TookUp;
    IdleLog(d.log, d.TxAccepts());
    if d.drive == Idle {
      IdleBooks(d.Kept(), d.log, d.font);
    }
    var ok;
    match e {
      case JobOffered(payload, lines, render, link, cfg) => d.OnJob(payload, lines, render, link, cfg);
      case FrameReceived(frame, image, lines, render, link, cfg) =>
        ok := d.HandleJobFrame(frame, image, lines, render, link, cfg);
      case ImageChosen(ras, link, cfg) => ok := d.PrintRaster(ras, link, cfg);
    }
    HandledLog(e, old(d.drive), old(d.txHandle), old(d.LinkUp()), d.nowMs, d.TxAccepts(), d.font,
               old(d.Kept()), old(d.log), d.drive, d.Kept(), d.log, None);
  }

  /** One event: the exact books after it, and what a tick writes. */
  method Handle(d: Driver, e: Event) returns (ghost sent: Option<Write>)
    requires d.Valid()
    modifies d
    ensures d.Valid() && d.consumed == old(d.consumed) + if e.JobOffered? then 1 else 0
    ensures Grows(old(d.log), d.log) && Follows(old(d.Kept()), d.Kept())
    ensures Handled(e, old(d.drive), old(d.txHandle), old(d.LinkUp()), d.nowMs, d.TxAccepts(), d.font,
                    old(d.Kept()), old(d.log), d.drive, d.Kept(), d.log, sent)
    ensures !e.Tick? ==> sent == None && old(d.log) <= d.log
    ensures !e.Tick? ==> forall k :: |old(d.log)| <= k < |d.log| ==> d.log[k].writes == []
    ensures e.Tick? && old(d.drive).Sending? ==>
              && Shape(old(d.drive)) && old(d.log) != []
              && Pumped(old(d.drive), d.drive, old(d.log), d.log, e.now, e.host,
                        NextPrint(old(d.after), e.host.render), old(d.TxAccepts()), sent)
    ensures e.Tick? ==> d.nowMs == e.now
    ensures !e.Tick? ==> d.nowMs == old(d.nowMs)
    ensures e.Tick? && !old(d.drive).Sending? ==>
              && sent == None && d.log == old(d.log)
              && d.drive == Ticked(old(d.drive), old(d.pending).Some?,
                                   old(d.scanMenu) && e.now >= old(d.lastScanMs) + 3000,
                                   e.now >= old(d.lastPollMs) + 200, e.now, e.host)
  {
    hide Running, AllClosed, Grows, Pumped, Booked, Shape, PageOf, JobAsked, FrameAsked, Ticked, LogOk, BooksOk,
         AllSettled, Follows, TookUp, Begun;
    GrowsByAnything(d.log);
    IdleLog(d.log, d.TxAccepts());
    if d.drive == Idle {
      IdleBooks(d.Kept(), d.log, d.font);
    }
    sent := None;
    match e {
      case Tick(now, host) => sent := d.OnTick(now, host);
      case Notify(notes) => d.OnNotify(notes);
      case WriteDone(handle, status) => d.OnWriteDone(handle, status);
      case Discovered(chars, cfg) =>
        if d.drive.Discovering? {
          d.OnDiscovered(chars, cfg);
        }
      case Exit => d.OnExit();
      case ScanMenu(scanOk) => d.OnScanMenu(scanOk);
      case _ => HandleRequest(d, e);
    }
    HandledFollows(e, old(d.drive), old(d.txHandle), old(d.LinkUp()), d.nowMs, d.TxAccepts(), d.font,
                   old(d.Kept()), old(d.log), d.drive, d.Kept(), d.log, sent);
  }

  /** The printer is full since `d.drive.pausedSince`. Over any run of events
      without a Ready, whose ticks lie within 10 seconds of that, nothing more is
      written to the transfer and it does not complete. */
  method Hold(d: Driver, events: seq<Event>)
    requires d.Valid() && d.drive.Sending? && d.drive.pausedSince.Some? && d.drive.pausedSince.value <= d.nowMs
    requires forall k :: 0 <= k < |events| ==>
               && (events[k].Notify? ==> StatusFrame(Ready) !in events[k].notes)
               && (events[k].Tick? ==>
                     d.drive.pausedSince.value <= events[k].now < d.drive.pausedSince.value + 10_000)
    modifies d
    ensures d.Valid() && |d.log| >= |old(d.log)| > 0
    ensures d.log[|old(d.log)| - 1] == old(d.log)[|old(d.log)| - 1]
  {
    hide LogOk, BooksOk, Pumped, Booked, Grows, Follows, StatusFrame, ParseStatus, JobAsked, FrameAsked, Started,
         Accepted, Shape, PageOf, Remaining, LastOf;
    LogShape(d.log, d.drive, d.TxAccepts());
    ghost var since, n := d.drive.pausedSince.value, |d.log| - 1;
    for i := 0 to |events|
      invariant d.Valid() && n < |d.log| && d.log[n] == old(d.log)[n]
      invariant since <= d.nowMs
      invariant d.drive.Sending? && |d.log| == n + 1 ==> d.drive.pausedSince.Some? && since <= d.drive.pausedSince.value
    {
      ghost var before, log, paused := d.drive, d.log, d.drive.Sending? && |d.log| == n + 1;
      ghost var render := if events[i].Tick? then events[i].host.render else NoScratch;
      ghost var next, tx := NextPrint(d.after, render), d.TxAccepts();
      var sent := Handle(d, events[i]);
      match events[i] {
        case Tick(now, host) =>
          if before.Sending? {
            if paused {
              WritesUnlessHeld(before, d.drive, log, d.log, now, host, next, tx, sent);
            } else {
              PumpKeepsEarlier(before, d.drive, log, d.log, now, host, next, tx, sent, n);
            }
          }
        case Notify(notes) =>
          if before.Sending? {
            NoReadyKeepsPause(notes, before.pausedSince, d.nowMs);
          }
        case _ =>
      }
    }
  }

  /** A write of the transfer waits for its response. Over any run of events
      without the completion of a write, nothing more is written to the transfer. */
  method HoldGate(d: Driver, events: seq<Event>)
    requires d.Valid() && d.drive.Sending? && d.drive.gated
    requires forall k :: 0 <= k < |events| && events[k].WriteDone? ==> events[k].status != 0
    modifies d
    ensures d.Valid() && |d.log| >= |old(d.log)| > 0
    ensures d.log[|old(d.log)| - 1] == old(d.log)[|old(d.log)| - 1]
  {
    hide LogOk, BooksOk, Pumped, Booked, Grows, Follows, StatusFrame, ParseStatus, JobAsked, FrameAsked, Started,
         Accepted, Shape, PageOf, Remaining, LastOf, PausedAfter;
    LogShape(d.log, d.drive, d.TxAccepts());
    ghost var n := |d.log| - 1;
    for i := 0 to |events|
      invariant d.Valid() && n < |d.log| && d.log[n] == old(d.log)[n]
      invariant d.drive.Sending? && |d.log| == n + 1 ==> d.drive.gated
    {
      ghost var before, log, gated := d.drive, d.log, d.drive.Sending? && |d.log| == n + 1;
      ghost var render := if events[i].Tick? then events[i].host.render else NoScratch;
      ghost var next, tx := NextPrint(d.after, render), d.TxAccepts();
      var sent := Handle(d, events[i]);
      if events[i].Tick? && before.Sending? {
        var now, host := events[i].now, events[i].host;
        if gated {
          WritesUnlessHeld(before, d.drive, log, d.log, now, host, next, tx, sent);
        } else {
          PumpKeepsEarlier(before, d.drive, log, d.log, now, host, next, tx, sent, n);
        }
      }
    }
  }

  lemma PumpKeepsEarlier(before: Drive, after: Drive, log: seq<Transfer>, log': seq<Transfer>, now: nat, host: TickHost,
                         next: Option<PrintRas>, tx: TxKind, sent: Option<Write>, n: nat)
    requires Shape(before) && n + 1 < |log| && Pumped(before, after, log, log', now, host, next, tx, sent)
    ensures |log'| >= |log| && log'[n] == log[n]
  {
    hide Remaining, Refilled;
  }

  lemma {:induction false} NoReadyKeepsPause(notes: seq<seq<bv8>>, paused: Option<nat>, now: nat)
    requires StatusFrame(Ready) !in notes
    ensures PausedAfter(notes, paused, now) in {paused, Some(now)}
    decreases |notes|
  {
    hide StatusFrame, ParseStatus;
    if BatchSize(notes) > 0 {
      FirstStatus(notes, paused, now);
      assert notes[0] in notes;
      NoReadyKeepsPause(notes[1..], PausedAfter([notes[0]], paused, now), now);
    }
  }

  // --- What the terms of the contracts say ----------------------------------------------

  /** Property bit 3 allows writes with response, bit 2 plain ones; a
      characteristic without properties is taken to allow plain ones. */
  lemma PropertyBits(props: bv8)
    ensures AcceptsResponse(props) <==> props & 0x08 == 0x08
    ensures AcceptsPlain(props) <==> props & 0x04 == 0x04 || props == 0
  {
  }

  /** Which way a print goes that an idle driver takes. */
  lemma {:induction false} LinkDecides(link: Link, up: bool, ras: PrintRas, cfg: Settings, now: nat)
    ensures var d := Started(link, up, ras, cfg, now);
            && (d.Sending? <==> link.enabled && up)
            && (d.Connecting? <==> link.enabled && !up && link.saved && link.connectOk)
            && (d.Scanning? <==> link.enabled && !up && !(link.saved && link.connectOk) && link.scanOk)
            && (d.Idle? <==> !link.enabled || !(up || (link.saved && link.connectOk) || link.scanOk))
            && (d.Sending? ==> d.ras == ras && d.nextRow == 0 && d.off == 0 && !d.gated && d.pausedSince == None)
  {
  }

  /** Waiting for the saved printer ends after 10 seconds, discovery after 8. */
  lemma {:induction false} AttemptsEnd(since: nat, pending: bool, due: bool, poll: bool, now: nat, host: TickHost)
    ensures host.connHandle == 0 || !host.connIsSaved ==>
              Ticked(Connecting(since), pending, due, poll, now, host)
              == if now > since + 10_000 then Idle else Connecting(since)
    ensures Ticked(Discovering(since), pending, due, poll, now, host)
            == if now > since + 8_000 then Idle else Discovering(since)
    ensures host.scanDone && poll ==>
              (Ticked(Scanning, pending, due, poll, now, host) == Connecting(now)
               <==> pending && host.best == Some(true))
  {
  }

  /** The next write carries a whole chunk, of at least 20 bytes, or what is left
      of the buffer. */
  lemma {:induction false} ChunkOfWrite(d: Drive, chunkSize: nat, tx: TxKind)
    requires d.Sending? && d.off < |d.buf|
    ensures var n, left := |NextWrite(d, chunkSize, tx).bytes|, |d.buf| - d.off;
            && n <= left && (n < left ==> n == if chunkSize < 20 then 20 else chunkSize)
            && (n == left ==> left <= 20 || left <= chunkSize)
  {
  }

  /** The kind of a received frame decides what it asks for. */
  lemma {:induction false} FrameAsksFor(kind: bv8, payload: seq<bv8>, tail: seq<bv8>, image: Option<PrintRas>,
                                        lines: seq<Line>, render: Render, s: Setter)
    requires |payload| <= 0xFFFF_FFF7
    ensures var a := FrameAsked(Wire.Build(kind, payload) + tail, image, lines, render, s);
            && (kind == 0 ==> a == if lines != [] && render.Rendered?
                                   then Some(Asked(Text(lines), PageOf(lines, s), render.ras)) else None)
            && (kind == 1 ==> a == if image.Some? then Some(PictureAsked(image.value)) else None)
            && (kind == 2 ==> a == JobAsked(payload, None, render, s))
            && (kind > 2 ==> a == None)
  {
    hide Wire.Parse, Wire.Build, JobAsked, PageOf;
    Wire.ParseBuild(kind, payload, tail);
  }

  /** A raster job asks for its own raster exactly when it is printable and whole. */
  lemma {:induction false} RasterAsksFor(width: nat, height: nat, stride: nat, rows: seq<bv8>, lines: Option<seq<Line>>,
                                         render: Render, s: Setter)
    requires width < 0x1_0000 && height < 0x1_0000 && stride < 0x1_0000
    ensures var a := JobAsked(Raster.Build(width, height, stride, rows), lines, render, s);
            if Raster.Printable(width, height, stride) && |rows| >= Raster.Area(stride, height)
            then a.Some? && a.value.source == Picture(a.value.ras)
                 && a.value.ras.bits == rows[..Raster.Area(stride, height)]
                 && a.value.ras.stride == stride && a.value.ras.height == height
            else a == if lines.Some? then TextAsked(lines.value, render, s) else None
  {
    hide Raster.Parse, Raster.Build, TextAsked, Raster.Printable, Raster.Area;
    Raster.ParseBuild(width, height, stride, rows);
  }

  /** With several characteristics of a kind the last one counts. */
  lemma {:induction false} LastOneCounts(chars: seq<RemoteChar>, k: nat)
    requires k < |chars| && forall j :: k < j < |chars| ==> chars[j].kind != chars[k].kind
    ensures LastOf(chars, chars[k].kind) == chars[k]
  {
    var n := |chars| - 1;
    if k < n {
      assert chars[n].kind != chars[k].kind;
      LastOneCounts(chars[..n], k);
    }
  }

  /** The last characteristic of a kind, or an empty one. */
  function LastOf(chars: seq<RemoteChar>, kind: CharKind): RemoteChar {
    if chars == [] then RemoteChar(kind, 0, 0)
    else if chars[|chars| - 1].kind == kind then chars[|chars| - 1]
    else LastOf(chars[..|chars| - 1], kind)
  }

  lemma LogShape(log: seq<Transfer>, d: Drive, tx: TxKind)
    requires d.Sending? && LogOk(log, d, tx)
    ensures log != [] && Shape(d) && (tx.response ==> d.sinceGate < GATE_EVERY)
  {
    var t := log[|log| - 1];
    assert t.writes[..|t.writes|] == t.writes;
  }

  lemma IdleLog(log: seq<Transfer>, tx: TxKind)
    ensures LogOk(log, Idle, tx) <==> AllClosed(log)
  {
  }

  /** Without a transfer and without a pending raster, nothing is under way. */
  lemma IdleBooks(b: Books, log: seq<Transfer>, s: Setter)
    requires BooksOk(b, false, log, s)
    ensures AllSettled(b.ended, log, b.reports, s)
    ensures b.queue.pending == None ==> b.queue.current == None
    ensures b.queue.(current := None) == NO_QUEUE ==> Dropped(b) == b
  {
  }

  lemma BooksAreSettled(b: Books, sending: bool, log: seq<Transfer>, s: Setter)
    requires BooksOk(b, sending, log, s)
    ensures AllSettled(b.ended, log, b.reports, s)
  {
  }

  lemma DroppedShape(b: Books)
    ensures Dropped(b).queue == NO_QUEUE
    ensures |Dropped(b).reports| == |b.reports| + if b.queue.jobActive then 1 else 0
  {
  }

  lemma PendingWaits(b: Books, sending: bool, log: seq<Transfer>, s: Setter)
    requires BooksOk(b, sending, log, s) && b.queue.pending.Some?
    ensures !sending
  {
  }

  /** Without a pending raster, either a transfer runs or nothing does. */
  lemma NothingRuns(b: Books, sending: bool, log: seq<Transfer>, s: Setter)
    requires BooksOk(b, sending, log, s) && b.queue.pending == None
    ensures BooksOk(b, false, log, s) <==> !sending
  {
  }

  /** Refilling and resuming leave the log sound. */
  lemma ResumeKeeps(log: seq<Transfer>, d: Drive, tx: TxKind)
    requires d.Sending? && LogOk(log, d, tx) && Shape(d) && Remaining(d) != []
    ensures var e := Resumed(Refilled(d));
            && Shape(e) && LogOk(log, e, tx) && Remaining(e) == Remaining(d)
            && e.off < |e.buf| && e.gated == d.gated && e.sinceGate == d.sinceGate
  {
    hide Remaining, Refilled, LogOk;
    RefillKeeps(d);
    RemainingIgnoresGate(Refilled(d), Resumed(Refilled(d)));
    SameRest(log, d, Resumed(Refilled(d)), tx);
  }

  /** A tick that may write does, and brings the end of the transfer closer. */
  lemma {:induction false} PumpShortens(before: Drive, after: Drive, log: seq<Transfer>, log': seq<Transfer>, now: nat,
                                        host: TickHost, next: Option<PrintRas>, tx: TxKind, sent: Option<Write>)
    requires Shape(before) && log != [] && Pumped(before, after, log, log', now, host, next, tx, sent)
    requires !Waits(before, now) && Remaining(before) != [] && host.writeOk
    ensures sent.Some? && log' == Logged(log, sent.value)
    ensures after.Sending? && Shape(after) && after.pausedSince == None
    ensures WritesLeft(after, RoomFor(host.chunk)) < WritesLeft(before, RoomFor(host.chunk))
  {
    hide Remaining, Refilled, Logged, WritesLeft, Shape;
    RefillKeeps(before);
    var d := Resumed(Refilled(before));
    var end, size := ChunkEnd(d, host.chunk), RoomFor(host.chunk);
    RefillWrites(before, size);
    WritesIgnoreGate(Refilled(before), d, size);
    WriteShortens(d, end, size);
    WritesIgnoreGate(d.(off := end), after, size);
  }

  lemma RefillWrites(d: Drive, size: nat)
    requires Shape(d) && size > 0
    ensures Shape(Refilled(d)) && WritesLeft(Refilled(d), size) <= WritesLeft(d, size)
  {
    hide Remaining, Refilled;
    RefillKeeps(d);
    RefillShortens(d);
  }

  lemma GrowsByAnything(log: seq<Transfer>)
    ensures Grows(log, log) && forall t :: Grows(log, log + [t])
  {
  }

  lemma BegunIsSending(ras: PrintRas, cfg: Settings)
    ensures Begun(ras, cfg).Sending?
  {
  }

  lemma RowsInsideUpTo(ras: PrintRas, to: nat)
    requires to <= ras.height
    ensures RowsInside(ras.bits, ras.stride, to)
  {
  }
}

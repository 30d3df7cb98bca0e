/** Accepted prints: what was asked for, the pages it was cut into, and the
    transfers that carried them. */
module Prints {
  import opened Bytes
  import opened Pages
  import opened Sending

  const PAGE_MAX_ROWS: int := 1200
  const MARGIN: int := 4

  datatype Report = Done | Error

  datatype AfterPrint = Nothing | NextPage

  /** Outcome of rendering a page: no surface to measure with, a failure after
      the lines were taken, or the raster. */
  datatype Render = NoScratch | Failed | Rendered(ras: PrintRas)

  /** How a driver sets text: line heights, and wrapping with its fonts. */
  datatype Setter = Setter(lineH: bool -> int, wrap: WrapFn)

  /** The page a queue of lines gives, and what stays queued behind it. */
  function PageOf(lines: seq<Line>, s: Setter): Page { Laid(lines, true, MARGIN, PAGE_MAX_ROWS, s.lineH, s.wrap) }

  datatype Source = Picture(ras: PrintRas) | Text(lines: seq<Line>)

  /** One page: its rows of text, if any, and the raster it was rendered to. */
  datatype Sheet = Sheet(rows: seq<Line>, ras: PrintRas)

  /** A print: whether a feature job asked for it, and the number of its first transfer. */
  datatype Print = Print(source: Source, job: bool, start: nat, sheets: seq<Sheet>)

  /** A print that is over: how it ended, the rows it lost, and, for a job, the
      number of the report that answered it. */
  datatype Ended = Ended(subject: Print, status: Report, lost: seq<Line>, report: nat)

  // --- The pages of a text ---------------------------------------------------------------

  /** The lines queued behind the first `n` pages. */
  function RestAfter(lines: seq<Line>, n: nat, s: Setter): seq<Line> {
    if n == 0 then lines else PageOf(RestAfter(lines, n - 1, s), s).rest
  }

  /** The rows of page `n`, counted from 0. */
  function PageRows(lines: seq<Line>, n: nat, s: Setter): seq<Line> { PageOf(RestAfter(lines, n, s), s).rows }

  /** All rows on the sheets, in order. */
  function RowsOn(sheets: seq<Sheet>): seq<Line> {
    if sheets == [] then [] else RowsOn(sheets[..|sheets| - 1]) + sheets[|sheets| - 1].rows
  }

  /** The sheets are the first pages of the source, and `queue` is what they leave. */
  ghost predicate Composed(p: Print, queue: seq<Line>, s: Setter) {
    match p.source
    case Picture(ras) => p.sheets == [Sheet([], ras)] && queue == []
    case Text(lines) =>
      && queue == RestAfter(lines, |p.sheets|, s)
      && forall k :: 0 <= k < |p.sheets| ==> p.sheets[k].rows == PageRows(lines, k, s)
  }

  // --- Prints and transfers ----------------------------------------------------------------

  /** Sheet `k` was transferred to the end. */
  predicate Out(p: Print, log: seq<Transfer>, k: nat)
    requires k < |p.sheets|
  {
    p.start + k < |log| && log[p.start + k].done && log[p.start + k].ras == p.sheets[k].ras
  }

  /** The first `n` sheets were transferred to the end, one after another. */
  ghost predicate Transferred(p: Print, log: seq<Transfer>, n: nat)
    requires n <= |p.sheets|
  {
    p.start + n <= |log| && forall k :: 0 <= k < n ==> Out(p, log, k)
  }

  /** All sheets but the last are out, and the last has not begun. */
  ghost predicate Ready(p: Print, ras: PrintRas, queue: seq<Line>, log: seq<Transfer>, s: Setter) {
    var n := |p.sheets|;
    && n > 0 && Composed(p, queue, s) && |log| == p.start + n - 1 && Transferred(p, log, n - 1)
    && p.sheets[n - 1].ras == ras
  }

  /** The last sheet is being transferred. */
  ghost predicate Printing(p: Print, queue: seq<Line>, log: seq<Transfer>, s: Setter) {
    var n := |p.sheets|;
    && n > 0 && Composed(p, queue, s) && |log| == p.start + n && Transferred(p, log, n - 1)
    && log[p.start + n - 1].ras == p.sheets[n - 1].ras
  }

  /** All sheets so far are out. */
  ghost predicate Printed(p: Print, queue: seq<Line>, log: seq<Transfer>, s: Setter) {
    Composed(p, queue, s) && |log| == p.start + |p.sheets| && Transferred(p, log, |p.sheets|)
  }

  /** A print that ended well was transferred in full, but for the rows it lost. */
  ghost predicate Settled(e: Ended, log: seq<Transfer>, reports: seq<Report>, s: Setter) {
    && (e.subject.job ==> e.report < |reports| && reports[e.report] == e.status)
    && (e.status == Done ==>
          && Transferred(e.subject, log, |e.subject.sheets|)
          && if e.lost == [] then Composed(e.subject, [], s)
             else exists queue :: Composed(e.subject, queue, s) && PageOf(queue, s) == Page(e.lost, []))
  }

  /** Every print that is over is settled, and every DONE belongs to one of them. */
  ghost predicate AllSettled(ended: seq<Ended>, log: seq<Transfer>, reports: seq<Report>, s: Setter) {
    && (forall k :: 0 <= k < |ended| ==> Settled(ended[k], log, reports, s))
    && (forall i :: 0 <= i < |reports| && reports[i] == Done ==>
          exists k :: 0 <= k < |ended| && ended[k].subject.job && ended[k].report == i)
  }

  // --- The books of a driver ---------------------------------------------------------------

  /** Everything that waits to be printed, and the print it belongs to. */
  datatype Queue = Queue(pending: Option<PrintRas>, lines: seq<Line>, after: AfterPrint, jobActive: bool,
                         current: Option<Print>)

  const NO_QUEUE := Queue(None, [], Nothing, false, None)

  datatype Books = Books(queue: Queue, ended: seq<Ended>, reports: seq<Report>)

  /** The reports once an active job is answered. */
  function Answer(reports: seq<Report>, active: bool, status: Report): seq<Report> {
    reports + if active then [status] else []
  }

  /** The prints that are over once the running one ends. */
  function End(b: Books, status: Report, lost: seq<Line>): seq<Ended> {
    match b.queue.current
    case None => b.ended
    case Some(p) => b.ended + [Ended(p, status, lost, |b.reports|)]
  }

  /** The running print is over, and nothing stays queued. */
  function Over(b: Books, status: Report, lost: seq<Line>): Books {
    Books(NO_QUEUE, End(b, status, lost), Answer(b.reports, b.queue.jobActive, status))
  }

  function Dropped(b: Books): Books { Over(b, Error, []) }

  /** After a transfer: the next page, or the end of the print. A page that fails
      to render is an error, unless it took the last lines: they are lost. */
  function Turned(b: Books, render: Render, s: Setter): Books {
    var page := PageOf(b.queue.lines, s);
    if b.queue.after == Nothing then Over(b, Done, [])
    else if render.Rendered? then b.(queue := NextQueue(b.queue, page, render.ras))
    else if render == Failed && page.rest == [] then Over(b, Done, page.rows)
    else Dropped(b)
  }

  function NextQueue(q: Queue, page: Page, ras: PrintRas): Queue {
    Queue(None, page.rest, AfterPage(page.rest), q.jobActive,
          match q.current
          case None => None
          case Some(p) => Some(p.(sheets := p.sheets + [Sheet(page.rows, ras)])))
  }

  function AfterPage(rest: seq<Line>): AfterPrint { if rest == [] then Nothing else NextPage }

  /** What is asked for: the source, its first page, and the raster of that. */
  datatype Asked = Asked(source: Source, page: Page, ras: PrintRas)

  function PictureAsked(ras: PrintRas): Asked { Asked(Picture(ras), Page([], []), ras) }

  function TextAsked(lines: seq<Line>, render: Render, s: Setter): Option<Asked> {
    if lines != [] && render.Rendered? then Some(Asked(Text(lines), PageOf(lines, s), render.ras)) else None
  }

  function NewPrint(b: Books, a: Asked, start: nat): Print {
    Print(a.source, b.queue.jobActive, start, [Sheet(a.page.rows, a.ras)])
  }

  /** An idle driver takes a print: it is dropped at once, waits for a link, or is
      sent. */
  function Accepted(b: Books, a: Asked, start: nat, idle: bool, sending: bool): Books {
    var queue := Queue(if sending then None else Some(a.ras), a.page.rest, AfterPage(a.page.rest), b.queue.jobActive,
                       Some(NewPrint(b, a, start)));
    if idle then Dropped(b.(queue := queue)) else b.(queue := queue)
  }

  /** A job is taken, and is not answered yet. */
  function Taken(b: Books): Books { b.(queue := b.queue.(jobActive := true)) }

  function Refused(b: Books): Books { b.(reports := b.reports + [Error]) }

  /** The running print, if any, waits with a raster, or its last sheet is on the
      way; all others are settled. */
  ghost predicate BooksOk(b: Books, sending: bool, log: seq<Transfer>, s: Setter) {
    && AllSettled(b.ended, log, b.reports, s)
    && match b.queue.current
       case None => !sending && b.queue.pending == None
       case Some(p) =>
         && p.job == b.queue.jobActive
         && if sending then b.queue.pending == None && Printing(p, b.queue.lines, log, s)
            else b.queue.pending.Some? && Ready(p, b.queue.pending.value, b.queue.lines, log, s)
  }

  // --- Steps -----------------------------------------------------------------------------

  lemma TransferBegins(p: Print, ras: PrintRas, queue: seq<Line>, log: seq<Transfer>, s: Setter, t: Transfer)
    requires Ready(p, ras, queue, log, s) && t.ras == ras
    ensures Printing(p, queue, log + [t], s)
  {
    hide Composed, Transferred;
    SameTransfers(p, log, log + [t], |p.sheets| - 1);
  }

  lemma TransferWrites(p: Print, queue: seq<Line>, log: seq<Transfer>, s: Setter, w: Write)
    requires Printing(p, queue, log, s)
    ensures Printing(p, queue, Logged(log, w), s)
  {
    hide Composed, Transferred;
    SameTransfers(p, log, Logged(log, w), |p.sheets| - 1);
  }

  /** A transfer stays out while the log grows behind it. */
  lemma SameTransfers(p: Print, log: seq<Transfer>, log': seq<Transfer>, n: nat)
    requires n <= |p.sheets| && Transferred(p, log, n) && |log'| >= p.start + n
    requires forall i :: 0 <= i < p.start + n ==> log'[i] == log[i]
    ensures Transferred(p, log', n)
  {
    forall k: nat | k < n ensures Out(p, log', k) {
      assert Out(p, log, k) && log'[p.start + k] == log[p.start + k];
    }
  }

  lemma TransferEnds(p: Print, queue: seq<Line>, log: seq<Transfer>, s: Setter)
    requires Printing(p, queue, log, s)
    ensures Printed(p, queue, Completed(log), s)
  {
    hide Composed;
    var n := |p.sheets| - 1;
    SameTransfers(p, log, Completed(log), n);
    forall k: nat | k < |p.sheets| ensures Out(p, Completed(log), k) {
      if k == n {
        assert Completed(log)[p.start + n] == log[p.start + n].(done := true);
      }
    }
  }

  lemma NextSheet(p: Print, queue: seq<Line>, log: seq<Transfer>, s: Setter, ras: PrintRas)
    requires Printed(p, queue, log, s) && queue != []
    ensures var page := PageOf(queue, s);
            Ready(p.(sheets := p.sheets + [Sheet(page.rows, ras)]), ras, page.rest, log, s)
  {
    hide PageOf, Transferred;
    var page, n := PageOf(queue, s), |p.sheets|;
    var q := p.(sheets := p.sheets + [Sheet(page.rows, ras)]);
    forall k | 0 <= k < n ensures q.sheets[k] == p.sheets[k] {
    }
    SameSheets(p, q, log, n);
    OneMorePage(p, queue, s, ras);
  }

  lemma SameSheets(p: Print, q: Print, log: seq<Transfer>, n: nat)
    requires n <= |p.sheets| && n <= |q.sheets| && p.start == q.start && Transferred(p, log, n)
    requires forall k :: 0 <= k < n ==> q.sheets[k] == p.sheets[k]
    ensures Transferred(q, log, n)
  {
    forall k: nat | k < n ensures Out(q, log, k) {
      assert Out(p, log, k);
    }
  }

  lemma OneMorePage(p: Print, queue: seq<Line>, s: Setter, ras: PrintRas)
    requires Composed(p, queue, s) && queue != []
    ensures var page := PageOf(queue, s);
            Composed(p.(sheets := p.sheets + [Sheet(page.rows, ras)]), page.rest, s)
  {
    hide PageOf;
    assert RestAfter(p.source.lines, |p.sheets| + 1, s) == PageOf(RestAfter(p.source.lines, |p.sheets|, s), s).rest;
  }

  lemma FirstSheet(source: Source, job: bool, log: seq<Transfer>, rows: seq<Line>, queue: seq<Line>, ras: PrintRas,
                   s: Setter)
    requires match source case Picture(r) => rows == [] && queue == [] && ras == r
                          case Text(lines) => Page(rows, queue) == PageOf(lines, s)
    ensures Ready(Print(source, job, |log|, [Sheet(rows, ras)]), ras, queue, log, s)
  {
    hide PageOf;
    if source.Text? {
      assert RestAfter(source.lines, 0, s) == source.lines;
      assert RestAfter(source.lines, 1, s) == PageOf(RestAfter(source.lines, 0, s), s).rest;
    }
  }

  /** Ending the running print, with its job answered, keeps all prints settled. */
  lemma OverKeeps(b: Books, status: Report, lost: seq<Line>, log: seq<Transfer>, s: Setter)
    requires AllSettled(b.ended, log, b.reports, s)
    requires b.queue.current.Some? ==> b.queue.current.value.job == b.queue.jobActive
    requires status == Done ==>
               && b.queue.current.Some? && Printed(b.queue.current.value, b.queue.lines, log, s)
               && if lost == [] then b.queue.lines == [] else PageOf(b.queue.lines, s) == Page(lost, [])
    ensures BooksOk(Over(b, status, lost), false, log, s)
  {
    hide Composed, PageOf, Transferred;
    var o := Over(b, status, lost);
    ReportsGrow(b.ended, log, b.reports, o.reports, s);
    if b.queue.current.Some? {
      assert Settled(o.ended[|b.ended|], log, o.reports, s);
    }
    forall i | 0 <= i < |o.reports| && o.reports[i] == Done
      ensures exists k :: 0 <= k < |o.ended| && o.ended[k].subject.job && o.ended[k].report == i
    {
      if i < |b.reports| {
        var k :| 0 <= k < |b.ended| && b.ended[k].subject.job && b.ended[k].report == i;
        assert o.ended[k] == b.ended[k];
      } else {
        assert o.ended[|b.ended|].report == i;
      }
    }
  }

  lemma DropKeeps(b: Books, sending: bool, log: seq<Transfer>, s: Setter)
    requires BooksOk(b, sending, log, s)
    ensures BooksOk(Dropped(b), false, log, s)
  {
    hide AllSettled, Printing, Ready, Composed;
    OverKeeps(b, Error, [], log, s);
  }

  lemma AcceptKeeps(b: Books, a: Asked, idle: bool, sending: bool, log: seq<Transfer>, t: Transfer, s: Setter)
    requires AllSettled(b.ended, log, b.reports, s) && (idle ==> !sending) && t.ras == a.ras
    requires match a.source case Picture(r) => a == PictureAsked(r)
                            case Text(lines) => a.page == PageOf(lines, s)
    ensures BooksOk(Accepted(b, a, |log|, idle, sending), sending, if sending then log + [t] else log, s)
  {
    hide AllSettled, Printing, Ready, Composed, PageOf;
    FirstSheet(a.source, b.queue.jobActive, log, a.page.rows, a.page.rest, a.ras, s);
    var waiting := Accepted(b, a, |log|, false, false);
    if idle {
      OverKeeps(waiting, Error, [], log, s);
    } else if sending {
      BeginKeeps(waiting, log, s, t);
    }
  }

  /** The transfer of the pending raster begins. */
  lemma BeginKeeps(b: Books, log: seq<Transfer>, s: Setter, t: Transfer)
    requires BooksOk(b, false, log, s) && b.queue.pending == Some(t.ras)
    ensures BooksOk(b.(queue := b.queue.(pending := None)), true, log + [t], s)
  {
    hide AllSettled, Printing, Ready, Composed, Grows;
    assert Grows(log, log + [t]) by { GrowsBy(log, t); }
    LogGrowthSettles(b.ended, log, log + [t], b.reports, s);
    TransferBegins(b.queue.current.value, t.ras, b.queue.lines, log, s, t);
  }

  lemma GrowsBy(log: seq<Transfer>, t: Transfer)
    ensures Grows(log, log + [t])
  {
  }

  lemma WriteKeeps(b: Books, log: seq<Transfer>, s: Setter, w: Write)
    requires BooksOk(b, true, log, s) && log != [] && !log[|log| - 1].done
    ensures BooksOk(b, true, Logged(log, w), s)
  {
    hide AllSettled, Printing, Ready, Composed, Grows, Logged, Completed;
    GrowsAtEnd(log, w);
    LogGrowthSettles(b.ended, log, Logged(log, w), b.reports, s);
    TransferWrites(b.queue.current.value, b.queue.lines, log, s, w);
  }

  /** A transfer completes, and the next page begins or the print is over. */
  lemma TurnKeeps(b: Books, log: seq<Transfer>, s: Setter, render: Render, t: Transfer)
    requires BooksOk(b, true, log, s) && log != [] && !log[|log| - 1].done
    requires (b.queue.after == NextPage <==> b.queue.lines != []) && (render.Rendered? ==> t.ras == render.ras)
    ensures var next := b.queue.after == NextPage && render.Rendered?;
            BooksOk(Turned(b, render, s), next, if next then Completed(log) + [t] else Completed(log), s)
  {
    hide AllSettled, Printing, Ready, Printed, Composed, Grows, Logged, Completed, PageOf;
    var p, q := b.queue.current.value, b.queue;
    GrowsAtEnd(log, Write([], false));
    LogGrowthSettles(b.ended, log, Completed(log), b.reports, s);
    TransferEnds(p, q.lines, log, s);
    var page := PageOf(q.lines, s);
    if q.after == Nothing {
      OverKeeps(b, Done, [], Completed(log), s);
    } else if render.Rendered? {
      NextSheet(p, q.lines, Completed(log), s, render.ras);
      var turned := Turned(b, render, s);
      BeginKeeps(turned.(queue := turned.queue.(pending := Some(render.ras))), Completed(log), s, t);
    } else if render == Failed && page.rest == [] {
      PageHasRows(q.lines, s);
      OverKeeps(b, Done, page.rows, Completed(log), s);
    } else {
      OverKeeps(b, Error, [], Completed(log), s);
    }
  }

  lemma PageHasRows(lines: seq<Line>, s: Setter)
    requires lines != []
    ensures PageOf(lines, s).rows != []
  {
  }

  /** A transfer that completes loses rows exactly when a page was due, it failed
      to render, and it left nothing queued. The rows are those of that page. */
  lemma {:induction false} RowsAreLost(b: Books, render: Render, s: Setter)
    requires b.queue.current.Some? && (b.queue.after == NextPage <==> b.queue.lines != [])
    ensures var o, n := Turned(b, render, s), |b.ended|;
            && (|o.ended| > n && o.ended[n].lost != []
                <==> b.queue.after == NextPage && render == Failed && PageOf(b.queue.lines, s).rest == [])
            && (|o.ended| > n && o.ended[n].lost != [] ==>
                  o.ended[n].status == Done && o.ended[n].lost == PageOf(b.queue.lines, s).rows)
  {
    hide PageOf;
    if b.queue.lines != [] {
      PageHasRows(b.queue.lines, s);
    }
  }

  // --- The books over time ---------------------------------------------------------------

  /** `q` is the print `p` with more sheets. */
  predicate Prolongs(p: Print, q: Print) { q == p.(sheets := q.sheets) && p.sheets <= q.sheets }

  /** No print that is over, no report and no source is ever changed, and the
      running print goes on or is the next one to end. */
  predicate Follows(b: Books, b': Books) {
    && b.ended <= b'.ended && b.reports <= b'.reports
    && (b.queue.current.Some? ==>
          var p := b.queue.current.value;
          if |b'.ended| > |b.ended| then Prolongs(p, b'.ended[|b.ended|].subject)
          else b'.queue.current.Some? && Prolongs(p, b'.queue.current.value))
  }

  lemma FollowsItself(b: Books)
    ensures Follows(b, b)
  {
  }

  lemma FollowsOn(a: Books, b: Books, c: Books)
    requires Follows(a, b) && Follows(b, c)
    ensures Follows(a, c)
  {
  }

  lemma StepsFollow(b: Books, status: Report, lost: seq<Line>, render: Render, s: Setter)
    ensures Follows(b, Over(b, status, lost)) && Follows(b, Turned(b, render, s)) && Follows(b, Refused(b))
  {
    hide PageOf;
  }

  lemma ReportsGrow(ended: seq<Ended>, log: seq<Transfer>, reports: seq<Report>, reports': seq<Report>, s: Setter)
    requires AllSettled(ended, log, reports, s) && reports <= reports'
    ensures forall k :: 0 <= k < |ended| ==> Settled(ended[k], log, reports', s)
  {
    hide Composed, PageOf, Transferred;
    forall k | 0 <= k < |ended| ensures Settled(ended[k], log, reports', s) {
      assert Settled(ended[k], log, reports, s);
    }
  }

  /** A job that is refused is answered without a print. */
  lemma RefusalKeeps(b: Books, sending: bool, log: seq<Transfer>, s: Setter)
    requires BooksOk(b, sending, log, s)
    ensures BooksOk(Refused(b), sending, log, s)
  {
    hide Printing, Ready, Settled;
    ReportsGrow(b.ended, log, b.reports, b.reports + [Error], s);
  }

  lemma LogGrowthSettles(ended: seq<Ended>, log: seq<Transfer>, log': seq<Transfer>, reports: seq<Report>, s: Setter)
    requires AllSettled(ended, log, reports, s) && Grows(log, log')
    ensures AllSettled(ended, log', reports, s)
  {
    hide Composed, PageOf, Transferred;
    forall k | 0 <= k < |ended| ensures Settled(ended[k], log', reports, s) {
      assert Settled(ended[k], log, reports, s);
      if ended[k].status == Done {
        StaysOut(ended[k].subject, log, log');
      }
    }
  }

  lemma StaysOut(p: Print, log: seq<Transfer>, log': seq<Transfer>)
    requires Transferred(p, log, |p.sheets|) && Grows(log, log')
    ensures Transferred(p, log', |p.sheets|)
  {
    forall k: nat | k < |p.sheets| ensures Out(p, log', k) {
      assert Out(p, log, k) && Continues(log[p.start + k], log'[p.start + k]);
    }
  }

  // --- What an ended print has printed ----------------------------------------------------------

  /** The first pages and the lines behind them are all rows of the text. */
  lemma {:induction false} PagesKeepFlow(p: Print, n: nat, lines: seq<Line>, s: Setter)
    requires Stable(s.wrap) && p.source == Text(lines) && n <= |p.sheets|
    requires forall k :: 0 <= k < n ==> p.sheets[k].rows == PageRows(lines, k, s)
    ensures RowsOn(p.sheets[..n]) + Flow(RestAfter(lines, n, s), s.wrap) == Flow(lines, s.wrap)
  {
    hide PageOf, Flow, Stable;
    if n == 0 {
      assert [] + Flow(lines, s.wrap) == Flow(lines, s.wrap) && p.sheets[..0] == [];
    } else {
      var rest := RestAfter(lines, n - 1, s);
      PagesKeepFlow(p, n - 1, lines, s);
      PageKeepsFlow(rest, s);
      assert p.sheets[..n][..n - 1] == p.sheets[..n - 1];
      var page := PageOf(rest, s);
      assert RowsOn(p.sheets[..n - 1]) + (page.rows + Flow(page.rest, s.wrap))
          == RowsOn(p.sheets[..n - 1]) + page.rows + Flow(page.rest, s.wrap);
    }
  }

  lemma PageKeepsFlow(lines: seq<Line>, s: Setter)
    requires Stable(s.wrap)
    ensures PageOf(lines, s).rows + Flow(PageOf(lines, s).rest, s.wrap) == Flow(lines, s.wrap)
  {
    LaidKeepsFlow(lines, true, MARGIN, PAGE_MAX_ROWS, s.lineH, s.wrap);
  }

  /** A text that ended well was transferred page by page: its sheets hold all rows
      of its own lines, in order, but for the rows lost at the end. */
  lemma {:induction false} TextWasPrinted(ended: seq<Ended>, log: seq<Transfer>, reports: seq<Report>, s: Setter,
                                          k: nat)
    requires Stable(s.wrap) && AllSettled(ended, log, reports, s)
    requires k < |ended| && ended[k].status == Done && ended[k].subject.source.Text?
    ensures var p := ended[k].subject;
            && RowsOn(p.sheets) + ended[k].lost == Flow(p.source.lines, s.wrap)
            && p.start + |p.sheets| <= |log| && forall j :: 0 <= j < |p.sheets| ==> Out(p, log, j)
  {
    hide PageOf, Flow, Stable;
    var e := ended[k];
    var p, n := e.subject, |e.subject.sheets|;
    assert Settled(e, log, reports, s);
    PagesKeepFlow(p, n, p.source.lines, s);
    var rest := RestAfter(p.source.lines, n, s);
    assert p.sheets[..n] == p.sheets;
    assert Transferred(p, log, n);
    NothingFlows(s.wrap);
    if e.lost != [] {
      PageKeepsFlow(rest, s);
      assert e.lost + [] == e.lost;
    } else {
      assert RowsOn(p.sheets) + [] == RowsOn(p.sheets);
    }
  }

  /** A picture that ended well was transferred, and nothing of it was lost. */
  lemma {:induction false} PictureWasPrinted(ended: seq<Ended>, log: seq<Transfer>, reports: seq<Report>, s: Setter,
                                             k: nat)
    requires AllSettled(ended, log, reports, s)
    requires k < |ended| && ended[k].status == Done && ended[k].subject.source.Picture?
    ensures var p := ended[k].subject;
            p.sheets == [Sheet([], p.source.ras)] && ended[k].lost == [] && Out(p, log, 0)
  {
    var p := ended[k].subject;
    assert Settled(ended[k], log, reports, s);
    assert Out(p, log, 0);
  }

  /** Every sheet of the print was transferred, one after another; they are the
      picture, or hold all rows of the text but those lost at the end. */
  ghost predicate WasPrinted(e: Ended, log: seq<Transfer>, s: Setter) {
    var p := e.subject;
    && (forall j :: 0 <= j < |p.sheets| ==> Out(p, log, j))
    && match p.source
       case Picture(ras) => p.sheets == [Sheet([], ras)] && e.lost == []
       case Text(lines) => RowsOn(p.sheets) + e.lost == Flow(lines, s.wrap)
  }

  /** Every print that ended well was printed, and every DONE was the answer to one. */
  lemma {:induction false} DoneWasPrinted(ended: seq<Ended>, log: seq<Transfer>, reports: seq<Report>, s: Setter)
    requires Stable(s.wrap) && AllSettled(ended, log, reports, s)
    ensures forall k :: 0 <= k < |ended| && ended[k].status == Done ==> WasPrinted(ended[k], log, s)
    ensures forall i :: 0 <= i < |reports| && reports[i] == Done ==>
              exists k :: 0 <= k < |ended| && ended[k].subject.job && ended[k].report == i && ended[k].status == Done
  {
    hide PageOf, Flow, Stable, Composed, RowsOn;
    forall k | 0 <= k < |ended| && ended[k].status == Done ensures WasPrinted(ended[k], log, s) {
      if ended[k].subject.source.Text? {
        TextWasPrinted(ended, log, reports, s, k);
      } else {
        PictureWasPrinted(ended, log, reports, s, k);
      }
    }
    forall i | 0 <= i < |reports| && reports[i] == Done
      ensures exists k :: 0 <= k < |ended| && ended[k].subject.job && ended[k].report == i && ended[k].status == Done
    {
      var k :| 0 <= k < |ended| && ended[k].subject.job && ended[k].report == i;
      assert Settled(ended[k], log, reports, s);
    }
  }

  lemma NothingFlows(wrap: WrapFn)
    ensures Flow([], wrap) == []
  {
  }
}

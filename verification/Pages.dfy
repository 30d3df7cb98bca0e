/** Laying wrapped lines out on pages, with the rest queued for later pages. */
module Pages {
  import opened Layout

  /** A source line, and equally one laid-out row. */
  datatype Line = Line(headline: bool, text: string)

  /** Wrapping with the font of a headline or of body text. */
  type WrapFn = (bool, string) -> seq<string>

  // --- The rows of a text ----------------------------------------------------------

  function AsLines(headline: bool, texts: seq<string>): seq<Line> {
    seq(|texts|, i requires 0 <= i < |texts| => Line(headline, texts[i]))
  }

  /** The rows of one source line; a blank line takes one empty row. */
  function Rows(l: Line, wrap: WrapFn): seq<Line> {
    var texts := wrap(l.headline, l.text);
    if texts == [] then [Line(l.headline, "")] else AsLines(l.headline, texts)
  }

  /** All rows of a queue, in order. */
  function Flow(lines: seq<Line>, wrap: WrapFn): seq<Line> {
    if lines == [] then [] else Rows(lines[0], wrap) + Flow(lines[1..], wrap)
  }

  /** Wrapping a wrapped row again gives just that row. */
  ghost predicate Stable(wrap: WrapFn) {
    forall headline: bool, text: string, i: nat :: i < |wrap(headline, text)| ==>
      Rows(Line(headline, wrap(headline, text)[i]), wrap) == [Line(headline, wrap(headline, text)[i])]
  }

  function LineHeight(headline: bool, lineH: bool -> int): (h: int)
    ensures h >= 1
  {
    if lineH(headline) < 1 then 1 else lineH(headline)
  }

  function Height(rows: seq<Line>, lineH: bool -> int): int {
    if rows == [] then 0
    else Height(rows[..|rows| - 1], lineH) + LineHeight(rows[|rows| - 1].headline, lineH)
  }

  /** Rows with text end above the page bottom; only the first row of a page may
      be forced below it. */
  ghost predicate OnPage(page: seq<Line>, y0: int, maxRows: int, lineH: bool -> int) {
    forall k :: 1 <= k < |page| && page[k].text != "" ==> y0 + Height(page[..k + 1], lineH) <= maxRows
  }

  /** The next source line does not fit below a page that ends at `y`. */
  predicate PageFull(next: Line, y: int, maxRows: int, lineH: bool -> int, wrap: WrapFn) {
    y + |Rows(next, wrap)| * LineHeight(next.headline, lineH) > maxRows
  }

  /** The rows of one page, and the lines queued behind it. */
  datatype Page = Page(rows: seq<Line>, rest: seq<Line>)

  function Below(rows: seq<Line>, page: Page): Page { Page(rows + page.rows, page.rest) }

  /** A blank line always goes on the page, another one only in full. */
  predicate TakenWhole(l: Line, y: int, maxRows: int, lineH: bool -> int, wrap: WrapFn) {
    |wrap(l.headline, l.text)| <= RowsFitting(maxRows - y, LineHeight(l.headline, lineH))
    || wrap(l.headline, l.text) == []
  }

  /** The rest of a page whose rows end at `y`. Only the first line of a page
      may be split, and then gives up at least one row. */
  function Laid(lines: seq<Line>, first: bool, y: int, maxRows: int, lineH: bool -> int, wrap: WrapFn): Page
    decreases |lines|
  {
    if lines == [] then Page([], [])
    else
      var l := lines[0];
      var texts, h := wrap(l.headline, l.text), LineHeight(l.headline, lineH);
      if TakenWhole(l, y, maxRows, lineH, wrap) then
        Below(Rows(l, wrap), Laid(lines[1..], false, y + |Rows(l, wrap)| * h, maxRows, lineH, wrap))
      else if first then
        var fit := RowsFitting(maxRows - y, h);
        var take := if fit > 1 then fit else 1;
        Page(AsLines(l.headline, texts[..take]), AsLines(l.headline, texts[take..]) + lines[1..])
      else Page([], lines)
  }

  /** What a queue keeps when one page is laid out. */
  function RestOf(lines: seq<Line>, y0: int, maxRows: int, lineH: bool -> int, wrap: WrapFn): seq<Line> {
    Laid(lines, true, y0, maxRows, lineH, wrap).rest
  }

  // --- One page ----------------------------------------------------------------------

  class PageQueue {
    var lines: seq<Line>

    constructor (lines: seq<Line>)
      ensures this.lines == lines
    {
      this.lines := lines;
    }

    /** Lay out one page and drain what it took. Nothing is lost or reordered,
        every page of a non-empty queue holds a row, rows stay on the page, and
        no page stops early. */
    method Paginate(y0: int, maxRows: int, lineH: bool -> int, wrap: WrapFn)
      returns (page: seq<Line>, y: int)
      modifies this
      ensures Stable(wrap) ==> page + Flow(lines, wrap) == Flow(old(lines), wrap)
      ensures Page(page, lines) == Laid(old(lines), true, y0, maxRows, lineH, wrap)
      ensures old(lines) != [] ==> page != []
      ensures y == y0 + Height(page, lineH)
      ensures OnPage(page, y0, maxRows, lineH)
      ensures Stable(wrap) && lines != [] ==> PageFull(lines[0], y, maxRows, lineH, wrap)
    {
      hide Rows, Flow, Stable, Height, OnPage, LineHeight, PageFull, AsLines, RowsFitting, Laid;
      page := [];
      y := y0;
      var consumed := 0;
      EmptyPage(y0, maxRows, lineH);
      assert lines[0..] == lines && [] + Flow(lines, wrap) == Flow(lines, wrap);
      while consumed < |lines|
        invariant consumed <= |lines| && lines == old(lines)
        invariant page + Flow(lines[consumed..], wrap) == Flow(lines, wrap)
        invariant Below(page, Laid(lines[consumed..], consumed == 0, y, maxRows, lineH, wrap))
               == Laid(lines, true, y0, maxRows, lineH, wrap)
        invariant consumed > 0 <==> page != []
        invariant y == y0 + Height(page, lineH) && OnPage(page, y0, maxRows, lineH)
        decreases |lines| - consumed
      {
        var line := lines[consumed];
        var wrapped := wrap(line.headline, line.text);
        FlowNext(lines, consumed, wrap);
        if wrapped == [] {
          BlankRow(line, wrap);
          LaidWhole(page, lines, consumed, y, maxRows, lineH, wrap);
          RowFits(page, Line(line.headline, ""), y0, maxRows, lineH);
          page := page + [Line(line.headline, "")];
          y := y + LineHeight(line.headline, lineH);
          consumed := consumed + 1;
          continue;
        }
        var fit := RowsFitting(maxRows - y, LineHeight(line.headline, lineH));
        TextRows(line, wrap);
        if |wrapped| <= fit {
          FewerFit(maxRows - y, LineHeight(line.headline, lineH), |wrapped|);
          LaidWhole(page, lines, consumed, y, maxRows, lineH, wrap);
          assert wrapped[..|wrapped|] == wrapped;
          SomeLines(line.headline, wrapped);
          page, y := AddRows(page, y, line.headline, wrapped, |wrapped|, y0, maxRows, lineH);
          consumed := consumed + 1;
          continue;
        }
        if consumed == 0 {
          assert lines[0..] == lines && page == [];
          HeightOfNothing(lineH);
          page, y := SplitFirst(wrapped, fit, y0, maxRows, lineH, wrap);
          return;
        }
        assert lines[consumed..][0] == line;
        LaidStop(page, lines, consumed, y, maxRows, lineH, wrap);
        TooTall(line, fit, y, maxRows, lineH, wrap);
        lines := lines[consumed..];
        return;
      }
      NoFlow(lines, wrap);
      LaidEnd(page, lines, consumed, y, maxRows, lineH, wrap);
      lines := lines[consumed..];
    }

    /** Print the rows of the first line that fit an empty page, at least one,
        and queue the others in its place. */
    method SplitFirst(texts: seq<string>, fit: nat, y0: int, maxRows: int, lineH: bool -> int, wrap: WrapFn)
      returns (page: seq<Line>, y: int)
      requires lines != [] && texts == wrap(lines[0].headline, lines[0].text) && |texts| > fit
      requires fit == RowsFitting(maxRows - y0, LineHeight(lines[0].headline, lineH))
      requires texts != []
      modifies this
      ensures Stable(wrap) ==> page + Flow(lines, wrap) == Flow(old(lines), wrap)
      ensures Page(page, lines) == Laid(old(lines), true, y0, maxRows, lineH, wrap)
      ensures page != [] && y == y0 + Height(page, lineH) && OnPage(page, y0, maxRows, lineH)
      ensures Stable(wrap) && lines != [] ==> PageFull(lines[0], y, maxRows, lineH, wrap)
    {
      hide Rows, Flow, Stable, Height, OnPage, PageFull, LineHeight, AsLines, RowsFitting, Laid;
      LaidSplit(lines, fit, y0, maxRows, lineH, wrap);
      var line, tail := lines[0], lines[1..];
      var h := LineHeight(line.headline, lineH);
      var take := if fit > 1 then fit else 1;
      EmptyPage(y0, maxRows, lineH);
      FewerFit(maxRows - y0, h, fit);
      page, y := AddRows([], y0, line.headline, texts, take, y0, maxRows, lineH);
      var rest := AsLines(line.headline, texts[take..]);
      SomeLines(line.headline, texts[..take]);
      SomeLines(line.headline, texts[take..]);
      SplitFlow(line, texts, take, tail, wrap);
      assert lines == [line] + tail;
      FlowCons(line, tail, wrap);
      lines := rest + tail;
      PastTheBottom(maxRows - y0, h, fit, take);
      if take < |texts| {
        FirstLine(line.headline, texts[take..]);
        assert lines[0] == Line(line.headline, texts[take]);
        LeftoverIsFull(line, texts, take, y, maxRows, lineH, wrap);
      } else if tail != [] {
        assert lines[0] == tail[0];
        BelowTheBottom(tail[0], y, maxRows, lineH, wrap);
      }
    }

    /** Append `take` rows of a wrapped line. */
    method AddRows(page0: seq<Line>, start: int, headline: bool, texts: seq<string>, take: nat,
                   y0: int, maxRows: int, lineH: bool -> int)
      returns (page: seq<Line>, y: int)
      requires take <= |texts| && start == y0 + Height(page0, lineH) && OnPage(page0, y0, maxRows, lineH)
      requires (take > 0 && start + take * LineHeight(headline, lineH) <= maxRows) || (page0 == [] && take == 1)
      ensures page == page0 + AsLines(headline, texts[..take])
      ensures y == y0 + Height(page, lineH) && y == start + take * LineHeight(headline, lineH)
      ensures OnPage(page, y0, maxRows, lineH)
    {
      hide Height, OnPage, LineHeight;
      page, y := page0, start;
      var h := LineHeight(headline, lineH);
      for i := 0 to take
        invariant page == page0 + AsLines(headline, texts[..i])
        invariant y == y0 + Height(page, lineH) && y == start + i * h && OnPage(page, y0, maxRows, lineH)
      {
        StepBound(i, take, h);
        RowFits(page, Line(headline, texts[i]), y0, maxRows, lineH);
        page := page + [Line(headline, texts[i])];
        y := y + h;
      }
    }
  }

  lemma StepBound(i: nat, take: nat, h: int)
    requires i < take && h >= 1
    ensures (i + 1) * h <= take * h && (i + 1) * h == i * h + h
  {
  }

  /** How many rows of height `h` fit into `space`. */
  function RowsFitting(space: int, h: int): nat
    requires h >= 1
  {
    if space / h > 0 then space / h else 0
  }

  lemma FitBound(space: int, h: int)
    requires h >= 1
    ensures var fit := RowsFitting(space, h); (fit > 0 ==> fit * h <= space) && (fit + 1) * h > space
  {
    assert space == h * (space / h) + space % h;
    var fit := RowsFitting(space, h);
    if fit == 0 {
      NegativeQuotient(space, h);
    } else {
      assert fit * h == h * (space / h);
    }
  }

  lemma NegativeQuotient(space: int, h: int)
    requires h >= 1 && space / h <= 0
    ensures space < h
  {
    assert space == h * (space / h) + space % h;
    assert h * (space / h) <= 0;
  }

  lemma FewerFit(space: int, h: int, n: nat)
    requires h >= 1 && n <= RowsFitting(space, h)
    ensures n > 0 ==> n * h <= space
  {
    FitBound(space, h);
    if n > 0 {
      assert n * h <= RowsFitting(space, h) * h;
    }
  }

  lemma PastTheBottom(space: int, h: int, fit: nat, take: nat)
    requires h >= 1 && fit == RowsFitting(space, h) && take == if fit > 1 then fit else 1
    ensures take * h + h > space && (fit == 0 ==> take * h > space)
  {
    FitBound(space, h);
    assert take * h + h == (take + 1) * h >= (fit + 1) * h;
  }

  lemma TooTall(line: Line, fit: nat, y: int, maxRows: int, lineH: bool -> int, wrap: WrapFn)
    requires wrap(line.headline, line.text) != []
    requires fit == RowsFitting(maxRows - y, LineHeight(line.headline, lineH))
    requires |wrap(line.headline, line.text)| > fit
    ensures PageFull(line, y, maxRows, lineH, wrap)
  {
    hide Rows, LineHeight, RowsFitting;
    var h := LineHeight(line.headline, lineH);
    TextRows(line, wrap);
    SomeLines(line.headline, wrap(line.headline, line.text));
    FitBound(maxRows - y, h);
    MoreRows(fit + 1, |Rows(line, wrap)|, h);
  }

  lemma MoreRows(a: nat, b: nat, h: int)
    requires a <= b && h >= 1
    ensures a * h <= b * h
  {
  }

  lemma BelowTheBottom(next: Line, y: int, maxRows: int, lineH: bool -> int, wrap: WrapFn)
    requires y > maxRows
    ensures PageFull(next, y, maxRows, lineH, wrap)
  {
    assert |Rows(next, wrap)| * LineHeight(next.headline, lineH) >= 0;
  }

  lemma SomeLines(headline: bool, texts: seq<string>)
    ensures |AsLines(headline, texts)| == |texts|
  {
  }

  lemma FirstLine(headline: bool, texts: seq<string>)
    requires texts != []
    ensures AsLines(headline, texts) != [] && AsLines(headline, texts)[0] == Line(headline, texts[0])
  {
  }

  lemma HeightOfNothing(lineH: bool -> int)
    ensures Height([], lineH) == 0
  {
  }

  lemma EmptyPage(y0: int, maxRows: int, lineH: bool -> int)
    ensures Height([], lineH) == 0 && OnPage([], y0, maxRows, lineH)
  {
  }

  /** A row that ends on the page, is blank or is the first one may be added. */
  lemma RowFits(page: seq<Line>, row: Line, y0: int, maxRows: int, lineH: bool -> int)
    requires OnPage(page, y0, maxRows, lineH)
    requires page == [] || row.text == ""
             || y0 + Height(page, lineH) + LineHeight(row.headline, lineH) <= maxRows
    ensures Height(page + [row], lineH) == Height(page, lineH) + LineHeight(row.headline, lineH)
    ensures OnPage(page + [row], y0, maxRows, lineH)
  {
    var t := page + [row];
    assert t[..|t| - 1] == page;
    forall k | 1 <= k < |t| && t[k].text != "" ensures y0 + Height(t[..k + 1], lineH) <= maxRows {
      if k < |page| {
        assert t[..k + 1] == page[..k + 1] && t[k] == page[k];
      } else {
        assert t[..k + 1] == t;
      }
    }
  }

  // --- The page a queue gives ---------------------------------------------------------

  lemma LaidWhole(page: seq<Line>, lines: seq<Line>, i: nat, y: int, maxRows: int, lineH: bool -> int, wrap: WrapFn)
    requires i < |lines| && TakenWhole(lines[i], y, maxRows, lineH, wrap)
    ensures var rows := Rows(lines[i], wrap);
            Below(page, Laid(lines[i..], i == 0, y, maxRows, lineH, wrap))
            == Below(page + rows,
                     Laid(lines[i + 1..], false, y + |rows| * LineHeight(lines[i].headline, lineH),
                          maxRows, lineH, wrap))
  {
    hide Rows, LineHeight, TakenWhole;
    assert lines[i..][0] == lines[i] && lines[i..][1..] == lines[i + 1..];
  }

  lemma LaidStop(page: seq<Line>, lines: seq<Line>, i: nat, y: int, maxRows: int, lineH: bool -> int, wrap: WrapFn)
    requires 0 < i < |lines| && !TakenWhole(lines[i], y, maxRows, lineH, wrap)
    ensures Below(page, Laid(lines[i..], i == 0, y, maxRows, lineH, wrap)) == Page(page, lines[i..])
  {
    hide TakenWhole;
    assert lines[i..][0] == lines[i] && page + [] == page;
  }

  lemma LaidEnd(page: seq<Line>, lines: seq<Line>, i: nat, y: int, maxRows: int, lineH: bool -> int, wrap: WrapFn)
    requires i == |lines|
    ensures Below(page, Laid(lines[i..], i == 0, y, maxRows, lineH, wrap)) == Page(page, [])
  {
    assert lines[i..] == [] && page + [] == page;
  }

  lemma LaidSplit(lines: seq<Line>, fit: nat, y: int, maxRows: int, lineH: bool -> int, wrap: WrapFn)
    requires lines != [] && !TakenWhole(lines[0], y, maxRows, lineH, wrap)
    requires fit == RowsFitting(maxRows - y, LineHeight(lines[0].headline, lineH))
    ensures var l := lines[0];
            var texts, take := wrap(l.headline, l.text), if fit > 1 then fit else 1;
            && take <= |texts|
            && Laid(lines, true, y, maxRows, lineH, wrap)
               == Page(AsLines(l.headline, texts[..take]), AsLines(l.headline, texts[take..]) + lines[1..])
  {
    hide AsLines;
  }

  lemma {:induction false} HeightAppend(a: seq<Line>, b: seq<Line>, lineH: bool -> int)
    ensures Height(a + b, lineH) == Height(a, lineH) + Height(b, lineH)
  {
    hide LineHeight;
    if b == [] {
      assert a + b == a;
    } else {
      var n := |b| - 1;
      assert (a + b)[..|a + b| - 1] == a + b[..n];
      HeightAppend(a, b[..n], lineH);
    }
  }

  lemma {:induction false} HeightOfAlike(headline: bool, rows: seq<Line>, lineH: bool -> int)
    requires forall i :: 0 <= i < |rows| ==> rows[i].headline == headline
    ensures Height(rows, lineH) == |rows| * LineHeight(headline, lineH)
  {
    hide LineHeight;
    if rows != [] {
      HeightOfAlike(headline, rows[..|rows| - 1], lineH);
    }
  }

  /** The lines before `i` end at this height, counted from the page top. */
  function Bottom(lines: seq<Line>, i: nat, lineH: bool -> int, wrap: WrapFn): int
    requires i <= |lines|
  {
    Height(Flow(lines[..i], wrap), lineH)
  }

  lemma BottomNext(lines: seq<Line>, i: nat, lineH: bool -> int, wrap: WrapFn)
    requires i < |lines|
    ensures Bottom(lines, i + 1, lineH, wrap)
         == Bottom(lines, i, lineH, wrap) + |Rows(lines[i], wrap)| * LineHeight(lines[i].headline, lineH)
  {
    hide LineHeight, Height, Flow;
    var rows := Rows(lines[i], wrap);
    assert lines[..i + 1] == lines[..i] + [lines[i]];
    FlowAppend(lines[..i], [lines[i]], wrap);
    OneLineFlow(lines[i], wrap);
    HeightAppend(Flow(lines[..i], wrap), rows, lineH);
    HeightOfAlike(lines[i].headline, rows, lineH);
  }

  lemma OneLineFlow(l: Line, wrap: WrapFn)
    ensures Flow([l], wrap) == Rows(l, wrap)
  {
    hide Rows;
    assert Flow([], wrap) == [] && [l][1..] == [];
  }

  /** Line `i` has text that reaches below the page bottom. */
  predicate Sticks(lines: seq<Line>, i: nat, y0: int, maxRows: int, lineH: bool -> int, wrap: WrapFn)
    requires i < |lines|
  {
    wrap(lines[i].headline, lines[i].text) != [] && y0 + Bottom(lines, i + 1, lineH, wrap) > maxRows
  }

  lemma SticksIff(lines: seq<Line>, i: nat, y0: int, maxRows: int, lineH: bool -> int, wrap: WrapFn)
    requires i < |lines|
    ensures Sticks(lines, i, y0, maxRows, lineH, wrap)
       <==> !TakenWhole(lines[i], y0 + Bottom(lines, i, lineH, wrap), maxRows, lineH, wrap)
  {
    hide Bottom, LineHeight, RowsFitting;
    var l := lines[i];
    var texts, h := wrap(l.headline, l.text), LineHeight(l.headline, lineH);
    var space := maxRows - y0 - Bottom(lines, i, lineH, wrap);
    BottomNext(lines, i, lineH, wrap);
    if texts != [] {
      TextRows(l, wrap);
      SomeLines(l.headline, texts);
      FitBound(space, h);
      if |texts| <= RowsFitting(space, h) {
        FewerFit(space, h, |texts|);
      } else {
        MoreRows(RowsFitting(space, h) + 1, |texts|, h);
      }
    }
  }

  /** A page takes the whole queue exactly when no line with text sticks out, or
      when a lone line of one row is forced on it. */
  lemma RestIsEmpty(lines: seq<Line>, y0: int, maxRows: int, lineH: bool -> int, wrap: WrapFn)
    ensures RestOf(lines, y0, maxRows, lineH, wrap) == []
       <==> (forall i :: 0 <= i < |lines| ==> !Sticks(lines, i, y0, maxRows, lineH, wrap))
            || (|lines| == 1 && |wrap(lines[0].headline, lines[0].text)| == 1)
  {
    hide Sticks, Laid, Bottom;
    assert lines[0..] == lines;
    TopOfPage(lines, lineH, wrap);
    RestFrom(lines, 0, y0, maxRows, lineH, wrap);
  }

  lemma TopOfPage(lines: seq<Line>, lineH: bool -> int, wrap: WrapFn)
    ensures Bottom(lines, 0, lineH, wrap) == 0
  {
    assert lines[..0] == [];
  }

  lemma {:induction false} RestFrom(lines: seq<Line>, i: nat, y0: int, maxRows: int, lineH: bool -> int, wrap: WrapFn)
    requires i <= |lines|
    ensures Laid(lines[i..], i == 0, y0 + Bottom(lines, i, lineH, wrap), maxRows, lineH, wrap).rest == []
       <==> (forall j :: i <= j < |lines| ==> !Sticks(lines, j, y0, maxRows, lineH, wrap))
            || (i == 0 && |lines| == 1 && |wrap(lines[0].headline, lines[0].text)| == 1)
    decreases |lines| - i
  {
    hide Sticks, Laid, Bottom, LineHeight, TakenWhole, RowsFitting, AsLines, Rows;
    var y := y0 + Bottom(lines, i, lineH, wrap);
    if i == |lines| {
      LaidEnd([], lines, i, y, maxRows, lineH, wrap);
    } else {
      SticksIff(lines, i, y0, maxRows, lineH, wrap);
      if TakenWhole(lines[i], y, maxRows, lineH, wrap) {
        LaidWhole([], lines, i, y, maxRows, lineH, wrap);
        BottomNext(lines, i, lineH, wrap);
        RestFrom(lines, i + 1, y0, maxRows, lineH, wrap);
      } else if i > 0 {
        LaidStop([], lines, i, y, maxRows, lineH, wrap);
      } else {
        ForcedRow(lines, y, maxRows, lineH, wrap);
        assert lines[0..] == lines;
      }
    }
  }

  lemma ForcedRow(lines: seq<Line>, y: int, maxRows: int, lineH: bool -> int, wrap: WrapFn)
    requires lines != [] && !TakenWhole(lines[0], y, maxRows, lineH, wrap)
    ensures Laid(lines, true, y, maxRows, lineH, wrap).rest == []
       <==> |lines| == 1 && |wrap(lines[0].headline, lines[0].text)| == 1
  {
    hide Laid, LineHeight, RowsFitting;
    var l := lines[0];
    var fit := RowsFitting(maxRows - y, LineHeight(l.headline, lineH));
    LaidSplit(lines, fit, y, maxRows, lineH, wrap);
    SomeLines(l.headline, wrap(l.headline, l.text)[if fit > 1 then fit else 1..]);
  }

  // --- The flow of rows -----------------------------------------------------------------

  lemma FlowNext(lines: seq<Line>, i: nat, wrap: WrapFn)
    requires i < |lines|
    ensures Flow(lines[i..], wrap) == Rows(lines[i], wrap) + Flow(lines[i + 1..], wrap)
  {
    hide Rows;
    assert lines[i..][1..] == lines[i + 1..];
  }

  lemma NoFlow(lines: seq<Line>, wrap: WrapFn)
    ensures Flow(lines[|lines|..], wrap) == []
  {
  }

  lemma BlankRow(l: Line, wrap: WrapFn)
    requires wrap(l.headline, l.text) == []
    ensures Rows(l, wrap) == [Line(l.headline, "")]
  {
  }

  lemma TextRows(l: Line, wrap: WrapFn)
    requires wrap(l.headline, l.text) != []
    ensures Rows(l, wrap) == AsLines(l.headline, wrap(l.headline, l.text))
  {
  }

  lemma {:induction false} FlowAppend(a: seq<Line>, b: seq<Line>, wrap: WrapFn)
    ensures Flow(a + b, wrap) == Flow(a, wrap) + Flow(b, wrap)
  {
    hide Flow, Rows;
    if a == [] {
      NoFlow([], wrap);
      assert [] + b == b && [] + Flow(b, wrap) == Flow(b, wrap);
    } else {
      var l, rest := a[0], a[1..];
      FlowAppend(rest, b, wrap);
      assert a == [l] + rest && a + b == [l] + (rest + b);
      FlowCons(l, rest, wrap);
      FlowCons(l, rest + b, wrap);
      assert Rows(l, wrap) + (Flow(rest, wrap) + Flow(b, wrap)) == Rows(l, wrap) + Flow(rest, wrap) + Flow(b, wrap);
    }
  }

  lemma {:induction false} FlowOfRows(headline: bool, texts: seq<string>, wrap: WrapFn)
    requires forall i :: 0 <= i < |texts| ==> Rows(Line(headline, texts[i]), wrap) == [Line(headline, texts[i])]
    ensures Flow(AsLines(headline, texts), wrap) == AsLines(headline, texts)
  {
    hide Rows;
    if texts != [] {
      FlowOfRows(headline, texts[1..], wrap);
      assert AsLines(headline, texts)[1..] == AsLines(headline, texts[1..]);
      assert AsLines(headline, texts) == [Line(headline, texts[0])] + AsLines(headline, texts[1..]);
    }
  }

  lemma FlowCons(line: Line, rest: seq<Line>, wrap: WrapFn)
    ensures Flow([line] + rest, wrap) == Rows(line, wrap) + Flow(rest, wrap)
  {
    hide Rows;
    assert ([line] + rest)[1..] == rest;
  }

  /** Splitting a line into printed and re-queued rows keeps the flow. */
  lemma SplitFlow(line: Line, texts: seq<string>, take: nat, rest: seq<Line>, wrap: WrapFn)
    requires texts == wrap(line.headline, line.text) != [] && take <= |texts|
    ensures Stable(wrap) ==>
              AsLines(line.headline, texts[..take]) + Flow(AsLines(line.headline, texts[take..]) + rest, wrap)
              == Rows(line, wrap) + Flow(rest, wrap)
  {
    hide Rows, Flow, Stable;
    if Stable(wrap) {
      var h, front, back := line.headline, texts[..take], texts[take..];
      StableRows(line, texts, take, wrap);
      TextRows(line, wrap);
      FlowOfRows(h, back, wrap);
      FlowAppend(AsLines(h, back), rest, wrap);
      AsLinesSplit(h, texts, take);
      hide AsLines;
      var f := Flow(rest, wrap);
      assert AsLines(h, front) + (AsLines(h, back) + f) == AsLines(h, front) + AsLines(h, back) + f;
    }
  }

  /** A page and the lines behind it hold all rows of the queue. */
  lemma {:induction false} LaidKeepsFlow(lines: seq<Line>, first: bool, y: int, maxRows: int,
                                         lineH: bool -> int, wrap: WrapFn)
    requires Stable(wrap)
    ensures var page := Laid(lines, first, y, maxRows, lineH, wrap);
            page.rows + Flow(page.rest, wrap) == Flow(lines, wrap)
    decreases |lines|
  {
    hide Rows, Flow, Stable, LineHeight, AsLines, RowsFitting, TakenWhole;
    if lines != [] {
      var l, tail, page := lines[0], lines[1..], Laid(lines, first, y, maxRows, lineH, wrap);
      var texts, fit := wrap(l.headline, l.text), RowsFitting(maxRows - y, LineHeight(l.headline, lineH));
      assert lines == [l] + tail;
      FlowCons(l, tail, wrap);
      if TakenWhole(l, y, maxRows, lineH, wrap) {
        var y' := y + |Rows(l, wrap)| * LineHeight(l.headline, lineH);
        var below := Laid(tail, false, y', maxRows, lineH, wrap);
        LaidKeepsFlow(tail, false, y', maxRows, lineH, wrap);
        assert page == Below(Rows(l, wrap), below);
        assert Rows(l, wrap) + (below.rows + Flow(below.rest, wrap)) == page.rows + Flow(page.rest, wrap);
      } else if first {
        LaidSplit(lines, fit, y, maxRows, lineH, wrap);
        SplitLine(l, y, maxRows, lineH, wrap);
        SplitFlow(l, texts, if fit > 1 then fit else 1, tail, wrap);
      } else {
        assert page.rows + Flow(page.rest, wrap) == Flow(page.rest, wrap);
      }
    } else {
      assert [] + Flow([], wrap) == Flow([], wrap);
    }
  }

  lemma SplitLine(l: Line, y: int, maxRows: int, lineH: bool -> int, wrap: WrapFn)
    requires !TakenWhole(l, y, maxRows, lineH, wrap)
    ensures wrap(l.headline, l.text) != []
  {
  }

  lemma AsLinesSplit(headline: bool, texts: seq<string>, take: nat)
    requires take <= |texts|
    ensures AsLines(headline, texts) == AsLines(headline, texts[..take]) + AsLines(headline, texts[take..])
  {
  }

  lemma StableRow(headline: bool, text: string, k: nat, wrap: WrapFn)
    requires Stable(wrap) && k < |wrap(headline, text)|
    ensures var row := Line(headline, wrap(headline, text)[k]); Rows(row, wrap) == [row]
  {
    hide Rows;
  }

  lemma StableRows(line: Line, texts: seq<string>, take: nat, wrap: WrapFn)
    requires Stable(wrap) && texts == wrap(line.headline, line.text) && take <= |texts|
    ensures forall i :: 0 <= i < |texts[take..]| ==>
              Rows(Line(line.headline, texts[take..][i]), wrap) == [Line(line.headline, texts[take..][i])]
  {
    hide Rows, Stable;
    forall i | 0 <= i < |texts[take..]|
      ensures Rows(Line(line.headline, texts[take..][i]), wrap) == [Line(line.headline, texts[take..][i])]
    {
      var k: nat := take + i;
      StableRow(line.headline, line.text, k, wrap);
      assert texts[take..][i] == wrap(line.headline, line.text)[k];
    }
  }

  /** A split page has no room for the first row left over. */
  lemma LeftoverIsFull(line: Line, texts: seq<string>, take: nat, y: int, maxRows: int,
                       lineH: bool -> int, wrap: WrapFn)
    requires texts == wrap(line.headline, line.text) && take < |texts|
    requires y + LineHeight(line.headline, lineH) > maxRows
    ensures Stable(wrap) ==> PageFull(Line(line.headline, texts[take]), y, maxRows, lineH, wrap)
  {
    hide Rows, Stable;
    if Stable(wrap) {
      StableRow(line.headline, line.text, take, wrap);
    }
  }

  // --- All pages ----------------------------------------------------------------------------

  function Together(pages: seq<seq<Line>>): seq<Line> {
    if pages == [] then [] else Together(pages[..|pages| - 1]) + pages[|pages| - 1]
  }

  /** Printing page after page until the queue is empty prints exactly the rows
      of the text, in order, and no empty page. */
  method PrintAllPages(text: seq<Line>, y0: int, maxRows: int, lineH: bool -> int, wrap: WrapFn)
    returns (pages: seq<seq<Line>>)
    requires Stable(wrap)
    ensures Together(pages) == Flow(text, wrap)
    ensures forall k :: 0 <= k < |pages| ==> pages[k] != [] && OnPage(pages[k], y0, maxRows, lineH)
  {
    hide Flow, Stable, OnPage, Laid, PageFull, Height;
    var queue := new PageQueue(text);
    pages := [];
    assert [] + Flow(text, wrap) == Flow(text, wrap);
    while queue.lines != []
      invariant Together(pages) + Flow(queue.lines, wrap) == Flow(text, wrap)
      invariant forall k :: 0 <= k < |pages| ==> pages[k] != [] && OnPage(pages[k], y0, maxRows, lineH)
      decreases |Flow(queue.lines, wrap)|
    {
      ghost var before := queue.lines;
      var page, y := queue.Paginate(y0, maxRows, lineH, wrap);
      assert (pages + [page])[..|pages|] == pages;
      assert Together(pages + [page]) == Together(pages) + page;
      pages := pages + [page];
    }
    NoFlow([], wrap);
  }

  // --- Wrapping with real fonts ----------------------------------------------------------------

  /** The wrapping a page is composed with: `WrapText` with the font's measure. */
  function FontWrap(measure: bool -> Measure, max: nat): WrapFn {
    (headline, text) => Wrapped(text, max, measure(headline))
  }

  /** It is stable for every font that measures a part of a text no wider than
      the text. */
  lemma {:induction false} FontWrapIsStable(measure: bool -> Measure, max: nat)
    requires forall headline :: Monotone(measure(headline))
    ensures Stable(FontWrap(measure, max))
  {
    var wrap := FontWrap(measure, max);
    forall headline: bool, text: string, i: nat | i < |wrap(headline, text)|
      ensures Rows(Line(headline, wrap(headline, text)[i]), wrap) == [Line(headline, wrap(headline, text)[i])]
    {
      var row := wrap(headline, text)[i];
      WrapIsSafe(text, max, measure(headline));
      if row == "" {
        BlankWrapsToNothing(max, measure(headline));
      } else {
        RewrapIsIdentity(row, max, measure(headline));
      }
    }
  }

  lemma BlankWrapsToNothing(max: nat, m: Measure)
    ensures Wrapped("", max, m) == []
  {
    assert Paragraphs("") == [""] && [""][1..] == [];
    assert WrapAll([""], max, m) == [""] + [] == [""];
  }
}

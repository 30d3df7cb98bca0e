/** Greedy word wrapping, for every way of measuring text. */
module Layout {
  import opened Text

  type Measure = string -> nat

  // --- Splitting text --------------------------------------------------------------

  /** The paragraphs of a text: the parts between newlines. */
  function Paragraphs(s: string): (r: seq<string>)
    ensures r != []
  {
    if s == [] then [""]
    else
      var rest := Paragraphs(s[1..]);
      if s[0] == '\n' then [""] + rest else [[s[0]] + rest[0]] + rest[1..]
  }

  /** Length of the run of non-white characters `s` starts with. */
  function WordLength(s: string): (n: nat)
    ensures n <= |s|
    ensures forall k :: 0 <= k < n ==> !IsWhitespace(s[k])
    ensures n < |s| ==> IsWhitespace(s[n])
  {
    if s == [] || IsWhitespace(s[0]) then 0 else 1 + WordLength(s[1..])
  }

  /** The maximal runs of non-white characters. */
  function Words(s: string): seq<string>
    decreases |s|
  {
    if s == [] then []
    else if IsWhitespace(s[0]) then Words(s[1..])
    else [s[..WordLength(s)]] + Words(s[WordLength(s)..])
  }

  // --- Wrapping ----------------------------------------------------------------------

  function Candidate(line: string, word: string): string {
    if line == "" then word else line + " " + word
  }

  datatype Broken = Broken(full: seq<string>, last: string)

  /** Hard-break `chars` behind an open piece. */
  function Break(piece: string, chars: string, max: nat, m: Measure): Broken
    decreases |chars|
  {
    if chars == [] then Broken([], piece)
    else
      var c := piece + [chars[0]];
      if m(c) <= max || piece == "" then Break(c, chars[1..], max, m)
      else
        var b := Break([chars[0]], chars[1..], max, m);
        Broken([piece] + b.full, b.last)
  }

  /** Lines of the remaining words of a paragraph behind an open line. */
  function Wrap(line: string, words: seq<string>, max: nat, m: Measure): seq<string>
    decreases |words|
  {
    if words == [] then [line]
    else
      var candidate := Candidate(line, words[0]);
      if m(candidate) <= max then Wrap(candidate, words[1..], max, m)
      else
        var b := Break("", words[0], max, m);
        (if line != "" then [line] else []) + b.full + Wrap(b.last, words[1..], max, m)
  }

  function WrapParagraph(p: string, max: nat, m: Measure): seq<string> {
    Wrap("", Words(p), max, m)
  }

  function WrapAll(ps: seq<string>, max: nat, m: Measure): seq<string> {
    if ps == [] then [] else WrapParagraph(ps[0], max, m) + WrapAll(ps[1..], max, m)
  }

  /** Wrapped text; a single empty line counts as nothing. */
  function Wrapped(text: string, max: nat, m: Measure): seq<string> {
    var lines := WrapAll(Paragraphs(text), max, m);
    if lines == [""] then [] else lines
  }

  method WrapText(text: string, max: nat, m: Measure) returns (lines: seq<string>)
    ensures lines == Wrapped(text, max, m)
  {
    hide Wrap, Break, Paragraphs, Words;
    lines := [];
    var ps := Paragraphs(text);
    assert ps[0..] == ps;
    for i := 0 to |ps|
      invariant lines + WrapAll(ps[i..], max, m) == WrapAll(ps, max, m)
    {
      assert ps[i..][0] == ps[i] && ps[i..][1..] == ps[i + 1..];
      var part := WrapWords(Words(ps[i]), max, m);
      lines := lines + part;
    }
    assert ps[|ps|..] == [] && lines + [] == lines;
    if |lines| == 1 && lines[0] == "" {
      lines := [];
    }
  }

  /** The word loop of one paragraph. */
  method WrapWords(words: seq<string>, max: nat, m: Measure) returns (lines: seq<string>)
    ensures lines == Wrap("", words, max, m)
  {
    hide Break, Wrap;
    lines := [];
    var line := "";
    assert words[0..] == words;
    for i := 0 to |words|
      invariant lines + Wrap(line, words[i..], max, m) == Wrap("", words, max, m)
    {
      var word := words[i];
      assert words[i..] == [word] + words[i + 1..];
      WrapNext(line, word, words[i + 1..], max, m);
      var candidate := Candidate(line, word);
      if m(candidate) <= max {
        line := candidate;
        continue;
      }
      if line != "" {
        lines := lines + [line];
      }
      var full, last := BreakWord(word, max, m);
      lines := lines + full;
      line := last;
    }
    assert words[|words|..] == [];
    WrapEnd(line, max, m);
    lines := lines + [line];
  }

  lemma WrapNext(line: string, word: string, rest: seq<string>, max: nat, m: Measure)
    ensures Wrap(line, [word] + rest, max, m)
         == if m(Candidate(line, word)) <= max then Wrap(Candidate(line, word), rest, max, m)
            else (if line != "" then [line] else []) + Break("", word, max, m).full
                 + Wrap(Break("", word, max, m).last, rest, max, m)
  {
    hide Break;
    var words := [word] + rest;
    assert words[0] == word && words[1..] == rest;
  }

  lemma WrapEnd(line: string, max: nat, m: Measure)
    ensures Wrap(line, [], max, m) == [line]
  {
  }

  /** The character loop for a word that is too wide. */
  method BreakWord(word: string, max: nat, m: Measure) returns (full: seq<string>, last: string)
    ensures Broken(full, last) == Break("", word, max, m)
  {
    full := [];
    var piece := "";
    assert word[0..] == word;
    for i := 0 to |word|
      invariant var b := Break(piece, word[i..], max, m);
                Broken(full + b.full, b.last) == Break("", word, max, m)
    {
      assert word[i..][0] == word[i] && word[i..][1..] == word[i + 1..];
      var c := piece + [word[i]];
      if m(c) <= max || piece == "" {
        piece := c;
      } else {
        full := full + [piece];
        piece := [word[i]];
      }
    }
    assert word[|word|..] == [];
    last := piece;
  }

  // --- Lines and words ---------------------------------------------------------------------

  predicate Fits(line: string, max: nat, m: Measure) { m(line) <= max || |line| <= 1 }

  ghost predicate Proper(w: string) { w != "" && forall k :: 0 <= k < |w| ==> !IsWhitespace(w[k]) }

  ghost predicate AllProper(ws: seq<string>) { forall k :: 0 <= k < |ws| ==> Proper(ws[k]) }

  /** Words on one line, a single space between two of them. */
  function Join(ws: seq<string>): string {
    if ws == [] then "" else Candidate(Join(ws[..|ws| - 1]), ws[|ws| - 1])
  }

  function Concat(ss: seq<string>): string {
    if ss == [] then "" else ss[0] + Concat(ss[1..])
  }

  /** `line` is the words `ws` on one line that fits or holds one character. */
  ghost predicate LineOf(line: string, ws: seq<string>, max: nat, m: Measure) {
    ws != [] && AllProper(ws) && line == Join(ws) && Fits(line, max, m)
  }

  ghost predicate GoodLine(line: string, max: nat, m: Measure) {
    exists ws :: LineOf(line, ws, max, m)
  }

  /** A part of a text never measures more than the text. */
  ghost predicate Monotone(m: Measure) {
    forall a: string, s: string, b: string :: m(s) <= m(a + s + b)
  }

  lemma PartIsNarrower(m: Measure, a: string, s: string, b: string, whole: string)
    requires Monotone(m) && whole == a + s + b
    ensures m(s) <= m(whole)
  {
  }

  lemma JoinSnoc(ws: seq<string>, w: string)
    ensures Join(ws + [w]) == Candidate(Join(ws), w)
  {
    assert (ws + [w])[..|ws|] == ws;
  }

  lemma JoinOne(w: string)
    ensures Join([w]) == w
  {
    JoinSnoc([], w);
    assert [] + [w] == [w];
  }

  lemma JoinNotEmpty(ws: seq<string>)
    requires AllProper(ws) && ws != []
    ensures Join(ws) != ""
  {
  }

  lemma {:induction false} ConcatAppend(a: seq<string>, b: seq<string>)
    ensures Concat(a + b) == Concat(a) + Concat(b)
  {
    if a == [] {
      assert a + b == b;
    } else {
      ConcatAppend(a[1..], b);
      assert (a + b)[0] == a[0] && (a + b)[1..] == a[1..] + b;
      assert a[0] + (Concat(a[1..]) + Concat(b)) == a[0] + Concat(a[1..]) + Concat(b);
    }
  }

  lemma {:induction false} StripProper(w: string)
    requires forall k :: 0 <= k < |w| ==> !IsWhitespace(w[k])
    ensures Strip(w) == w
  {
    hide IsWhitespace;
    if w != "" {
      StripProper(w[1..]);
      assert w == [w[0]] + w[1..];
    }
  }

  lemma StripCandidate(line: string, w: string)
    ensures Strip(Candidate(line, w)) == Strip(line) + Strip(w)
  {
    hide Strip;
    SpaceStrips();
    if line != "" {
      StripConcat(line + " ", w);
      StripConcat(line, " ");
    } else {
      assert Strip(line) + Strip(w) == Strip(w);
    }
  }

  lemma SpaceStrips()
    ensures Strip(" ") == "" && Strip("") == ""
  {
  }

  /** Splitting a text into words keeps its non-white characters in order. */
  lemma {:induction false} WordsKeepText(s: string)
    ensures AllProper(Words(s)) && Concat(Words(s)) == Strip(s)
    decreases |s|
  {
    hide IsWhitespace;
    if s != "" && IsWhitespace(s[0]) {
      WordsKeepText(s[1..]);
    } else if s != "" {
      var n := WordLength(s);
      WordsKeepText(s[n..]);
      StripProper(s[..n]);
      StripConcat(s[..n], s[n..]);
      assert s == s[..n] + s[n..];
    }
  }

  // --- Every line fits and no character is lost ------------------------------------------------

  lemma {:induction false} BreakConserves(piece: string, chars: string, max: nat, m: Measure)
    ensures var b := Break(piece, chars, max, m);
            && Concat(b.full) + b.last == piece + chars && (b.last == "" ==> piece + chars == "")
    decreases |chars|
  {
    if chars == [] {
      assert piece + chars == piece;
    } else {
      var c := piece + [chars[0]];
      assert chars == [chars[0]] + chars[1..];
      if m(c) <= max || piece == "" {
        assert piece + chars == c + chars[1..];
        BreakConserves(c, chars[1..], max, m);
      } else {
        BreakConserves([chars[0]], chars[1..], max, m);
        var b := Break([chars[0]], chars[1..], max, m);
        ConcatCons(piece, b.full);
        assert piece + Concat(b.full) + b.last == piece + (Concat(b.full) + b.last);
      }
    }
  }

  lemma ConcatCons(s: string, ss: seq<string>)
    ensures Concat([s] + ss) == s + Concat(ss)
  {
    assert ([s] + ss)[1..] == ss;
  }

  ghost predicate GoodPiece(s: string, max: nat, m: Measure) { Proper(s) && Fits(s, max, m) }

  lemma {:induction false} BreakKeeps(piece: string, chars: string, max: nat, m: Measure)
    requires NoSpace(piece) && NoSpace(chars) && Fits(piece, max, m) && piece + chars != ""
    ensures var b := Break(piece, chars, max, m);
            GoodPiece(b.last, max, m) && forall k :: 0 <= k < |b.full| ==> GoodPiece(b.full[k], max, m)
    decreases |chars|
  {
    hide IsWhitespace;
    if chars != [] {
      var c := piece + [chars[0]];
      if m(c) <= max || piece == "" {
        BreakKeeps(c, chars[1..], max, m);
      } else {
        BreakKeeps([chars[0]], chars[1..], max, m);
      }
    }
  }

  ghost predicate NoSpace(s: string) { forall k :: 0 <= k < |s| ==> !IsWhitespace(s[k]) }

  /** An open line: nothing yet, or a good line. */
  ghost predicate Open(line: string, max: nat, m: Measure) { line == "" || GoodLine(line, max, m) }

  lemma SingleWordLine(w: string, max: nat, m: Measure)
    requires Proper(w) && Fits(w, max, m)
    ensures GoodLine(w, max, m)
  {
    JoinOne(w);
    assert LineOf(w, [w], max, m);
  }

  lemma ExtendedLine(line: string, w: string, max: nat, m: Measure)
    requires Open(line, max, m) && Proper(w) && m(Candidate(line, w)) <= max
    ensures GoodLine(Candidate(line, w), max, m)
  {
    if line == "" {
      SingleWordLine(w, max, m);
    } else {
      var ws :| LineOf(line, ws, max, m);
      JoinSnoc(ws, w);
      assert LineOf(Candidate(line, w), ws + [w], max, m);
    }
  }

  lemma {:induction false} WrapKeeps(line: string, words: seq<string>, max: nat, m: Measure)
    requires Open(line, max, m) && AllProper(words)
    ensures var r := Wrap(line, words, max, m);
            && (forall k :: 0 <= k < |r| ==> Open(r[k], max, m))
            && Strip(Concat(r)) == Strip(line) + Concat(words)
    decreases |words|
  {
    hide IsWhitespace, Proper, GoodLine, Break, Strip;
    if words == [] {
      assert Concat([line]) == line + Concat([]) == line;
      assert Strip(line) + Concat([]) == Strip(line);
    } else {
      var w, rest := words[0], words[1..];
      var candidate := Candidate(line, w);
      StripWord(w);
      if m(candidate) <= max {
        ExtendedLine(line, w, max, m);
        StripCandidate(line, w);
        WrapKeeps(candidate, rest, max, m);
        assert Strip(line) + w + Concat(rest) == Strip(line) + (w + Concat(rest));
      } else {
        BreakLines(w, max, m);
        var b := Break("", w, max, m);
        WrapKeeps(b.last, rest, max, m);
        WrapBrokenText(line, b, w, Wrap(b.last, rest, max, m), rest);
      }
    }
  }

  lemma StripWord(w: string)
    requires Proper(w)
    ensures Strip(w) == w
  {
    StripProper(w);
  }

  lemma BreakLines(w: string, max: nat, m: Measure)
    requires Proper(w)
    ensures var b := Break("", w, max, m);
            && Open(b.last, max, m) && (forall k :: 0 <= k < |b.full| ==> Open(b.full[k], max, m))
            && Concat(b.full) + b.last == w && Strip(b.last) == b.last && Strip(Concat(b.full)) == Concat(b.full)
  {
    hide IsWhitespace, Break;
    assert "" + w == w;
    BreakConserves("", w, max, m);
    BreakKeeps("", w, max, m);
    var b := Break("", w, max, m);
    SingleWordLine(b.last, max, m);
    forall k | 0 <= k < |b.full| ensures Open(b.full[k], max, m) {
      SingleWordLine(b.full[k], max, m);
    }
    StripProper(b.last);
    assert forall k :: 0 <= k < |Concat(b.full)| ==> Concat(b.full)[k] == w[k];
    StripProper(Concat(b.full));
  }

  lemma StripParts(a: seq<string>, b: seq<string>, c: seq<string>)
    ensures Strip(Concat(a + b + c)) == Strip(Concat(a)) + Strip(Concat(b)) + Strip(Concat(c))
  {
    hide Strip, Concat;
    ConcatAppend(a + b, c);
    ConcatAppend(a, b);
    StripConcat(Concat(a) + Concat(b), Concat(c));
    StripConcat(Concat(a), Concat(b));
  }

  lemma HeadText(line: string)
    ensures Concat(if line != "" then [line] else []) == line
  {
    ConcatCons(line, []);
    assert [line] + [] == [line];
  }

  lemma WrapBrokenText(line: string, b: Broken, w: string, tail: seq<string>, rest: seq<string>)
    requires Concat(b.full) + b.last == w && Strip(b.last) == b.last && Strip(Concat(b.full)) == Concat(b.full)
    requires Strip(Concat(tail)) == Strip(b.last) + Concat(rest)
    ensures var head := if line != "" then [line] else [];
            Strip(Concat(head + b.full + tail)) == Strip(line) + (w + Concat(rest))
  {
    hide Strip, Concat;
    HeadText(line);
    StripParts(if line != "" then [line] else [], b.full, tail);
    assert Strip(line) + Concat(b.full) + (b.last + Concat(rest))
        == Strip(line) + (Concat(b.full) + b.last + Concat(rest));
  }

  lemma {:induction false} ParagraphsKeepText(s: string)
    ensures Strip(Concat(Paragraphs(s))) == Strip(s)
  {
    if s != "" {
      ParagraphsKeepText(s[1..]);
      var rest := Paragraphs(s[1..]);
      StripConcat([s[0]], s[1..]);
      assert s == [s[0]] + s[1..];
      if s[0] == '\n' {
        assert Concat([""] + rest) == Concat(rest);
        assert Strip([s[0]]) == "";
      } else {
        assert Concat([[s[0]] + rest[0]] + rest[1..]) == [s[0]] + Concat(rest);
        StripConcat([s[0]], Concat(rest));
      }
    }
  }

  lemma {:induction false} WrapAllKeeps(ps: seq<string>, max: nat, m: Measure)
    ensures var r := WrapAll(ps, max, m);
            && (forall k :: 0 <= k < |r| ==> Open(r[k], max, m))
            && Strip(Concat(r)) == Strip(Concat(ps))
  {
    hide Open, Strip, Wrap, Words;
    if ps != [] {
      var first, rest := WrapParagraph(ps[0], max, m), WrapAll(ps[1..], max, m);
      WordsKeepText(ps[0]);
      EmptyLineIsOpen(max, m);
      WrapKeeps("", Words(ps[0]), max, m);
      WrapAllKeeps(ps[1..], max, m);
      ConcatAppend(first, rest);
      StripConcat(Concat(first), Concat(rest));
      StripConcat(ps[0], Concat(ps[1..]));
    }
  }

  lemma ParagraphsNext(c: char, s: string)
    ensures var rest := Paragraphs(s);
            Paragraphs([c] + s) == if c == '\n' then [""] + rest else [[c] + rest[0]] + rest[1..]
  {
    assert ([c] + s)[1..] == s;
  }

  /** A newline ends a paragraph. */
  lemma {:induction false} ParagraphsSplit(a: string, b: string)
    ensures Paragraphs(a + "\n" + b) == Paragraphs(a) + Paragraphs(b)
  {
    hide Paragraphs;
    if a == "" {
      assert "" + "\n" + b == ['\n'] + b;
      ParagraphsNext('\n', b);
      NoParagraph();
    } else {
      var c, tail := a[0], a[1..];
      ParagraphsSplit(tail, b);
      assert a == [c] + tail && a + "\n" + b == [c] + (tail + "\n" + b);
      ParagraphsNext(c, tail);
      ParagraphsNext(c, tail + "\n" + b);
      var p, q := Paragraphs(tail), Paragraphs(b);
      FirstOfMany(p, q);
      ConsAppend("", p, q);
      ConsAppend([c] + p[0], p[1..], q);
    }
  }

  lemma FirstOfMany<T>(p: seq<T>, q: seq<T>)
    requires p != []
    ensures (p + q)[0] == p[0] && (p + q)[1..] == p[1..] + q
  {
  }

  lemma ConsAppend<T>(x: T, p: seq<T>, q: seq<T>)
    ensures [x] + (p + q) == [x] + p + q
  {
  }

  lemma NoParagraph()
    ensures Paragraphs("") == [""]
  {
  }

  lemma {:induction false} WrapAllAppend(a: seq<string>, b: seq<string>, max: nat, m: Measure)
    ensures WrapAll(a + b, max, m) == WrapAll(a, max, m) + WrapAll(b, max, m)
  {
    hide WrapAll, WrapParagraph;
    if a == [] {
      NoParagraphs(max, m);
      assert [] + b == b && [] + WrapAll(b, max, m) == WrapAll(b, max, m);
    } else {
      var p, rest := a[0], a[1..];
      WrapAllAppend(rest, b, max, m);
      assert a == [p] + rest && a + b == [p] + (rest + b);
      WrapAllCons(p, rest, max, m);
      WrapAllCons(p, rest + b, max, m);
      assert WrapParagraph(p, max, m) + (WrapAll(rest, max, m) + WrapAll(b, max, m))
          == WrapParagraph(p, max, m) + WrapAll(rest, max, m) + WrapAll(b, max, m);
    }
  }

  lemma WrapAllCons(p: string, ps: seq<string>, max: nat, m: Measure)
    ensures WrapAll([p] + ps, max, m) == WrapParagraph(p, max, m) + WrapAll(ps, max, m)
  {
    hide WrapParagraph;
    assert ([p] + ps)[1..] == ps;
  }

  lemma NoParagraphs(max: nat, m: Measure)
    ensures WrapAll([], max, m) == []
  {
  }

  /** Lines of a text, with one empty line for a blank one. */
  function LinesOf(text: string, max: nat, m: Measure): seq<string> {
    if Wrapped(text, max, m) == [] then [""] else Wrapped(text, max, m)
  }

  lemma {:induction false} WrapAllIsLines(text: string, max: nat, m: Measure)
    ensures WrapAll(Paragraphs(text), max, m) == LinesOf(text, max, m)
  {
    hide Wrap, Paragraphs;
    var ps := Paragraphs(text);
    WrapNotEmpty("", Words(ps[0]), max, m);
    assert WrapAll(ps, max, m) == WrapParagraph(ps[0], max, m) + WrapAll(ps[1..], max, m);
  }

  lemma {:induction false} WrapNotEmpty(line: string, words: seq<string>, max: nat, m: Measure)
    ensures Wrap(line, words, max, m) != []
    decreases |words|
  {
    if words != [] {
      WrapNotEmpty(Candidate(line, words[0]), words[1..], max, m);
      WrapNotEmpty(Break("", words[0], max, m).last, words[1..], max, m);
    }
  }

  /** A newline breaks the line: the lines before it are followed by those after
      it, and a blank part keeps one empty line. */
  lemma {:induction false} NewlineBreaks(a: string, b: string, max: nat, m: Measure)
    ensures Wrapped(a + "\n" + b, max, m) == LinesOf(a, max, m) + LinesOf(b, max, m)
  {
    hide Paragraphs, WrapAll;
    ParagraphsSplit(a, b);
    WrapAllAppend(Paragraphs(a), Paragraphs(b), max, m);
    WrapAllIsLines(a, max, m);
    WrapAllIsLines(b, max, m);
  }

  /** White space separates words. */
  lemma {:induction false} WordsSplit(a: string, c: char, b: string)
    requires IsWhitespace(c)
    ensures Words(a + [c] + b) == Words(a) + Words(b)
    decreases |a|
  {
    hide IsWhitespace;
    var s := a + [c] + b;
    if a == "" {
      assert s[0] == c && s[1..] == b;
      WordsWhite(s);
      NoWords();
      assert [] + Words(b) == Words(b);
    } else if IsWhitespace(a[0]) {
      assert s[0] == a[0] && s[1..] == a[1..] + [c] + b;
      WordsWhite(s);
      WordsWhite(a);
      WordsSplit(a[1..], c, b);
    } else {
      assert s[0] == a[0] && s == a + ([c] + b);
      WordsBlack(s);
      WordsBlack(a);
      WordLengthPrefix(a, [c] + b);
      var n := WordLength(a);
      assert s[..n] == a[..n] && s[n..] == a[n..] + [c] + b;
      WordsSplit(a[n..], c, b);
    }
  }

  // --- Lines are closed as late as possible ---------------------------------------------

  /** A piece of a broken word is closed only where its next character is too much. */
  lemma {:induction false} BreakFills(piece: string, chars: string, max: nat, m: Measure)
    requires piece + chars != ""
    ensures var b := Break(piece, chars, max, m);
            var all := b.full + [b.last];
            && (forall k :: 0 <= k < |all| ==> all[k] != "")
            && (forall k :: 0 <= k < |b.full| ==> m(all[k] + [all[k + 1][0]]) > max)
            && all[0][0] == (piece + chars)[0]
    decreases |chars|
  {
    if chars != "" {
      var c := piece + [chars[0]];
      if m(c) <= max || piece == "" {
        BreakFills(c, chars[1..], max, m);
      } else {
        var b := Break([chars[0]], chars[1..], max, m);
        BreakFills([chars[0]], chars[1..], max, m);
        var rest := b.full + [b.last];
        assert [piece] + b.full + [b.last] == [piece] + rest;
        assert rest[0][0] == chars[0];
      }
    }
  }

  /** Line `b` after line `a` is due: its first word, or the next character of a
      broken word, does not fit behind `a`. */
  ghost predicate Due(a: string, b: string, words: seq<string>, max: nat, m: Measure) {
    b != "" && (m(a + [b[0]]) > max
                || exists w :: w in words && w != "" && w[0] == b[0] && m(Candidate(a, w)) > max)
  }

  ghost predicate AllDue(lines: seq<string>, words: seq<string>, max: nat, m: Measure) {
    forall k :: 0 <= k < |lines| - 1 ==> Due(lines[k], lines[k + 1], words, max, m)
  }

  lemma MoreWordsDue(lines: seq<string>, words: seq<string>, more: seq<string>, max: nat, m: Measure)
    requires AllDue(lines, words, max, m) && forall w :: w in words ==> w in more
    ensures AllDue(lines, more, max, m)
  {
    forall k | 0 <= k < |lines| - 1 ensures Due(lines[k], lines[k + 1], more, max, m) {
      assert Due(lines[k], lines[k + 1], words, max, m);
    }
  }

  lemma DueCons(a: string, lines: seq<string>, words: seq<string>, max: nat, m: Measure)
    requires AllDue(lines, words, max, m) && lines != [] && Due(a, lines[0], words, max, m)
    ensures AllDue([a] + lines, words, max, m)
  {
    hide Due;
    var all := [a] + lines;
    forall k | 0 <= k < |all| - 1 ensures Due(all[k], all[k + 1], words, max, m) {
      if k > 0 {
        assert all[k] == lines[k - 1] && all[k + 1] == lines[k];
      }
    }
  }

  /** The pieces of a broken word in front of further lines. */
  lemma {:induction false} PiecesDue(full: seq<string>, last: string, lines: seq<string>, words: seq<string>,
                                     max: nat, m: Measure)
    requires lines != [] && lines[0] != "" && last != "" && lines[0][0] == last[0] && AllDue(lines, words, max, m)
    requires var all := full + [last];
             && (forall k :: 0 <= k < |all| ==> all[k] != "")
             && forall k :: 0 <= k < |full| ==> m(all[k] + [all[k + 1][0]]) > max
    ensures AllDue(full + lines, words, max, m)
    ensures (full + lines)[0] != "" && (full + lines)[0][0] == (full + [last])[0][0]
  {
    hide AllDue;
    if full == [] {
      assert [] + lines == lines;
    } else {
      var all, tail := full + [last], full[1..];
      assert tail + [last] == all[1..];
      forall k | 0 <= k < |tail| ensures m((tail + [last])[k] + [(tail + [last])[k + 1][0]]) > max {
        assert all[k + 1] == (tail + [last])[k] && all[k + 2] == (tail + [last])[k + 1];
      }
      PiecesDue(tail, last, lines, words, max, m);
      var rest := tail + lines;
      assert full + lines == [full[0]] + rest;
      assert all[0] == full[0] && all[1] == (tail + [last])[0];
      DueCons(full[0], rest, words, max, m);
    }
  }

  /** Every line but the first of a paragraph is due. */
  lemma {:induction false} WrapIsGreedy(line: string, words: seq<string>, max: nat, m: Measure)
    requires AllProper(words)
    ensures var r := Wrap(line, words, max, m);
            && r != [] && AllDue(r, words, max, m)
            && (line != "" ==> r[0] != "" && r[0][0] == line[0])
            && (line == "" && words != [] ==> r[0] != "" && r[0][0] == words[0][0])
    decreases |words|
  {
    hide AllDue, Due, Break;
    if words == [] {
      OneLineDue(line, words, max, m);
    } else {
      var w, rest := words[0], words[1..];
      var c := Candidate(line, w);
      assert words == [w] + rest && AllProper(rest);
      if m(c) <= max {
        WrapIsGreedy(c, rest, max, m);
        MoreWordsDue(Wrap(c, rest, max, m), rest, words, max, m);
      } else {
        var b := Break("", w, max, m);
        var lines := Wrap(b.last, rest, max, m);
        BreakFills("", w, max, m);
        assert (b.full + [b.last])[|b.full|] == b.last;
        WrapIsGreedy(b.last, rest, max, m);
        MoreWordsDue(lines, rest, words, max, m);
        PiecesDue(b.full, b.last, lines, words, max, m);
        var below := b.full + lines;
        if line != "" {
          TooWideIsDue(line, below[0], w, words, max, m);
          DueCons(line, below, words, max, m);
          assert [line] + b.full + lines == [line] + below;
        } else {
          assert [] + b.full + lines == below;
        }
      }
    }
  }

  lemma OneLineDue(line: string, words: seq<string>, max: nat, m: Measure)
    ensures AllDue([line], words, max, m)
  {
  }

  lemma TooWideIsDue(a: string, b: string, w: string, words: seq<string>, max: nat, m: Measure)
    requires w in words && w != "" && b != "" && b[0] == w[0] && m(Candidate(a, w)) > max
    ensures Due(a, b, words, max, m)
  {
  }

  lemma EmptyLineIsOpen(max: nat, m: Measure)
    ensures Open("", max, m) && Strip("") == "" && forall s: string :: "" + s == s
  {
  }

  /** Every output line fits the limit or is a single character, and the
      non-white characters of the text come out in order, none lost or added. */
  lemma WrapIsSafe(text: string, max: nat, m: Measure)
    ensures var r := Wrapped(text, max, m);
            && (forall k :: 0 <= k < |r| ==> Fits(r[k], max, m) && (r[k] == "" || GoodLine(r[k], max, m)))
            && Strip(Concat(r)) == Strip(text)
  {
    hide Strip, WrapAll, Paragraphs;
    var r := WrapAll(Paragraphs(text), max, m);
    WrapAllKeeps(Paragraphs(text), max, m);
    ParagraphsKeepText(text);
    assert Concat([""]) == "" + Concat([]) == Concat([]);
  }

  // --- Wrapping again changes nothing ------------------------------------------------------------

  lemma {:induction false} WordsAppend(s: string, w: string)
    requires Proper(w)
    ensures Words(s + " " + w) == Words(s) + [w]
    decreases |s|
  {
    hide Words, WordLength, IsWhitespace;
    var t := s + " " + w;
    if s == "" {
      WordOfProper(w);
      SpaceIsWhite();
      WordsWhite(t);
      NoWords();
      assert t[1..] == w;
    } else if IsWhitespace(s[0]) {
      WordsAppend(s[1..], w);
      WordsWhite(t);
      WordsWhite(s);
      assert t[1..] == s[1..] + " " + w;
    } else {
      SpaceIsWhite();
      WordLengthPrefix(s, " " + w);
      assert t == s + (" " + w);
      var n := WordLength(s);
      WordsBlack(s);
      WordsBlack(t);
      WordsAppend(s[n..], w);
      assert t[..n] == s[..n] && t[n..] == s[n..] + " " + w;
      assert [s[..n]] + (Words(s[n..]) + [w]) == [s[..n]] + Words(s[n..]) + [w];
    }
  }

  lemma SpaceIsWhite()
    ensures IsWhitespace(' ') && IsWhitespace('\n')
  {
  }

  lemma NoWords()
    ensures Words("") == []
  {
  }

  lemma WordsWhite(s: string)
    requires s != "" && IsWhitespace(s[0])
    ensures Words(s) == Words(s[1..])
  {
  }

  lemma WordsBlack(s: string)
    requires s != "" && !IsWhitespace(s[0])
    ensures WordLength(s) > 0 && Words(s) == [s[..WordLength(s)]] + Words(s[WordLength(s)..])
  {
    hide IsWhitespace;
  }

  lemma WordOfProper(w: string)
    requires Proper(w)
    ensures Words(w) == [w]
  {
    assert WordLength(w) == |w|;
    assert w[..|w|] == w && w[|w|..] == "";
  }

  lemma {:induction false} WordLengthPrefix(s: string, tail: string)
    requires tail != "" && IsWhitespace(tail[0])
    ensures WordLength(s + tail) == WordLength(s)
  {
    hide IsWhitespace;
    if s == "" {
      assert s + tail == tail;
    } else if !IsWhitespace(s[0]) {
      WordLengthPrefix(s[1..], tail);
      assert (s + tail)[1..] == s[1..] + tail;
    }
  }

  lemma {:induction false} WordsOfLine(ws: seq<string>)
    requires AllProper(ws)
    ensures Words(Join(ws)) == ws
    ensures '\n' !in Join(ws)
  {
    if ws != [] {
      var init, w := ws[..|ws| - 1], ws[|ws| - 1];
      WordsOfLine(init);
      assert ws == init + [w];
      assert '\n' !in w by { assert IsWhitespace('\n'); }
      if init == [] {
        WordOfProper(w);
      } else {
        JoinNotEmpty(init);
        WordsAppend(Join(init), w);
      }
    }
  }

  lemma {:induction false} OneParagraph(s: string)
    requires '\n' !in s
    ensures Paragraphs(s) == [s]
  {
    if s != "" {
      OneParagraph(s[1..]);
      assert s == [s[0]] + s[1..];
    }
  }

  /** The first words of a line are a part of it. */
  lemma {:induction false} JoinPrefix(ws: seq<string>, k: nat)
    requires k <= |ws| && AllProper(ws)
    ensures Join(ws[..k]) <= Join(ws)
    decreases |ws| - k
  {
    if k < |ws| {
      JoinPrefix(ws, k + 1);
      assert ws[..k + 1] == ws[..k] + [ws[k]];
      JoinSnoc(ws[..k], ws[k]);
    } else {
      assert ws[..k] == ws;
    }
  }

  lemma PrefixFits(ws: seq<string>, k: nat, max: nat, m: Measure)
    requires k <= |ws| && AllProper(ws) && Monotone(m) && m(Join(ws)) <= max
    ensures m(Join(ws[..k])) <= max
  {
    JoinPrefix(ws, k);
    var tail := Join(ws)[|Join(ws[..k])|..];
    PartIsNarrower(m, "", Join(ws[..k]), tail, Join(ws));
  }

  /** Words that fit on one line are taken up without a break. */
  lemma {:induction false} WrapConsumes(ws: seq<string>, k: nat, rest: seq<string>, max: nat, m: Measure)
    requires k <= |ws| && AllProper(ws) && Monotone(m) && m(Join(ws)) <= max
    ensures Wrap(Join(ws[..k]), ws[k..] + rest, max, m) == Wrap(Join(ws), rest, max, m)
    decreases |ws| - k
  {
    hide Join, Monotone, Proper, Break, Wrap;
    if k < |ws| {
      WrapConsumes(ws, k + 1, rest, max, m);
      PrefixFits(ws, k + 1, max, m);
      JoinSnoc(ws[..k], ws[k]);
      assert ws[..k + 1] == ws[..k] + [ws[k]];
      assert ws[k..] + rest == [ws[k]] + (ws[k + 1..] + rest);
      WrapNext(Join(ws[..k]), ws[k], ws[k + 1..] + rest, max, m);
    } else {
      assert ws[..k] == ws && ws[k..] + rest == rest;
    }
  }

  /** Wrapping a good line again returns just that line. */
  lemma RewrapIsIdentity(line: string, max: nat, m: Measure)
    requires GoodLine(line, max, m) && Monotone(m)
    ensures Wrapped(line, max, m) == [line] && line != ""
  {
    var ws :| LineOf(line, ws, max, m);
    WordsOfLine(ws);
    OneParagraph(line);
    JoinNotEmpty(ws);
    assert WrapAll([line], max, m) == WrapParagraph(line, max, m) + [] by { assert [line][1..] == []; }
    if m(line) <= max {
      WrapConsumes(ws, 0, [], max, m);
      assert ws[..0] == [] && ws[0..] + [] == ws;
    } else {
      SingleCharacterLine(line, ws, max, m);
    }
  }

  lemma {:induction false} JoinLength(ws: seq<string>)
    requires AllProper(ws)
    ensures |Join(ws)| >= 2 * |ws| - 1
  {
    hide IsWhitespace;
    if |ws| > 1 {
      JoinLength(ws[..|ws| - 1]);
      JoinNotEmpty(ws[..|ws| - 1]);
    } else if |ws| == 1 {
      JoinOne(ws[0]);
      assert ws == [ws[0]];
    }
  }

  lemma SingleCharacterLine(line: string, ws: seq<string>, max: nat, m: Measure)
    requires LineOf(line, ws, max, m) && m(line) > max
    ensures Wrap("", ws, max, m) == [line]
  {
    JoinLength(ws);
    assert |ws| == 1;
    JoinOne(ws[0]);
    assert ws == [ws[0]] && ws[..0] == [] && ws[0] == line;
    assert line == [line[0]] && line[1..] == "" && "" + [line[0]] == line;
    assert Break("", line, max, m) == Broken([], line);
    assert ws[1..] == [];
  }

  // --- Greedy wrapping is optimal ------------------------------------------------------------------

  /** Every word fits on a line of its own. */
  ghost predicate WordsFit(words: seq<string>, max: nat, m: Measure) {
    forall k :: 0 <= k < |words| ==> m(words[k]) <= max
  }

  /** The words, in order, on lines that fit. */
  ghost predicate Partition(parts: seq<seq<string>>, words: seq<string>, max: nat, m: Measure) {
    && parts != [] && Together(parts) == words
    && forall k :: 0 <= k < |parts| ==> m(Join(parts[k])) <= max
  }

  function Together(parts: seq<seq<string>>): seq<string> {
    if parts == [] then [] else parts[0] + Together(parts[1..])
  }

  function JoinAll(parts: seq<seq<string>>): seq<string> {
    seq(|parts|, i requires 0 <= i < |parts| => Join(parts[i]))
  }

  lemma {:induction false} BreakOfFitting(piece: string, chars: string, max: nat, m: Measure)
    requires Monotone(m) && m(piece + chars) <= max
    ensures Break(piece, chars, max, m) == Broken([], piece + chars)
    decreases |chars|
  {
    if chars == [] {
      assert piece + chars == piece;
    } else {
      var c := piece + [chars[0]];
      assert piece + chars == c + chars[1..];
      PartIsNarrower(m, "", c, chars[1..], piece + chars);
      BreakOfFitting(c, chars[1..], max, m);
    }
  }

  /** A word that does not fit behind a line opens the next one. */
  lemma NextLine(g: seq<string>, words: seq<string>, max: nat, m: Measure)
    requires words != [] && Monotone(m) && AllProper(g) && AllProper(words) && WordsFit(words, max, m)
    ensures var w := words[0];
            && (m(Join(g + [w])) <= max ==>
                  Wrap(Join(g), words, max, m) == Wrap(Join(g + [w]), words[1..], max, m))
            && (m(Join(g + [w])) > max ==>
                  (g != [] && Wrap(Join(g), words, max, m) == [Join(g)] + Wrap(Join([w]), words[1..], max, m)))
  {
    var w := words[0];
    JoinSnoc(g, w);
    JoinOne(w);
    if m(Join(g + [w])) > max {
      assert "" + w == w;
      BreakOfFitting("", w, max, m);
      assert g == [] ==> g + [w] == [w];
      if g != [] {
        JoinNotEmpty(g);
        assert [Join(g)] + [] + Wrap(w, words[1..], max, m) == [Join(g)] + Wrap(w, words[1..], max, m);
      }
    }
  }

  lemma {:induction false} JoinSuffix(g: seq<string>, i: nat)
    requires i <= |g| && AllProper(g)
    ensures exists a :: Join(g) == a + Join(g[i..])
  {
    if i == |g| {
      assert g[i..] == [] && Join(g) == Join(g) + Join(g[i..]);
    } else {
      var n := |g| - 1;
      JoinSuffix(g[..n], i);
      var a :| Join(g[..n]) == a + Join(g[..n][i..]);
      assert g[i..][..n - i] == g[..n][i..];
      if i == n {
        assert g[i..] == [g[n]];
        JoinOne(g[n]);
        if n == 0 {
          assert Join(g) == "" + Join(g[i..]);
        } else {
          JoinNotEmpty(g[..n]);
          assert Join(g) == (Join(g[..n]) + " ") + Join(g[i..]);
        }
      } else {
        JoinNotEmpty(g[..n]);
        JoinNotEmpty(g[..n][i..]);
        assert Join(g) == a + Join(g[..n][i..]) + " " + g[n];
        assert Join(g) == a + Join(g[i..]);
      }
    }
  }

  lemma SuffixFits(g: seq<string>, i: nat, max: nat, m: Measure)
    requires i <= |g| && AllProper(g) && Monotone(m) && m(Join(g)) <= max
    ensures m(Join(g[i..])) <= max
  {
    JoinSuffix(g, i);
    var a :| Join(g) == a + Join(g[i..]);
    assert Join(g) == a + Join(g[i..]) + "";
    PartIsNarrower(m, a, Join(g[i..]), "", Join(g));
  }

  /** A shorter open line needs no more lines, and at most one fewer. */
  lemma {:induction false} OpenLineCost(g: seq<string>, i: nat, words: seq<string>, max: nat, m: Measure)
    requires i <= |g| && Monotone(m) && AllProper(g) && AllProper(words) && WordsFit(words, max, m)
    ensures var long, short := Wrap(Join(g), words, max, m), Wrap(Join(g[i..]), words, max, m);
            |short| <= |long| <= |short| + 1
    decreases |words|
  {
    if words != [] {
      hide Join, Wrap, Proper;
      var w, h := words[0], g[i..];
      NextLine(g, words, max, m);
      NextLine(h, words, max, m);
      assert AllProper(g + [w]) && AllProper(h + [w]) && AllProper([w]);
      assert (g + [w])[i..] == h + [w];
      if m(Join(g + [w])) <= max {
        SuffixFits(g + [w], i, max, m);
        OpenLineCost(g + [w], i, words[1..], max, m);
      } else if m(Join(h + [w])) <= max {
        assert (h + [w])[|h|..] == [w];
        OpenLineCost(h + [w], |h|, words[1..], max, m);
      }
    } else {
      assert |Wrap(Join(g), [], max, m)| == 1 && |Wrap(Join(g[i..]), [], max, m)| == 1;
    }
  }

  /** No way of putting the words in order on lines that fit uses fewer lines. */
  lemma {:induction false} FewestLines(parts: seq<seq<string>>, words: seq<string>, max: nat, m: Measure)
    requires Monotone(m) && AllProper(words) && WordsFit(words, max, m) && Partition(parts, words, max, m)
    ensures |Wrap("", words, max, m)| <= |parts|
    decreases |parts|
  {
    hide Proper;
    var first, rest := parts[0], Together(parts[1..]);
    assert words == first + rest;
    assert forall k :: 0 <= k < |first| ==> words[k] == first[k];
    assert forall k :: 0 <= k < |rest| ==> words[|first| + k] == rest[k];
    WrapConsumes(first, 0, rest, max, m);
    assert first[..0] == [] && first[0..] == first && Join([]) == "";
    if |parts| == 1 {
      assert rest == [];
    } else {
      FewestLines(parts[1..], rest, max, m);
      OpenLineCost(first, |first|, rest, max, m);
      assert first[|first|..] == [];
    }
  }

  /** The word groups of greedy wrapping. */
  function Groups(g: seq<string>, words: seq<string>, max: nat, m: Measure): seq<seq<string>>
    decreases |words|
  {
    if words == [] then [g]
    else if m(Join(g + [words[0]])) <= max then Groups(g + [words[0]], words[1..], max, m)
    else [g] + Groups([words[0]], words[1..], max, m)
  }

  lemma {:induction false} GroupsArePartition(g: seq<string>, words: seq<string>, max: nat, m: Measure)
    requires Monotone(m) && AllProper(g) && AllProper(words) && WordsFit(words, max, m) && m(Join(g)) <= max
    ensures Partition(Groups(g, words, max, m), g + words, max, m)
    ensures Wrap(Join(g), words, max, m) == JoinAll(Groups(g, words, max, m))
    decreases |words|
  {
    hide Join, Proper;
    if words == [] {
      assert g + words == g && Together([g]) == g + [] == g;
    } else {
      var w, rest := words[0], words[1..];
      NextLine(g, words, max, m);
      JoinOne(w);
      assert words == [w] + rest && AllProper(g + [w]) && AllProper([w]);
      if m(Join(g + [w])) <= max {
        GroupsArePartition(g + [w], rest, max, m);
        assert g + words == g + [w] + rest;
      } else {
        GroupsArePartition([w], rest, max, m);
        var tail := Groups([w], rest, max, m);
        assert ([g] + tail)[1..] == tail;
        assert JoinAll([g] + tail) == [Join(g)] + JoinAll(tail);
      }
    }
  }

  /** For a paragraph whose words each fit alone, wrapping breaks no word and
      uses the fewest lines of any in-order arrangement that fits. */
  lemma {:induction false} GreedyIsOptimal(p: string, max: nat, m: Measure)
    requires Monotone(m) && Words(p) != [] && WordsFit(Words(p), max, m)
    ensures var lines := WrapParagraph(p, max, m);
            && (exists parts :: Partition(parts, Words(p), max, m) && lines == JoinAll(parts))
            && (forall parts :: Partition(parts, Words(p), max, m) ==> |lines| <= |parts|)
  {
    var words := Words(p);
    WordsKeepText(p);
    assert m("") <= m("" + "" + words[0]) == m(words[0]) by { assert "" + "" + words[0] == words[0]; }
    assert Join([]) == "" && [] + words == words;
    GroupsArePartition([], words, max, m);
    forall parts | Partition(parts, words, max, m) ensures |Wrap("", words, max, m)| <= |parts| {
      FewestLines(parts, words, max, m);
    }
  }
}

/** Where the motions put the caret, said in characters of the text and of the display: line starts and
    ends, the columns of the lines above and below, and the steps left and right. */
module LineLaws {
  import opened Wrappers
  import opened Projections
  import opened ProjectionLaws
  import opened Drafts
  import opened DraftLaws
  import opened Motions
  import opened Editors
  import opened EditorLaws
  import opened EditorText

  // ---- tokens are single lines ------------------------------------------

  lemma {:induction false} DecimalIsInline(n: nat)
    ensures '\n' !in Decimal(n)
    decreases n
  {
    if n >= 10 {
      DecimalIsInline(n / 10);
    }
  }

  lemma LabelIsInline(p: Paste, number: nat)
    ensures '\n' !in p.Label(number)
  {
    DecimalIsInline(number);
    DecimalIsInline(p.lines);
    DecimalIsInline(p.chars);
    hide Decimal;
  }

  ghost predicate Inline(text: string, lo: nat, hi: nat) {
    lo <= hi <= |text| && forall j | lo <= j < hi :: text[j] != '\n'
  }

  lemma InlineMiddle(before: string, middle: string, after: string, n: nat)
    requires '\n' !in middle && n <= |middle|
    ensures Inline(before + middle + after, |before|, |before| + n)
  {
    forall j | |before| <= j < |before| + n
      ensures (before + middle + after)[j] != '\n'
    {
      assert (before + middle + after)[j] == middle[j - |before|];
    }
  }

  lemma InlineBehind(before: string, after: string, lo: nat, hi: nat)
    requires Inline(after, lo, hi)
    ensures Inline(before + after, |before| + lo, |before| + hi)
  {
  }

  /** A chip starts at `raw`, and its token reaches past the display offset `x`. */
  ghost predicate Covers(pastes: seq<Paste>, i: nat, at: nat, shown: nat, raw: nat, x: nat)
    requires i <= |pastes|
  {
    exists k :: i <= k < |pastes| && pastes[k].start == raw && x < DisplayFrom(pastes, i, at, shown, pastes[k].end)
  }

  /** Around an offset inside a token there is no line end down to the token's start, which is where the
      buffer offset, the chip's start, is shown. */
  ghost predicate SnapsInline(text: string, pastes: seq<Paste>, i: nat, at: nat, shown: nat, x: nat)
    requires i <= |pastes| && at <= |text| && Fit(pastes, |text|) && Ordered(pastes, i, at)
  {
    var raw := RawFrom(pastes, i, at, shown, x);
    var s := DisplayFrom(pastes, i, at, shown, raw);
    && shown <= s < x && Inline(TextFrom(text, pastes, i, at), s - shown, x - shown + 1)
    && Covers(pastes, i, at, shown, raw, x)
  }

  lemma FirstTokenIsInline(text: string, pastes: seq<Paste>, i: nat, at: nat, shown: nat, x: nat)
    requires i < |pastes| && at <= |text| && Fit(pastes, |text|) && Ordered(pastes, i, at)
    requires shown + (pastes[i].start - at) < x < shown + (pastes[i].start - at) + |pastes[i].Label(i + 1)|
    ensures SnapsInline(text, pastes, i, at, shown, x)
  {
    var head, chip := pastes[i].start - at, pastes[i].Label(i + 1);
    LabelIsInline(pastes[i], i + 1);
    hide Paste.Label;
    assert RawFrom(pastes, i, at, shown, x) == pastes[i].start;
    TokenFrom(pastes, i, at, shown, i);
    InlineMiddle(text[at..pastes[i].start], chip, TextFrom(text, pastes, i + 1, pastes[i].end), x - shown - head + 1);
  }

  lemma {:induction false} TokenIsInline(text: string, pastes: seq<Paste>, i: nat, at: nat, shown: nat, x: nat)
    requires i <= |pastes| && at <= |text| && Fit(pastes, |text|) && Ordered(pastes, i, at)
    requires InToken(pastes, i, at, shown, x)
    ensures SnapsInline(text, pastes, i, at, shown, x)
    decreases |pastes| - i
  {
    hide Paste.Label;
    var next := shown + (pastes[i].start - at) + |pastes[i].Label(i + 1)|;
    if x <= next {
      NotInLaterToken(pastes, i + 1, pastes[i].end, next, x);
      FirstTokenIsInline(text, pastes, i, at, shown, x);
    } else {
      TokenIsInline(text, pastes, i + 1, pastes[i].end, next, x);
      LaterTokenIsInline(text, pastes, i, at, shown, x);
    }
  }

  lemma LaterTokenIsInline(text: string, pastes: seq<Paste>, i: nat, at: nat, shown: nat, x: nat)
    requires i < |pastes| && at <= |text| && Fit(pastes, |text|) && Ordered(pastes, i, at)
    requires var next := shown + (pastes[i].start - at) + |pastes[i].Label(i + 1)|;
             && next < x && InToken(pastes, i + 1, pastes[i].end, next, x)
             && SnapsInline(text, pastes, i + 1, pastes[i].end, next, x)
    ensures SnapsInline(text, pastes, i, at, shown, x)
  {
    hide Paste.Label;
    var chip := pastes[i].Label(i + 1);
    var next := shown + (pastes[i].start - at) + |chip|;
    var raw := RawFrom(pastes, i + 1, pastes[i].end, next, x);
    var s := DisplayFrom(pastes, i + 1, pastes[i].end, next, raw);
    RawOfRestIsPast(pastes, i + 1, pastes[i].end, next, x);
    var rest := TextFrom(text, pastes, i + 1, pastes[i].end);
    InlineBehind(text[at..pastes[i].start] + chip, rest, s - next, x - next + 1);
    var k :| i < k < |pastes| && pastes[k].start == raw
             && x < DisplayFrom(pastes, i + 1, pastes[i].end, next, pastes[k].end);
    assert DisplayFrom(pastes, i, at, shown, pastes[k].end)
           == DisplayFrom(pastes, i + 1, pastes[i].end, next, pastes[k].end);
  }

  lemma RawOfRestIsPast(pastes: seq<Paste>, i: nat, at: nat, shown: nat, x: nat)
    requires i <= |pastes| && Ordered(pastes, i, at) && InToken(pastes, i, at, shown, x) && shown <= x
    ensures at <= RawFrom(pastes, i, at, shown, x)
  {
    DisplayOfRawFrom(pastes, i, at, shown, x);
  }

  // ---- landing ----------------------------------------------------------

  /** Where a display offset puts the caret: there, or at the start of the chip whose token holds it. */
  ghost predicate LandsAt(d: Draft, x: nat, at: nat)
    requires Fit(d.pastes, |d.text|)
  {
    var display, y := Shown(d.text, d.pastes), Display(d.pastes, at);
    && 0 <= y <= x <= |display|
    && (y < x ==>
          Inline(display, y, x + 1) && exists p :: p in d.pastes && p.start == at && x < Display(d.pastes, p.end))
  }

  lemma LandingIs(d: Draft, x: nat)
    requires Drafts.Valid(d) && x <= |Shown(d.text, d.pastes)|
    ensures LandsAt(d, x, Landing(d, x))
  {
    var raw := Raw(d.pastes, x);
    DisplayUndoesRaw(d.pastes, x);
    RawUndoesDisplay(d.pastes, raw);
    if InToken(d.pastes, 0, 0, 0, x) {
      TokenIsInline(d.text, d.pastes, 0, 0, 0, x);
      var k :| 0 <= k < |d.pastes| && d.pastes[k].start == raw && x < DisplayFrom(d.pastes, 0, 0, 0, d.pastes[k].end);
      assert d.pastes[k] in d.pastes;
    }
  }

  // ---- lines ------------------------------------------------------------

  /** `x` starts the line of `c`. */
  ghost predicate StartsLine(display: string, x: nat, c: nat) {
    Inline(display, x, c) && (x == 0 || display[x - 1] == '\n')
  }

  /** `x` ends the line of `c`. */
  ghost predicate EndsLine(display: string, c: nat, x: nat) {
    Inline(display, c, x) && (x == |display| || display[x] == '\n')
  }

  lemma {:induction false} NoNewlinesIff(text: string)
    ensures Newlines(text) == 0 <==> Inline(text, 0, |text|)
  {
    if text != [] {
      NoNewlinesIff(text[..|text| - 1]);
    }
  }

  lemma SameLine(display: string, x: nat, c: nat)
    requires x <= c <= |display| && Newlines(display[..x]) == Newlines(display[..c])
    ensures Inline(display, x, c)
  {
    NewlinesSplit(display[..c], x);
    Slices(display, x, c);
    assert display[..c][x..] == display[x..c];
    NoNewlinesIff(display[x..c]);
    forall j | x <= j < c
      ensures display[j] != '\n'
    {
      assert display[x..c][j - x] == display[j];
    }
  }

  lemma FirstLineEnd(display: string)
    requires Newlines(display) > 0
    ensures var next := Find(display, '\n') + 1;
            next <= |display| && Newlines(display[..next]) == 1 && Newlines(display) == 1 + Newlines(display[next..])
  {
    var at := Find(display, '\n');
    assert at == |display| ==> Newlines(display) == 0 by {
      if at == |display| {
        NoNewlines(display);
      }
    }
    NewlinesSplit(display, at + 1);
    assert display[..at + 1][..at] == display[..at];
    NoNewlines(display[..at]);
  }

  lemma CountSplit(display: string, next: nat, x: nat)
    requires next <= x <= |display|
    ensures Newlines(display[..x]) == Newlines(display[..next]) + Newlines(display[next..][..x - next])
  {
    NewlinesSplit(display[..x], next);
    Slices(display, next, x);
  }

  lemma StepOffset(display: string, next: nat, y: nat, line: nat)
    requires 0 < next <= |display| && display[next - 1] == '\n' && Newlines(display[..next]) == 1
    requires 0 < line && y <= |display[next..]| && Newlines(display[next..][..y]) == line - 1
    requires y == 0 || display[next..][y - 1] == '\n'
    ensures Newlines(display[..next + y]) == line && display[next + y - 1] == '\n'
  {
    hide Newlines;
    CountSplit(display, next, next + y);
    assert y > 0 ==> display[next..][y - 1] == display[next + y - 1];
  }

  lemma {:induction false} LineOffsetIs(display: string, line: nat)
    requires line <= Newlines(display)
    ensures var x := LineOffset(display, line);
            x <= |display| && Newlines(display[..x]) == line && (x == 0 || display[x - 1] == '\n')
    decreases line
  {
    hide Newlines;
    hide Find;
    if line != 0 {
      FirstLineEnd(display);
      var next := Find(display, '\n') + 1;
      LineOffsetIs(display[next..], line - 1);
      StepOffset(display, next, LineOffset(display[next..], line - 1), line);
    } else {
      NoNewlines(display[..0]);
    }
  }

  /** The caret's own line starts where its line number says. */
  lemma OwnLine(d: Draft)
    requires Drafts.Valid(d)
    ensures var display := Shown(d.text, d.pastes);
            && CursorOffset(d) == Display(d.pastes, d.cursor) <= |display|
            && CursorLine(d) <= Newlines(display) && LineOffset(display, CursorLine(d)) <= |display|
            && StartsLine(display, LineOffset(display, CursorLine(d)), CursorOffset(d))
            && Newlines(display[..CursorOffset(d)]) == CursorLine(d)
  {
    var display := Shown(d.text, d.pastes);
    LinesExist(d, CursorLine(d));
    LineOffsetIs(display, CursorLine(d));
    SameLine(display, LineOffset(display, CursorLine(d)), CursorOffset(d));
  }

  /** Line starts and line ends are no insides of tokens, so the caret goes right there. */
  lemma LandsExactly(d: Draft, x: nat)
    requires Drafts.Valid(d) && x <= |Shown(d.text, d.pastes)|
    requires var display := Shown(d.text, d.pastes);
             x == 0 || display[x - 1] == '\n' || x == |display| || display[x] == '\n'
    ensures Display(d.pastes, Landing(d, x)) == x
  {
    hide Landing;
    hide Projections.Shown;
    hide Display;
    LandingIs(d, x);
  }

  /** Home leads to the start of the caret's line. */
  lemma HomeIs(d: Draft)
    requires Drafts.Valid(d)
    ensures var home, c := Display(d.pastes, LineStart(d, CursorLine(d))), Display(d.pastes, d.cursor);
            0 <= home <= c <= |Shown(d.text, d.pastes)| && StartsLine(Shown(d.text, d.pastes), home, c)
  {
    hide Landing;
    hide Projections.Shown;
    hide Display;
    hide CursorLine;
    OwnLine(d);
    LandsExactly(d, LineOffset(Shown(d.text, d.pastes), CursorLine(d)));
  }

  /** End leads to its end. */
  lemma EndIs(d: Draft)
    requires Drafts.Valid(d)
    ensures var end, c := Display(d.pastes, LineEnd(d, CursorLine(d))), Display(d.pastes, d.cursor);
            0 <= c <= end <= |Shown(d.text, d.pastes)| && EndsLine(Shown(d.text, d.pastes), c, end)
  {
    hide Landing;
    hide Projections.Shown;
    hide Display;
    hide CursorLine;
    hide CursorOffset;
    hide Newlines;
    hide LineOffset;
    OwnLine(d);
    var display := Shown(d.text, d.pastes);
    var x := LineOffset(display, CursorLine(d));
    FindIsLineEnd(display, x, CursorOffset(d));
    LandsExactly(d, x + Find(display[x..], '\n'));
  }

  lemma FindIsLineEnd(display: string, x: nat, c: nat)
    requires Inline(display, x, c)
    ensures var end := x + Find(display[x..], '\n');
            c <= end <= |display| && Inline(display, x, end) && EndsLine(display, c, end)
  {
    var n := Find(display[x..], '\n');
    forall j | x <= j < x + n
      ensures display[j] != '\n'
    {
      assert display[x..][j - x] == display[j];
    }
    assert x + n < |display| ==> display[x..][n] == display[x + n];
  }

  // ---- columns ----------------------------------------------------------

  /** `y` is as far into the line `[a..e)` as `column` cells go. */
  ghost predicate FitsTo(display: string, a: nat, e: nat, y: nat, column: nat, cells: char -> nat) {
    && a <= y <= e <= |display|
    && Width(display[a..y], cells) <= column
    && (y == e || Width(display[a..y + 1], cells) > column)
  }

  lemma {:induction false} WidthCons(text: string, cells: char -> nat)
    requires text != []
    ensures Width(text, cells) == cells(text[0]) + Width(text[1..], cells)
  {
    if |text| > 1 {
      WidthCons(text[..|text| - 1], cells);
      assert text[..|text| - 1][1..] == text[1..][..|text| - 2];
    }
  }

  lemma WidthFrom(row: string, at: nat, r: nat, cells: char -> nat)
    requires at < r <= |row|
    ensures Width(row[at..r], cells) == cells(row[at]) + Width(row[at + 1..r], cells)
  {
    WidthCons(row[at..r], cells);
    assert row[at..r][1..] == row[at + 1..r];
  }

  lemma {:induction false} FittingIs(row: string, at: nat, used: nat, column: nat, cells: char -> nat)
    requires at <= |row| && used <= column
    ensures var r := Fitting(row, at, used, column, cells);
            && used + Width(row[at..r], cells) <= column
            && (r == |row| || used + Width(row[at..r + 1], cells) > column)
    decreases |row| - at
  {
    var r := Fitting(row, at, used, column, cells);
    if at == |row| || used + cells(row[at]) > column {
      assert row[at..at] == [];
      if at < |row| {
        WidthFrom(row, at, at + 1, cells);
        assert row[at + 1..at + 1] == [];
      }
    } else {
      FittingIs(row, at + 1, used + cells(row[at]), column, cells);
      WidthFrom(row, at, r, cells);
      if r < |row| {
        WidthFrom(row, at, r + 1, cells);
      }
    }
  }

  lemma FitsInLine(display: string, a: nat, n: nat, column: nat, cells: char -> nat)
    requires a + n <= |display|
    ensures FitsTo(display, a, a + n, a + Fitting(display[a..][..n], 0, 0, column, cells), column, cells)
  {
    var row := display[a..][..n];
    var r := Fitting(row, 0, 0, column, cells);
    FittingIs(row, 0, 0, column, cells);
    assert row[0..r] == display[a..a + r];
    if r < n {
      assert row[0..r + 1] == display[a..a + r + 1];
    }
  }

  /** Where a column of a line leads. */
  lemma ColumnIs(d: Draft, line: nat, column: nat, cells: char -> nat) returns (y: nat)
    requires Drafts.Valid(d) && line <= Newlines(Shown(d.text, d.pastes))
    ensures var display := Shown(d.text, d.pastes);
            var a := LineOffset(display, line);
            && a <= |display|
            && FitsTo(display, a, a + Find(display[a..], '\n'), y, column, cells)
            && LandsAt(d, y, OffsetAtColumn(d, line, column, cells))
  {
    hide Landing;
    hide LandsAt;
    hide Projections.Shown;
    hide Fitting;
    hide FitsTo;
    hide Newlines;
    hide LineOffset;
    var display := Shown(d.text, d.pastes);
    LineOffsetIs(display, line);
    var a := LineOffset(display, line);
    var n := Find(display[a..], '\n');
    FitsInLine(display, a, n, column, cells);
    y := a + Fitting(display[a..][..n], 0, 0, column, cells);
    LandingIs(d, y);
  }

  /** The column that is kept while moving up and down. */
  function Wanted(e: Editor, display: string, b: nat, c: nat, cells: char -> nat): nat
    requires b <= c <= |display|
  {
    if e.column.Some? then e.column.value else Width(display[b..c], cells)
  }

  /** Up leads into the line above, as far as the kept column goes, and nowhere from the first line. */
  ghost predicate GoesUp(e: Editor, at: nat, b: nat, a: nat, y: nat, cells: char -> nat)
    requires Drafts.Valid(e.draft)
  {
    var display, c := Shown(e.draft.text, e.draft.pastes), Display(e.draft.pastes, e.draft.cursor);
    && 0 <= c <= |display| && StartsLine(display, b, c)
    && (b == 0 ==> at == e.draft.cursor)
    && (b > 0 ==> && StartsLine(display, a, b - 1)
                  && FitsTo(display, a, b - 1, y, Wanted(e, display, b, c, cells), cells)
                  && LandsAt(e.draft, y, at))
  }

  /** Down leads into the line below, and nowhere from the last line. */
  ghost predicate GoesDown(e: Editor, at: nat, b: nat, f: nat, g: nat, y: nat, cells: char -> nat)
    requires Drafts.Valid(e.draft)
  {
    var display, c := Shown(e.draft.text, e.draft.pastes), Display(e.draft.pastes, e.draft.cursor);
    && 0 <= c <= |display| && StartsLine(display, b, c) && EndsLine(display, c, f)
    && (f == |display| ==> at == e.draft.cursor)
    && (f < |display| ==> && EndsLine(display, f + 1, g)
                          && FitsTo(display, f + 1, g, y, Wanted(e, display, b, c, cells), cells)
                          && LandsAt(e.draft, y, at))
  }

  lemma FewerBefore(display: string, a: nat, b: nat)
    requires a <= |display| && b <= |display| && Newlines(display[..a]) < Newlines(display[..b])
    ensures a < b
  {
    if b <= a {
      CountSplit(display, b, a);
    }
  }

  lemma BeforeLineEnd(display: string, b: nat)
    requires 0 < b <= |display| && display[b - 1] == '\n'
    ensures Newlines(display[..b]) == Newlines(display[..b - 1]) + 1
  {
    assert display[..b][..b - 1] == display[..b - 1];
  }

  lemma LineAbove(display: string, line: nat)
    requires 0 < line <= Newlines(display)
    ensures var a, b := LineOffset(display, line - 1), LineOffset(display, line);
            a < b <= |display| && StartsLine(display, a, b - 1) && a + Find(display[a..], '\n') == b - 1
  {
    hide LineOffset;
    hide Newlines;
    LineOffsetIs(display, line - 1);
    LineOffsetIs(display, line);
    var a, b := LineOffset(display, line - 1), LineOffset(display, line);
    FewerBefore(display, a, b);
    BeforeLineEnd(display, b);
    SameLine(display, a, b - 1);
    FindAt(display, a, b - 1);
  }

  lemma FindAt(display: string, a: nat, at: nat)
    requires at < |display| && Inline(display, a, at) && display[at] == '\n'
    ensures a + Find(display[a..], '\n') == at
  {
    var n := Find(display[a..], '\n');
    assert display[a..][at - a] == '\n';
    assert n < |display[a..]| ==> display[a..][n] == display[a + n];
  }

  lemma UpIs(e: Editor, cells: char -> nat) returns (b: nat, a: nat, y: nat)
    requires ValidEditor(e)
    ensures GoesUp(e, e.MoveUp(cells).draft.cursor, b, a, y, cells)
  {
    hide LandsAt;
    hide FitsTo;
    hide StartsLine;
    hide Projections.Shown;
    hide OffsetAtColumn;
    hide LineOffset;
    hide Display;
    hide Newlines;
    var d := e.draft;
    var display, line := Shown(d.text, d.pastes), CursorLine(d);
    OwnLine(d);
    b, a, y := LineOffset(display, line), 0, 0;
    FirstOffset(display);
    WantedIs(e, cells);
    if line != 0 {
      LineAbove(display, line);
      a := LineOffset(display, line - 1);
      y := ColumnIs(d, line - 1, Wanted(e, display, b, CursorOffset(d), cells), cells);
    }
  }

  lemma FirstOffset(display: string)
    ensures LineOffset(display, 0) == 0
  {
  }

  /** The kept column is the caret's own where none was kept. */
  lemma WantedIs(e: Editor, cells: char -> nat)
    requires ValidEditor(e)
    ensures var display := Shown(e.draft.text, e.draft.pastes);
            var b, c := LineOffset(display, CursorLine(e.draft)), CursorOffset(e.draft);
            && b <= c <= |display|
            && Wanted(e, display, b, c, cells)
               == if e.column.Some? then e.column.value else CursorColumn(e.draft, cells)
  {
    OwnLine(e.draft);
    hide Projections.Shown;
    hide LineOffset;
    hide Width;
    hide Display;
    hide Newlines;
  }

  lemma LastLine(display: string, c: nat)
    requires c <= |display| && Newlines(display[..c]) >= Newlines(display)
    ensures EndsLine(display, c, |display|)
  {
    NewlinesSplit(display, c);
    assert display[..|display|] == display;
    SameLine(display, c, |display|);
  }

  lemma LineBelow(display: string, c: nat, line: nat)
    requires c <= |display| && Newlines(display[..c]) == line < Newlines(display)
    requires StartsLine(display, LineOffset(display, line), c)
    ensures var next := LineOffset(display, line + 1);
            0 < next <= |display| && c < next && EndsLine(display, c, next - 1)
            && EndsLine(display, next, next + Find(display[next..], '\n'))
  {
    hide LineOffset;
    LineOffsetIs(display, line + 1);
    var next := LineOffset(display, line + 1);
    FewerBefore(display, c, next);
    BeforeLineEnd(display, next);
    hide Newlines;
    SameLine(display, c, next - 1);
    FindIsLineEnd(display, next, next);
  }

  lemma DownIs(e: Editor, cells: char -> nat) returns (b: nat, f: nat, g: nat, y: nat)
    requires ValidEditor(e)
    ensures GoesDown(e, e.MoveDown(cells).draft.cursor, b, f, g, y, cells)
  {
    hide LandsAt;
    hide FitsTo;
    hide StartsLine;
    hide EndsLine;
    hide Projections.Shown;
    hide OffsetAtColumn;
    hide LineOffset;
    hide CursorLine;
    hide CursorColumn;
    hide Display;
    hide Newlines;
    var d := e.draft;
    var display, line := Shown(d.text, d.pastes), CursorLine(d);
    OwnLine(d);
    WantedIs(e, cells);
    b := LineOffset(display, line);
    if line >= Newlines(display) {
      LastLine(display, CursorOffset(d));
      f, g, y := |display|, 0, 0;
    } else {
      LineBelow(display, CursorOffset(d), line);
      var next := LineOffset(display, line + 1);
      f, g := next - 1, next + Find(display[next..], '\n');
      assert f + 1 == next;
      y := ColumnIs(d, line + 1, Wanted(e, display, b, CursorOffset(d), cells), cells);
    }
  }

  // ---- the motions of the editor ----------------------------------------

  /** Left and right: to the end of the selection on that side, or over one chip or one character. */
  lemma StepsAre(e: Editor, cells: char -> nat)
    requires ValidEditor(e)
    ensures e.CanMove()
    ensures var d := e.draft; var at := e.Move(Left, cells).draft.cursor;
            if From(d) < To(d) then at == From(d)
            else if Ends(d.pastes, d.cursor) then exists p :: p in d.pastes && p.end == d.cursor && p.start == at
            else at == if d.cursor == 0 then 0 else d.cursor - 1
    ensures var d := e.draft; var at := e.Move(Right, cells).draft.cursor;
            if From(d) < To(d) then at == To(d)
            else if Starts(d.pastes, d.cursor) then exists p :: p in d.pastes && p.start == d.cursor && p.end == at
            else at == if d.cursor == |d.text| then |d.text| else d.cursor + 1
  {
    MovableAlways(e);
    FindEndIs(e.draft.pastes, e.draft.cursor);
    FindStartIs(e.draft.pastes, e.draft.cursor);
  }

  /** Home and end lead to the ends of the displayed line. */
  lemma EndsAre(e: Editor, cells: char -> nat)
    requires ValidEditor(e)
    ensures e.CanMove()
    ensures var d := e.draft; var display, c := Shown(d.text, d.pastes), Display(d.pastes, d.cursor);
            var home := Display(d.pastes, e.Move(Home, cells).draft.cursor);
            var end := Display(d.pastes, e.Move(End, cells).draft.cursor);
            0 <= home <= c <= end <= |display| && StartsLine(display, home, c) && EndsLine(display, c, end)
  {
    hide LineStart;
    hide LineEnd;
    hide CursorLine;
    hide Projections.Shown;
    hide Display;
    hide StartsLine;
    hide EndsLine;
    MovableAlways(e);
    HomeIs(e.draft);
    EndIs(e.draft);
  }

  /** The word motions lead past the blanks and one word or chip. */
  lemma WordsAre(e: Editor, cells: char -> nat) returns (at: nat, m: nat)
    requires ValidEditor(e)
    ensures e.CanMove()
    ensures StartsLastWord(e.draft, at, m, e.Move(WordLeft, cells).draft.cursor)
    ensures PassesWord(e.draft, PastWord(e.draft), e.Move(WordRight, cells).draft.cursor)
  {
    hide StartsLastWord;
    hide PassesWord;
    MovableAlways(e);
    at, m := WordLeftIs(e.draft);
    WordRightIs(e.draft);
  }

  lemma HomeIsBefore(d: Draft)
    requires Drafts.Valid(d)
    ensures LineStart(d, CursorLine(d)) <= d.cursor
  {
    hide LineStart;
    hide CursorLine;
    hide Display;
    HomeIs(d);
    DisplayAscends(d.pastes, d.cursor, LineStart(d, CursorLine(d)));
  }

  /** Deleting to a line's start or end takes exactly what lies between it and the caret. */
  lemma LineDeletesCut(e: Editor)
    requires ValidEditor(e) && From(e.draft) == To(e.draft)
    ensures CutsAround(e.draft, e.DeleteToLineStart().draft, LineStart(e.draft, CursorLine(e.draft)), e.draft.cursor)
    ensures CutsAround(e.draft, e.DeleteToLineEnd().draft, e.draft.cursor, LineEnd(e.draft, CursorLine(e.draft)))
  {
    hide Editor.DeleteRange;
    hide CutsAround;
    hide Trim;
    hide LineStart;
    hide LineEnd;
    hide CursorLine;
    CloseGestureKeeps(e);
    HomeIsBefore(e.draft);
    DeleteRangeCutsAround(e.Commit(), LineStart(e.draft, CursorLine(e.draft)), e.draft.cursor);
    DeleteRangeCutsAround(e.Commit(), e.draft.cursor, LineEnd(e.draft, CursorLine(e.draft)));
  }
}

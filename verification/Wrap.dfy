/**
 Word wrapping over graphemes with additive widths. Rows are ranges of one logical line; the white
 space a break lands on is left out between rows or trimmed from the end of the last one.
 */
module Wraps {
  import opened Wrappers

  datatype Grapheme = Grapheme(glyph: string, cells: nat, blank: bool)

  type Line = seq<Grapheme>

  /** A range of graphemes. */
  datatype Row = Row(start: nat, end: nat)

  /** A word with the white space before it. */
  datatype Unit = Unit(gap: Row, word: Row)

  predicate Within(line: Line, r: Row) {
    r.start <= r.end <= |line|
  }

  /** Display width. */
  function Cells(s: Line): nat {
    if s == [] then 0 else Cells(s[..|s| - 1]) + s[|s| - 1].cells
  }

  function Width(line: Line, r: Row): nat
    requires Within(line, r)
  {
    Cells(line[r.start..r.end])
  }

  /** The graphemes that are not white space. */
  function Visible(s: Line): Line {
    if s == [] then []
    else Visible(s[..|s| - 1]) + (if s[|s| - 1].blank then [] else [s[|s| - 1]])
  }

  /** What a range of graphemes shows, white space aside. */
  function ShownBy(line: Line, r: Row): Line
    requires Within(line, r)
  {
    Visible(line[r.start..r.end])
  }

  predicate AllWithin(line: Line, rows: seq<Row>) {
    forall i | 0 <= i < |rows| :: Within(line, rows[i])
  }

  /** What the rows show, top to bottom. */
  function Shown(line: Line, rows: seq<Row>): Line
    requires AllWithin(line, rows)
  {
    if rows == [] then []
    else Shown(line, rows[..|rows| - 1]) + ShownBy(line, rows[|rows| - 1])
  }

  predicate AllBlank(line: Line, r: Row)
    requires Within(line, r)
  {
    forall i | r.start <= i < r.end :: line[i].blank
  }

  predicate NoneBlank(line: Line, r: Row)
    requires Within(line, r)
  {
    forall i | r.start <= i < r.end :: !line[i].blank
  }

  /** No visible grapheme is wider than a whole row. */
  predicate Narrow(line: Line, limit: nat) {
    forall g | g in line && !g.blank :: g.cells <= limit
  }

  /** Every visible grapheme takes up room. */
  predicate Solid(line: Line) {
    forall g | g in line && !g.blank :: g.cells >= 1
  }

  /** Every white space takes up room. */
  predicate Spaced(line: Line) {
    forall g | g in line && g.blank :: g.cells >= 1
  }

  // ---- sums ------------------------------------------------------------

  lemma {:induction false} CellsConcat(a: Line, b: Line)
    ensures Cells(a + b) == Cells(a) + Cells(b)
  {
    if b == [] {
      assert a + b == a;
    } else {
      CellsConcat(a, b[..|b| - 1]);
      assert (a + b)[..|a + b| - 1] == a + b[..|b| - 1];
    }
  }

  lemma CellsSplit(line: Line, a: nat, b: nat, c: nat)
    requires a <= b <= c <= |line|
    ensures Cells(line[a..c]) == Cells(line[a..b]) + Cells(line[b..c])
  {
    CellsConcat(line[a..b], line[b..c]);
    assert line[a..b] + line[b..c] == line[a..c];
  }

  lemma CellsOne(line: Line, a: nat, b: nat)
    requires a <= b < |line|
    ensures Cells(line[a..b + 1]) == Cells(line[a..b]) + line[b].cells
  {
    assert line[a..b + 1][..b - a] == line[a..b];
  }

  lemma {:induction false} VisibleConcat(a: Line, b: Line)
    ensures Visible(a + b) == Visible(a) + Visible(b)
  {
    if b == [] {
      assert a + b == a;
    } else {
      VisibleConcat(a, b[..|b| - 1]);
      assert (a + b)[..|a + b| - 1] == a + b[..|b| - 1];
    }
  }

  lemma VisibleSplit(line: Line, a: nat, b: nat, c: nat)
    requires a <= b <= c <= |line|
    ensures Visible(line[a..c]) == Visible(line[a..b]) + Visible(line[b..c])
  {
    VisibleConcat(line[a..b], line[b..c]);
    assert line[a..b] + line[b..c] == line[a..c];
  }

  lemma {:induction false} BlankShowsNothing(s: Line)
    requires forall g | g in s :: g.blank
    ensures Visible(s) == []
  {
    if s != [] {
      BlankShowsNothing(s[..|s| - 1]);
    }
  }

  lemma {:induction false} WordsShow(s: Line)
    requires forall g | g in s :: !g.blank
    ensures Visible(s) == s
  {
    if s != [] {
      WordsShow(s[..|s| - 1]);
      assert s == s[..|s| - 1] + [s[|s| - 1]];
    }
  }

  lemma {:induction false} AtLeastOneCell(s: Line)
    requires forall g | g in s :: g.cells >= 1
    ensures Cells(s) >= |s|
  {
    if s != [] {
      AtLeastOneCell(s[..|s| - 1]);
    }
  }

  // ---- cell-sized chunks ----------------------------------------------

  /** A chunk that ended because the next grapheme does not fit. */
  predicate Full(line: Line, r: Row, limit: nat) {
    r.start < r.end < |line| && Width(line, r) + line[r.end].cells > limit
  }

  predicate Fits(line: Line, r: Row, limit: nat) {
    Within(line, r) && Width(line, r) <= limit
  }

  /** Consecutive full chunks from 0 to `end`. */
  predicate Chunked(line: Line, rows: seq<Row>, limit: nat, end: nat) {
    if rows == [] then end == 0
    else
      var last := rows[|rows| - 1];
      last.end == end && Full(line, last, limit) && Chunked(line, rows[..|rows| - 1], limit, last.start)
  }

  predicate AllFit(line: Line, rows: seq<Row>, limit: nat) {
    forall i | 0 <= i < |rows| :: Fits(line, rows[i], limit)
  }

  predicate EachFits(line: Line, limit: nat) {
    forall g | g in line :: g.cells <= limit
  }

  lemma ChunkPushed(line: Line, rows: seq<Row>, limit: nat, start: nat, end: nat)
    requires Chunked(line, rows, limit, start) && Full(line, Row(start, end), limit)
    ensures Chunked(line, rows + [Row(start, end)], limit, end)
  {
    assert (rows + [Row(start, end)])[..|rows|] == rows;
  }

  lemma FitPushed(line: Line, rows: seq<Row>, limit: nat, row: Row)
    requires AllFit(line, rows, limit) && Fits(line, row, limit)
    ensures AllFit(line, rows + [row], limit)
  {
  }

  /** Consecutive chunks up to the end of a word, all but the last full. */
  predicate Chunks(text: Line, chunks: seq<Row>, limit: nat) {
    && chunks != []
    && Chunked(text, chunks[..|chunks| - 1], limit, chunks[|chunks| - 1].start)
    && chunks[|chunks| - 1].start < chunks[|chunks| - 1].end == |text|
  }

  function ChunkStart(chunks: seq<Row>, k: nat): nat
    requires k <= |chunks|
  {
    if k == 0 then 0 else chunks[k - 1].end
  }

  /** Splits a line into chunks as full as the limit allows, ignoring word boundaries. */
  method CharBreaks(line: Line, cellLimit: nat) returns (out: seq<Row>)
    ensures if line == [] then out == [Row(0, 0)] else Chunks(line, out, Max(cellLimit, 1))
    ensures EachFits(line, Max(cellLimit, 1)) ==> AllFit(line, out, Max(cellLimit, 1))
  {
    var limit := Max(cellLimit, 1);
    out := [];
    var start := 0;
    var col := 0;
    ghost var narrow := EachFits(line, limit);
    for offset := 0 to |line|
      invariant start <= offset && (start == offset ==> offset == 0)
      invariant col == Cells(line[start..offset])
      invariant narrow ==> col <= limit
      invariant Chunked(line, out, limit, start)
      invariant narrow ==> AllFit(line, out, limit)
    {
      var cells := line[offset].cells;
      if start < offset && col + cells > limit {
        ChunkPushed(line, out, limit, start, offset);
        if narrow {
          FitPushed(line, out, limit, Row(start, offset));
        }
        out := out + [Row(start, offset)];
        start := offset;
        col := 0;
      }
      CellsOne(line, start, offset);
      col := col + cells;
    }
    if narrow {
      FitPushed(line, out, limit, Row(start, |line|));
    }
    ghost var full := out;
    out := out + [Row(start, |line|)];
    assert out[..|out| - 1] == full;
  }

  // ---- words -----------------------------------------------------------

  /** The first visible grapheme from `from` on. */
  function NextWord(line: Line, from: nat): (i: nat)
    requires from <= |line|
    ensures from <= i <= |line|
    ensures AllBlank(line, Row(from, i)) && (i < |line| ==> !line[i].blank)
    decreases |line| - from
  {
    if from == |line| || !line[from].blank then from else NextWord(line, from + 1)
  }

  /** The first white space from `from` on. */
  function WordEnd(line: Line, from: nat): (i: nat)
    requires from <= |line|
    ensures from <= i <= |line|
    ensures NoneBlank(line, Row(from, i)) && (i < |line| ==> line[i].blank)
    decreases |line| - from
  {
    if from == |line| || line[from].blank then from else WordEnd(line, from + 1)
  }

  predicate WellFormed(line: Line, u: Unit) {
    && Within(line, u.gap) && Within(line, u.word) && u.word.start < u.word.end
    && AllBlank(line, u.gap) && NoneBlank(line, u.word)
  }

  /** Past the white space after `before`. */
  predicate PastGap(before: Row, u: Unit) {
    before.end == u.gap.start < u.gap.end == u.word.start
  }

  /** The rest of a word too wide for a row, of which `before` already holds as much as fits. */
  predicate CarriesOn(line: Line, limit: nat, before: Row, u: Unit)
    requires WellFormed(line, u)
  {
    && before.end == u.word.start && u.gap.start == u.gap.end
    && Within(line, before) && Width(line, before) + Width(line, u.word) > limit
  }

  /** `u` comes next after the word `before`, or first. */
  predicate Follows(line: Line, limit: nat, before: Option<Row>, u: Unit) {
    && WellFormed(line, u)
    && (before.None? ==> u.gap == Row(0, u.word.start))
    && (before.Some? ==> PastGap(before.value, u) || CarriesOn(line, limit, before.value, u))
  }

  function WordBefore(units: seq<Unit>, i: nat): Option<Row>
    requires i <= |units|
  {
    if i == 0 then None else Some(units[i - 1].word)
  }

  /** The units cover the line from its start, in order. */
  predicate Segmented(line: Line, limit: nat, units: seq<Unit>) {
    units != [] ==>
      && Segmented(line, limit, units[..|units| - 1])
      && Follows(line, limit, WordBefore(units, |units| - 1), units[|units| - 1])
  }

  /** Every word fits a row of its own. */
  predicate Bounded(line: Line, limit: nat, units: seq<Unit>) {
    forall i | 0 <= i < |units| :: Fits(line, units[i].word, limit)
  }

  function Reached(units: seq<Unit>): nat {
    if units == [] then 0 else units[|units| - 1].word.end
  }

  lemma UnitPushed(line: Line, limit: nat, units: seq<Unit>, u: Unit)
    requires Segmented(line, limit, units)
    requires Follows(line, limit, WordBefore(units, |units|), u)
    ensures Segmented(line, limit, units + [u])
  {
    var all := units + [u];
    assert all[..|units|] == units;
    assert WordBefore(all, |units|) == WordBefore(units, |units|);
  }

  lemma WidthPushed(line: Line, limit: nat, units: seq<Unit>, u: Unit)
    requires Bounded(line, limit, units) && Fits(line, u.word, limit)
    ensures Bounded(line, limit, units + [u])
  {
  }

  /** The chunk `r` of `word` as a range of the line. */
  function Shifted(word: Row, r: Row): Row {
    Row(word.start + r.start, word.start + r.end)
  }

  lemma SliceOfSlice<T>(s: seq<T>, a: nat, b: nat, c: nat, d: nat)
    requires a <= b <= |s| && c <= d <= b - a
    ensures s[a..b][c..d] == s[a + c..a + d]
  {
    var x, y := s[a..b][c..d], s[a + c..a + d];
    assert |x| == |y| == d - c;
    forall i | 0 <= i < d - c ensures x[i] == y[i] {
      assert x[i] == s[a..b][c + i];
      assert y[i] == s[a + c + i];
    }
  }

  lemma ShiftedWidth(line: Line, word: Row, r: Row)
    requires Within(line, word) && Within(line[word.start..word.end], r)
    ensures Within(line, Shifted(word, r))
    ensures Width(line, Shifted(word, r)) == Width(line[word.start..word.end], r)
  {
    SliceOfSlice(line, word.start, word.end, r.start, r.end);
  }

  lemma FirstGrapheme(line: Line, r: Row)
    requires Within(line, r) && r.start < r.end
    ensures Width(line, r) >= line[r.start].cells
  {
    CellsSplit(line, r.start, r.start + 1, r.end);
    CellsOne(line, r.start, r.start);
  }

  lemma NarrowWord(line: Line, limit: nat, word: Row)
    requires Within(line, word) && NoneBlank(line, word) && Narrow(line, limit)
    ensures EachFits(line[word.start..word.end], limit)
  {
    forall g | g in line[word.start..word.end] ensures g.cells <= limit {
      assert g in line;
    }
  }

  /** The k-th chunk carries on where the one before it had no room left. */
  lemma ChunkFollows(line: Line, limit: nat, word: Row, before: Row, chunk: Row)
    requires Within(line, word) && NoneBlank(line, word)
    requires Full(line[word.start..word.end], before, limit)
    requires before.end == chunk.start < chunk.end <= word.end - word.start
    ensures Follows(line, limit, Some(Shifted(word, before)),
                    Unit(Row(word.start, word.start), Shifted(word, chunk)))
  {
    var text := line[word.start..word.end];
    ShiftedWidth(line, word, before);
    ShiftedWidth(line, word, chunk);
    FirstGrapheme(text, chunk);
  }

  lemma {:induction false} ChunkedAt(text: Line, rows: seq<Row>, limit: nat, end: nat, k: nat)
    requires Chunked(text, rows, limit, end) && k < |rows|
    ensures rows[k].start == ChunkStart(rows, k) && Full(text, rows[k], limit)
    decreases |rows|
  {
    var most := rows[..|rows| - 1];
    if k < |most| {
      ChunkedAt(text, most, limit, rows[|rows| - 1].start, k);
    }
  }

  /** The chunks are consecutive, and each but the last is full. */
  lemma ChunkAt(text: Line, chunks: seq<Row>, limit: nat, k: nat)
    requires k < |chunks| && Chunks(text, chunks, limit)
    ensures chunks[k].start == ChunkStart(chunks, k)
    ensures chunks[k].start < chunks[k].end <= |text|
    ensures k > 0 ==> Full(text, chunks[k - 1], limit)
  {
    var most := chunks[..|chunks| - 1];
    var end := chunks[|chunks| - 1].start;
    if k < |most| {
      ChunkedAt(text, most, limit, end, k);
    }
    if k > 0 {
      ChunkedAt(text, most, limit, end, k - 1);
    }
  }

  /** A word with all the white space since the last one. */
  predicate NewWord(line: Line, units: seq<Unit>, gap: Row, word: Row) {
    && WellFormed(line, Unit(gap, word))
    && gap == Row(Reached(units), word.start)
    && (units != [] ==> gap.start < gap.end)
  }

  lemma FirstChunkFollows(line: Line, limit: nat, units: seq<Unit>, gap: Row, word: Row, chunk: Row)
    requires NewWord(line, units, gap, word)
    requires chunk.start == 0 < chunk.end <= word.end - word.start
    ensures Follows(line, limit, WordBefore(units, |units|), Unit(gap, Shifted(word, chunk)))
  {
    var u := Unit(gap, Shifted(word, chunk));
    assert u.word.start == word.start;
    assert WellFormed(line, u);
    if units != [] {
      assert PastGap(units[|units| - 1].word, u);
    }
  }

  /** The word that the k-th chunk comes after. */
  function PieceBefore(units: seq<Unit>, word: Row, chunks: seq<Row>, k: nat): Option<Row>
    requires k <= |chunks|
  {
    if k == 0 then WordBefore(units, |units|) else Some(Shifted(word, chunks[k - 1]))
  }

  /** The k-th chunk as a unit: the first keeps the gap. */
  function Piece(gap: Row, word: Row, chunks: seq<Row>, k: nat): Unit
    requires k < |chunks|
  {
    Unit(if k == 0 then gap else Row(word.start, word.start), Shifted(word, chunks[k]))
  }

  lemma PieceFollows(line: Line, limit: nat, units: seq<Unit>, gap: Row, word: Row, chunks: seq<Row>, k: nat)
    requires NewWord(line, units, gap, word) && k < |chunks|
    requires Chunks(line[word.start..word.end], chunks, limit)
    ensures Follows(line, limit, PieceBefore(units, word, chunks, k), Piece(gap, word, chunks, k))
  {
    ChunkAt(line[word.start..word.end], chunks, limit, k);
    if k == 0 {
      FirstChunkFollows(line, limit, units, gap, word, chunks[0]);
    } else {
      ChunkFollows(line, limit, word, chunks[k - 1], chunks[k]);
    }
  }

  lemma PieceFits(line: Line, limit: nat, word: Row, chunk: Row)
    requires Within(line, word) && Fits(line[word.start..word.end], chunk, limit)
    ensures Fits(line, Shifted(word, chunk), limit)
  {
    ShiftedWidth(line, word, chunk);
  }

  /** The pieces made so far follow the units before them, and fit where those did. */
  predicate PiecesMade(line: Line, limit: nat, units: seq<Unit>, word: Row, chunks: seq<Row>, out: seq<Unit>, k: nat)
    requires k <= |chunks|
  {
    && |out| == |units| + k
    && WordBefore(out, |out|) == PieceBefore(units, word, chunks, k)
    && Segmented(line, limit, out)
  }

  lemma PiecePushed(
    line: Line, limit: nat, units: seq<Unit>, gap: Row, word: Row, chunks: seq<Row>, out: seq<Unit>, k: nat
  )
    requires NewWord(line, units, gap, word) && k < |chunks|
    requires Chunks(line[word.start..word.end], chunks, limit)
    requires PiecesMade(line, limit, units, word, chunks, out, k)
    ensures PiecesMade(line, limit, units, word, chunks, out + [Piece(gap, word, chunks, k)], k + 1)
  {
    PieceFollows(line, limit, units, gap, word, chunks, k);
    UnitPushed(line, limit, out, Piece(gap, word, chunks, k));
  }

  lemma LastPiece(line: Line, limit: nat, units: seq<Unit>, word: Row, chunks: seq<Row>, out: seq<Unit>)
    requires Within(line, word) && Chunks(line[word.start..word.end], chunks, limit)
    requires PiecesMade(line, limit, units, word, chunks, out, |chunks|)
    ensures Segmented(line, limit, out) && |out| > |units| && Reached(out) == word.end
  {
  }

  /** Splits a word wider than a row into chunks that fit, the first keeping the gap. */
  method SplitWord(line: Line, limit: nat, units: seq<Unit>, gap: Row, word: Row) returns (out: seq<Unit>)
    requires limit >= 1 && Segmented(line, limit, units)
    requires NewWord(line, units, gap, word)
    ensures Segmented(line, limit, out) && |out| > |units| && Reached(out) == word.end
    ensures Narrow(line, limit) && Bounded(line, limit, units) ==> Bounded(line, limit, out)
  {
    var chunks := CharBreaks(line[word.start..word.end], limit);
    ghost var narrow := Narrow(line, limit) && Bounded(line, limit, units);
    if narrow {
      NarrowWord(line, limit, word);
    }
    out := units;
    for index := 0 to |chunks|
      invariant PiecesMade(line, limit, units, word, chunks, out, index)
      invariant narrow ==> Bounded(line, limit, out)
    {
      var u := Piece(gap, word, chunks, index);
      PiecePushed(line, limit, units, gap, word, chunks, out, index);
      if narrow {
        PieceFits(line, limit, word, chunks[index]);
        WidthPushed(line, limit, out, u);
      }
      out := out + [u];
    }
    LastPiece(line, limit, units, word, chunks, out);
  }

  /** Words with the white space before them, those wider than `limit` split to fit. */
  method Units(line: Line, limit: nat) returns (out: seq<Unit>)
    requires limit >= 1
    ensures Segmented(line, limit, out)
    ensures Reached(out) <= |line| && AllBlank(line, Row(Reached(out), |line|))
    ensures Narrow(line, limit) ==> Bounded(line, limit, out)
  {
    out := [];
    var gapStart := 0;
    var pos := 0;
    while NextWord(line, pos) < |line|
      invariant pos == gapStart == Reached(out) <= |line|
      invariant Segmented(line, limit, out)
      invariant out != [] && pos < |line| ==> line[pos].blank
      invariant Narrow(line, limit) ==> Bounded(line, limit, out)
      decreases |line| - pos
    {
      var start := NextWord(line, pos);
      var end := WordEnd(line, start);
      var gap, word := Row(gapStart, start), Row(start, end);
      if Cells(line[start..end]) <= limit {
        UnitPushed(line, limit, out, Unit(gap, word));
        if Narrow(line, limit) {
          WidthPushed(line, limit, out, Unit(gap, word));
        }
        out := out + [Unit(gap, word)];
      } else {
        out := SplitWord(line, limit, out, gap, word);
      }
      gapStart := end;
      pos := end;
    }
  }
}

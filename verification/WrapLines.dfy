/** Rows of a whole line: what they keep, and exactly when they lose a word. */
module WrapLines {
  import opened Wrappers
  import opened Wraps
  import opened WrapRows

  // ---- when a word is dropped -----------------------------------------

  lemma SolidWord(line: Line, word: Row)
    requires Solid(line) && Within(line, word) && NoneBlank(line, word) && word.start < word.end
    ensures Width(line, word) > 0
  {
    forall g | g in line[word.start..word.end] ensures g.cells >= 1 {
      assert g in line;
    }
    AtLeastOneCell(line[word.start..word.end]);
  }

  lemma {:induction false} SolidKeeps(line: Line, limit: nat, units: seq<Unit>)
    requires Solid(line) && Segmented(line, limit, units)
    ensures !Drops(line, limit, units)
    decreases |units|
  {
    if |units| > 1 {
      var before := units[..|units| - 1];
      SolidKeeps(line, limit, before);
      LaidTail(line, limit, before);
      SolidWord(line, before[|before| - 1].word);
    }
  }

  function UnitCells(line: Line, u: Unit): nat
    requires WellFormed(line, u)
  {
    Width(line, u.gap) + Width(line, u.word)
  }

  lemma SpacedGap(line: Line, gap: Row)
    requires Spaced(line) && Within(line, gap) && AllBlank(line, gap) && gap.start < gap.end
    ensures Width(line, gap) > 0
  {
    forall g | g in line[gap.start..gap.end] ensures g.cells >= 1 {
      assert g in line;
    }
    AtLeastOneCell(line[gap.start..gap.end]);
  }

  lemma LaterUnitCounts(line: Line, limit: nat, before: Row, u: Unit)
    requires Spaced(line) && Follows(line, limit, Some(before), u) && Fits(line, before, limit)
    ensures UnitCells(line, u) > 0
  {
    if PastGap(before, u) {
      SpacedGap(line, u.gap);
    }
  }

  lemma FirstIsWellFormed(line: Line, limit: nat, units: seq<Unit>)
    requires Segmented(line, limit, units) && units != []
    ensures Follows(line, limit, None, units[0])
    decreases |units|
  {
    if |units| > 1 {
      FirstIsWellFormed(line, limit, units[..|units| - 1]);
    }
  }

  /** Nothing is counted only while the layout holds a single weightless word. */
  lemma Uncounted(line: Line, limit: nat, units: seq<Unit>)
    requires Spaced(line) && Segmented(line, limit, units) && Bounded(line, limit, units) && units != []
    ensures WellFormed(line, units[0])
    ensures Laid(line, limit, units).col == 0 <==> |units| == 1 && UnitCells(line, units[0]) == 0
  {
    FirstIsWellFormed(line, limit, units);
    var before, u := units[..|units| - 1], units[|units| - 1];
    if before == [] {
      assert Laid(line, limit, before) == Layout([], 0, 0, 0);
    } else {
      assert Fits(line, units[|units| - 2].word, limit);
      LaterUnitCounts(line, limit, before[|before| - 1].word, u);
    }
  }

  lemma {:induction false} DropsIff(line: Line, limit: nat, units: seq<Unit>)
    requires Spaced(line) && Segmented(line, limit, units) && Bounded(line, limit, units) && units != []
    ensures WellFormed(line, units[0])
    ensures Drops(line, limit, units) <==> |units| > 1 && UnitCells(line, units[0]) == 0
    decreases |units|
  {
    FirstIsWellFormed(line, limit, units);
    if |units| > 1 {
      var before := units[..|units| - 1];
      assert forall i | 0 <= i < |before| :: before[i] == units[i];
      DropsIff(line, limit, before);
      Uncounted(line, limit, before);
    }
  }

  /** The line starts with a word that takes up no room, and another word comes after it. */
  predicate StartsWeightless(line: Line) {
    && line != [] && !line[0].blank
    && Cells(line[..WordEnd(line, 0)]) == 0
    && NextWord(line, WordEnd(line, 0)) < |line|
  }

  lemma {:induction false} SecondUnit(line: Line, limit: nat, units: seq<Unit>)
    requires Segmented(line, limit, units) && |units| > 1
    ensures Follows(line, limit, Some(units[0].word), units[1])
    decreases |units|
  {
    if |units| > 2 {
      SecondUnit(line, limit, units[..|units| - 1]);
    }
  }

  lemma {:induction false} EndsAt(line: Line, from: nat, end: nat)
    requires from <= end <= |line| && NoneBlank(line, Row(from, end))
    requires end == |line| || line[end].blank
    ensures WordEnd(line, from) == end
    decreases end - from
  {
    if from < end {
      EndsAt(line, from + 1, end);
    }
  }

  lemma FoundBy(line: Line, from: nat, i: nat)
    requires from <= i < |line| && !line[i].blank
    ensures NextWord(line, from) <= i
  {
  }

  lemma WeightlessStarts(line: Line, limit: nat, units: seq<Unit>)
    requires Spaced(line) && Segmented(line, limit, units) && Bounded(line, limit, units) && |units| > 1
    requires WellFormed(line, units[0]) && UnitCells(line, units[0]) == 0
    ensures StartsWeightless(line)
  {
    var u, v := units[0], units[1];
    FirstIsWellFormed(line, limit, units);
    SecondUnit(line, limit, units);
    assert Fits(line, u.word, limit) && Fits(line, v.word, limit);
    if u.gap.start < u.gap.end {
      SpacedGap(line, u.gap);
    }
    EndsAt(line, 0, u.word.end);
    assert line[..u.word.end] == line[0..u.word.end];
    FoundBy(line, u.word.end, v.word.start);
  }

  lemma OnlyUnit(line: Line, limit: nat, units: seq<Unit>)
    requires Segmented(line, limit, units) && Reached(units) <= |line|
    requires AllBlank(line, Row(Reached(units), |line|))
    requires StartsWeightless(line)
    ensures |units| > 1
  {
    if units != [] {
      FirstIsWellFormed(line, limit, units);
      WholeWord(line, units[0].word);
    }
  }

  lemma StartsAreWeightless(line: Line, limit: nat, units: seq<Unit>)
    requires Segmented(line, limit, units) && |units| > 1 && StartsWeightless(line)
    ensures WellFormed(line, units[0]) && UnitCells(line, units[0]) == 0
  {
    FirstIsWellFormed(line, limit, units);
    var u, end := units[0], WordEnd(line, 0);
    assert u.gap.end == 0;
    assert line[0..0] == [];
    WholeWord(line, u.word);
    CellsSplit(line, 0, u.word.end, end);
    assert line[..end] == line[0..end];
  }

  /** With every white space visible in width, a word is lost exactly when the line starts with a weightless one. */
  lemma LossIff(line: Line, limit: nat, units: seq<Unit>)
    requires Spaced(line) && Segmented(line, limit, units) && Bounded(line, limit, units) && units != []
    requires Reached(units) <= |line| && AllBlank(line, Row(Reached(units), |line|))
    ensures Drops(line, limit, units) <==> StartsWeightless(line)
  {
    DropsIff(line, limit, units);
    if Drops(line, limit, units) {
      WeightlessStarts(line, limit, units);
    }
    if StartsWeightless(line) {
      OnlyUnit(line, limit, units);
      StartsAreWeightless(line, limit, units);
    }
  }

  // ---- trimming --------------------------------------------------------

  /** The graphemes up to the last visible one. */
  function TrimEnd(s: Line): (t: Line)
    ensures t <= s && (t != [] ==> !t[|t| - 1].blank)
    ensures forall i | |t| <= i < |s| :: s[i].blank
  {
    if s != [] && s[|s| - 1].blank then TrimEnd(s[..|s| - 1]) else s
  }

  lemma {:induction false} TrimIsNarrower(s: Line)
    ensures Cells(TrimEnd(s)) <= Cells(s) && Visible(TrimEnd(s)) == Visible(s)
  {
    if s != [] && s[|s| - 1].blank {
      TrimIsNarrower(s[..|s| - 1]);
    }
  }

  lemma {:induction false} TrimBlanks(s: Line, blanks: Line)
    requires forall g | g in blanks :: g.blank
    ensures TrimEnd(s + blanks) == TrimEnd(s)
  {
    if blanks == [] {
      assert s + blanks == s;
    } else {
      TrimBlanks(s, blanks[..|blanks| - 1]);
      assert (s + blanks)[..|s + blanks| - 1] == s + blanks[..|blanks| - 1];
    }
  }

  function Text(line: Line, r: Row): Line
    requires Within(line, r)
  {
    TrimEnd(line[r.start..r.end])
  }

  predicate TextFits(line: Line, r: Row, limit: nat) {
    Within(line, r) && Cells(Text(line, r)) <= limit
  }

  predicate TextsFit(line: Line, rows: seq<Row>, limit: nat) {
    forall i | 0 <= i < |rows| :: TextFits(line, rows[i], limit)
  }

  lemma TailTrimmed(line: Line, start: nat, end: nat)
    requires start <= end <= |line| && AllBlank(line, Row(end, |line|))
    ensures Text(line, Row(start, |line|)) == Text(line, Row(start, end))
  {
    TrimBlanks(line[start..end], line[end..|line|]);
    assert line[start..end] + line[end..|line|] == line[start..|line|];
  }

  lemma TrimmedFit(line: Line, out: seq<Row>, start: nat, end: nat, limit: nat)
    requires AllFit(line, out + [Row(start, end)], limit)
    requires start <= end <= |line| && AllBlank(line, Row(end, |line|))
    ensures TextsFit(line, out + [Row(start, |line|)], limit)
  {
    var all, rows := out + [Row(start, end)], out + [Row(start, |line|)];
    forall i | 0 <= i < |rows| ensures TextFits(line, rows[i], limit) {
      assert Fits(line, all[i], limit);
      TrimIsNarrower(line[all[i].start..all[i].end]);
      if i == |out| {
        TailTrimmed(line, start, end);
      } else {
        assert rows[i] == all[i] == out[i];
      }
    }
  }

  lemma TailFaithful(line: Line, out: seq<Row>, start: nat, end: nat, dropped: bool)
    requires Faithful(line, out + [Row(start, end)], end, dropped) && AllWithin(line, out)
    requires start <= end <= |line| && AllBlank(line, Row(end, |line|))
    ensures Faithful(line, out + [Row(start, |line|)], |line|, dropped)
  {
    ShownPush(line, out, Row(start, end));
    ShownPush(line, out, Row(start, |line|));
    VisibleSplit(line, start, end, |line|);
    VisibleSplit(line, 0, end, |line|);
    BlanksHide(line, Row(end, |line|));
  }

  lemma BlankLine(line: Line, limit: nat)
    requires AllBlank(line, Row(0, |line|))
    ensures Ordered(line, [Row(0, |line|)]) && AllForced(line, limit, [Row(0, |line|)])
    ensures TextsFit(line, [Row(0, |line|)], limit)
    ensures Faithful(line, [Row(0, |line|)], |line|, false) && !StartsWeightless(line)
    ensures Indented(line, limit, [Row(0, |line|)])
  {
    var rows := [Row(0, |line|)];
    assert rows[..0] == [] && [] + [Row(0, |line|)] == rows;
    TailTrimmed(line, 0, 0);
    assert line[0..0] == [];
    ShownPush(line, [], Row(0, |line|));
  }

  lemma {:induction false} Prefix(line: Line, limit: nat, units: seq<Unit>, k: nat)
    requires Segmented(line, limit, units) && k <= |units|
    ensures Segmented(line, limit, units[..k])
    ensures k < |units| ==> WellFormed(line, units[k])
    decreases |units|
  {
    if k < |units| {
      Prefix(line, limit, units[..|units| - 1], k);
      assert units[..|units| - 1][..k] == units[..k];
    } else {
      assert units[..k] == units;
    }
  }

  lemma LaidNext(line: Line, limit: nat, units: seq<Unit>, k: nat)
    requires Segmented(line, limit, units) && k < |units|
    ensures Segmented(line, limit, units[..k]) && Segmented(line, limit, units[..k + 1])
    ensures WellFormed(line, units[k])
    ensures Laid(line, limit, units[..k + 1]) == Place(line, limit, Laid(line, limit, units[..k]), units[k])
  {
    Prefix(line, limit, units, k);
    Prefix(line, limit, units, k + 1);
    assert units[..k + 1][..k] == units[..k];
  }

  // ---- whole lines -----------------------------------------------------

  /** The rows once the last one takes in the white space that ends the line. */
  function Finish(line: Line, w: Layout): seq<Row> {
    w.out + [Row(w.start, |line|)]
  }

  lemma FinishOrdered(line: Line, limit: nat, units: seq<Unit>)
    requires Segmented(line, limit, units)
    ensures Ordered(line, Finish(line, Laid(line, limit, units)))
    ensures AllForced(line, limit, Finish(line, Laid(line, limit, units)))
  {
    var w := Laid(line, limit, units);
    LaidTail(line, limit, units);
    LaidOrdered(line, limit, units);
    LaidForced(line, limit, units);
    OrderedReplace(line, w.out, Row(w.start, w.end), Row(w.start, |line|));
    ForcedReplace(line, limit, w.out, Row(w.start, w.end), Row(w.start, |line|));
  }

  lemma FinishFits(line: Line, limit: nat, units: seq<Unit>)
    requires Segmented(line, limit, units) && Bounded(line, limit, units)
    requires Reached(units) <= |line| && AllBlank(line, Row(Reached(units), |line|))
    ensures TextsFit(line, Finish(line, Laid(line, limit, units)), limit)
  {
    var w := Laid(line, limit, units);
    LaidTail(line, limit, units);
    LaidFits(line, limit, units);
    TrimmedFit(line, w.out, w.start, w.end, limit);
  }

  lemma FinishFaithful(line: Line, limit: nat, units: seq<Unit>)
    requires Segmented(line, limit, units) && units != []
    requires Reached(units) <= |line| && AllBlank(line, Row(Reached(units), |line|))
    ensures Faithful(line, Finish(line, Laid(line, limit, units)), |line|, Drops(line, limit, units))
  {
    var w := Laid(line, limit, units);
    LaidTail(line, limit, units);
    LaidOrdered(line, limit, units);
    OutWithin(line, w);
    LaidFaithful(line, limit, units);
    TailFaithful(line, w.out, w.start, w.end, Drops(line, limit, units));
  }

  /** Rows start at words; the first keeps its white space while the first word fits beside it. */
  predicate Indented(line: Line, limit: nat, rows: seq<Row>)
    requires rows != []
  {
    var first := NextWord(line, 0);
    && StartsAtWords(line, rows)
    && (rows[0].start == 0 || rows[0].start == first)
    && (Cells(line[0..WordEnd(line, first)]) <= limit ==> rows[0].start == 0)
    && (rows[0].start == 0 && 0 < first < |line| ==> Cells(line[0..first + 1]) <= limit)
  }

  lemma FirstWordAt(line: Line, limit: nat, units: seq<Unit>)
    requires Segmented(line, limit, units) && units != []
    ensures Follows(line, limit, None, units[0]) && units[0].word.start == NextWord(line, 0)
    ensures units[0].word.end <= WordEnd(line, NextWord(line, 0))
  {
    FirstIsWellFormed(line, limit, units);
    WordStartsAt(line, 0, units[0].word.start);
    WholeWord(line, units[0].word);
  }

  lemma {:induction false} WordStartsAt(line: Line, from: nat, i: nat)
    requires from <= i < |line| && AllBlank(line, Row(from, i)) && !line[i].blank
    ensures NextWord(line, from) == i
    decreases i - from
  {
    if from < i {
      WordStartsAt(line, from + 1, i);
    }
  }

  lemma LeadIndents(line: Line, limit: nat, units: seq<Unit>)
    requires Segmented(line, limit, units) && units != []
    ensures WellFormed(line, units[0])
    ensures var lead, first := Lead(line, limit, units[0]), NextWord(line, 0);
            && (lead == 0 || lead == first)
            && (Cells(line[0..WordEnd(line, first)]) <= limit ==> lead == 0)
            && (lead == 0 && 0 < first < |line| ==> Cells(line[0..first + 1]) <= limit)
  {
    FirstWordAt(line, limit, units);
    var u, first := units[0], NextWord(line, 0);
    CellsSplit(line, 0, first, u.word.end);
    CellsSplit(line, 0, u.word.end, WordEnd(line, first));
    CellsSplit(line, 0, first + 1, u.word.end);
  }

  lemma FinishIndented(line: Line, limit: nat, units: seq<Unit>)
    requires Segmented(line, limit, units) && units != [] && !Drops(line, limit, units)
    ensures Indented(line, limit, Finish(line, Laid(line, limit, units)))
  {
    var w := Laid(line, limit, units);
    LaidStarts(line, limit, units);
    LeadIndents(line, limit, units);
    LaidTail(line, limit, units);
    StartsReplace(line, w.out, Row(w.start, w.end), Row(w.start, |line|));
  }

  /** What wrapping promises of the rows of a line. */
  predicate Wrapped(line: Line, limit: nat, rows: seq<Row>) {
    && rows != [] && Ordered(line, rows) && rows[|rows| - 1].end == |line|
    && AllForced(line, limit, rows)
    && (Narrow(line, limit) ==> TextsFit(line, rows, limit))
    && (Solid(line) ==> Faithful(line, rows, |line|, false) && Indented(line, limit, rows))
    && (Spaced(line) && Narrow(line, limit) ==> Faithful(line, rows, |line|, StartsWeightless(line)))
  }

  lemma Finished(line: Line, limit: nat, units: seq<Unit>)
    requires Segmented(line, limit, units) && units != []
    requires Narrow(line, limit) ==> Bounded(line, limit, units)
    requires Reached(units) <= |line| && AllBlank(line, Row(Reached(units), |line|))
    ensures Wrapped(line, limit, Finish(line, Laid(line, limit, units)))
  {
    FinishOrdered(line, limit, units);
    FinishFaithful(line, limit, units);
    if Narrow(line, limit) {
      FinishFits(line, limit, units);
      if Spaced(line) {
        LossIff(line, limit, units);
      }
    }
    if Solid(line) {
      SolidKeeps(line, limit, units);
      FinishIndented(line, limit, units);
    }
  }

  /** Lays the words out one by one. */
  method Fill(line: Line, limit: nat, units: seq<Unit>) returns (out: seq<Row>, start: nat)
    requires Segmented(line, limit, units)
    ensures out == Laid(line, limit, units).out && start == Laid(line, limit, units).start
  {
    out := [];
    start := 0;
    var end: nat, col: nat := 0, 0;
    assert units[..0] == [];
    for i := 0 to |units|
      invariant Segmented(line, limit, units[..i])
      invariant Layout(out, start, end, col) == Laid(line, limit, units[..i])
    {
      LaidNext(line, limit, units, i);
      var gap, word := units[i].gap, units[i].word;
      var gapWidth := Width(line, gap);
      var wordWidth := Width(line, word);
      if col > 0 && col + gapWidth + wordWidth > limit {
        out := out + [Row(start, end)];
        start := word.start;
        col := 0;
      }
      if col == 0 && start != word.start {
        // Keep leading indentation when the word still fits beside it.
        start := if gapWidth + wordWidth <= limit then gap.start else word.start;
      }
      col := col + gapWidth + wordWidth;
      end := word.end;
    }
    assert units[..|units|] == units;
  }

  /** The rows lay out the line's own words, each placed where `OverflowsIff` says. */
  ghost predicate LaysOut(line: Line, limit: nat, rows: seq<Row>) {
    exists units :: && Segmented(line, limit, units) && units != [] && rows == Finish(line, Laid(line, limit, units))
                    && Reached(units) <= |line| && AllBlank(line, Row(Reached(units), |line|))
  }

  /** The rows of one logical line, at most `cellLimit` cells wide once trimmed. */
  method Breaks(line: Line, cellLimit: nat) returns (rows: seq<Row>)
    ensures Wrapped(line, Max(cellLimit, 1), rows)
    ensures rows == [Row(0, |line|)] || LaysOut(line, Max(cellLimit, 1), rows)
  {
    var limit := Max(cellLimit, 1);
    if line == [] {
      BlankLine(line, limit);
      return [Row(0, 0)];
    }
    var units := Units(line, limit);
    if units == [] {
      BlankLine(line, limit);
      return [Row(0, |line|)];
    }
    var out, start := Fill(line, limit, units);
    Finished(line, limit, units);
    rows := out + [Row(start, |line|)];
  }

  // ---- trimmed text ----------------------------------------------------

  function Texts(line: Line, rows: seq<Row>): (texts: seq<Line>)
    requires AllWithin(line, rows)
    ensures |texts| == |rows|
  {
    if rows == [] then [] else Texts(line, rows[..|rows| - 1]) + [Text(line, rows[|rows| - 1])]
  }

  function Concat(texts: seq<Line>): Line {
    if texts == [] then [] else Concat(texts[..|texts| - 1]) + texts[|texts| - 1]
  }

  lemma {:induction false} TextsShow(line: Line, rows: seq<Row>)
    requires AllWithin(line, rows)
    ensures Visible(Concat(Texts(line, rows))) == Shown(line, rows)
  {
    if rows != [] {
      var most, last := rows[..|rows| - 1], rows[|rows| - 1];
      TextsShow(line, most);
      TrimIsNarrower(line[last.start..last.end]);
      VisibleConcat(Concat(Texts(line, most)), Text(line, last));
      assert Texts(line, rows)[..|rows| - 1] == Texts(line, most);
    }
  }

  lemma {:induction false} TextAt(line: Line, rows: seq<Row>, k: nat)
    requires AllWithin(line, rows) && k < |rows|
    ensures Texts(line, rows)[k] == Text(line, rows[k])
    decreases |rows|
  {
    if k < |rows| - 1 {
      TextAt(line, rows[..|rows| - 1], k);
    }
  }

  predicate Kept(line: Line, texts: seq<Line>) {
    Visible(Concat(texts)) == Visible(line)
  }

  lemma KeptIff(line: Line, rows: seq<Row>, dropped: bool)
    requires Faithful(line, rows, |line|, dropped)
    ensures Kept(line, Texts(line, rows)) <==> !dropped
  {
    TextsShow(line, rows);
    assert line[0..|line|] == line;
  }

  /** No text is wider than the limit. */
  predicate Trim(texts: seq<Line>, limit: nat) {
    forall t | t in texts :: Cells(t) <= limit
  }

  lemma TextsTrim(line: Line, rows: seq<Row>, limit: nat)
    requires TextsFit(line, rows, limit) && AllWithin(line, rows)
    ensures Trim(Texts(line, rows), limit)
  {
    forall t | t in Texts(line, rows) ensures Cells(t) <= limit {
      var k :| 0 <= k < |rows| && Texts(line, rows)[k] == t;
      TextAt(line, rows, k);
      assert TextFits(line, rows[k], limit);
    }
  }

  /** Wraps one logical line, trimming the white space each break lands on. */
  method WrapLine(line: Line, cellLimit: nat) returns (texts: seq<Line>, ghost rows: seq<Row>)
    ensures Wrapped(line, Max(cellLimit, 1), rows) && AllWithin(line, rows) && texts == Texts(line, rows)
    ensures Narrow(line, Max(cellLimit, 1)) ==> Trim(texts, Max(cellLimit, 1))
    ensures Solid(line) ==> Kept(line, texts)
    ensures Spaced(line) && Narrow(line, Max(cellLimit, 1)) ==> (Kept(line, texts) <==> !StartsWeightless(line))
  {
    hide AllForced;
    hide Faithful;
    hide Indented;
    hide LaysOut;
    hide StartsWeightless;
    hide Kept;
    hide Trim;
    var ranges := Breaks(line, cellLimit);
    rows := ranges;
    OrderedWithin(line, rows);
    texts := [];
    assert rows[..0] == [];
    for i := 0 to |ranges|
      invariant AllWithin(line, rows[..i])
      invariant texts == Texts(line, rows[..i])
    {
      assert rows[..i + 1][..i] == rows[..i];
      assert Within(line, rows[i]);
      texts := texts + [TrimEnd(line[ranges[i].start..ranges[i].end])];
    }
    assert rows[..|rows|] == rows;
    if Narrow(line, Max(cellLimit, 1)) {
      TextsTrim(line, rows, Max(cellLimit, 1));
      if Spaced(line) {
        KeptIff(line, rows, StartsWeightless(line));
      }
    }
    if Solid(line) {
      KeptIff(line, rows, false);
    }
  }

  /** The zero-width word that starts this line is in no row. */
  method LeadingWordCanVanish() returns (line: Line, texts: seq<Line>)
    ensures line == [Grapheme("\U{200B}", 0, false), Grapheme(" ", 1, true), Grapheme("a", 1, false)]
    ensures !Kept(line, texts)
  {
    line := [Grapheme("\U{200B}", 0, false), Grapheme(" ", 1, true), Grapheme("a", 1, false)];
    EndsAt(line, 0, 1);
    assert line[..1] == [line[0]];
    FoundBy(line, 1, 2);
    ghost var rows;
    texts, rows := WrapLine(line, 80);
  }
}

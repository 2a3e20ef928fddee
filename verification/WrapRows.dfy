/** Laying words out in rows. */
module WrapRows {
  import opened Wrappers
  import opened Wraps

  /** The rows pushed so far, and the row being filled. */
  datatype Layout = Layout(out: seq<Row>, start: nat, end: nat, col: nat) {
    function Rows(): seq<Row> {
      out + [Row(start, end)]
    }

    /** Where the last pushed row ended. */
    function Base(): nat {
      if out == [] then 0 else out[|out| - 1].end
    }
  }

  /** Whether the word starts a row of its own. */
  predicate Overflows(line: Line, limit: nat, w: Layout, u: Unit)
    requires WellFormed(line, u)
  {
    w.col > 0 && w.col + Width(line, u.gap) + Width(line, u.word) > limit
  }

  /** Where a row that nothing counts towards yet starts: at the white space if the word fits beside it. */
  function Lead(line: Line, limit: nat, u: Unit): nat
    requires WellFormed(line, u)
  {
    if Width(line, u.gap) + Width(line, u.word) <= limit then u.gap.start else u.word.start
  }

  /** One more word: on a row of its own, as the first that counts, or after the others. */
  function Place(line: Line, limit: nat, w: Layout, u: Unit): Layout
    requires WellFormed(line, u)
  {
    var wide := Width(line, u.gap) + Width(line, u.word);
    if Overflows(line, limit, w, u) then
      Layout(w.out + [Row(w.start, w.end)], u.word.start, u.word.end, wide)
    else if w.col == 0 && w.start != u.word.start then
      Layout(w.out, Lead(line, limit, u), u.word.end, wide)
    else
      Layout(w.out, w.start, u.word.end, w.col + wide)
  }

  function Laid(line: Line, limit: nat, units: seq<Unit>): Layout
    requires Segmented(line, limit, units)
  {
    if units == [] then Layout([], 0, 0, 0)
    else Place(line, limit, Laid(line, limit, units[..|units| - 1]), units[|units| - 1])
  }

  // ---- order -----------------------------------------------------------

  /** Rows in the line, in order and disjoint. */
  predicate Ordered(line: Line, rows: seq<Row>) {
    rows != [] ==>
      && Within(line, rows[|rows| - 1])
      && (|rows| > 1 ==> rows[|rows| - 2].end <= rows[|rows| - 1].start)
      && Ordered(line, rows[..|rows| - 1])
  }

  lemma OrderedPush(line: Line, rows: seq<Row>, row: Row)
    requires Ordered(line, rows) && Within(line, row)
    requires rows != [] ==> rows[|rows| - 1].end <= row.start
    ensures Ordered(line, rows + [row])
  {
    assert (rows + [row])[..|rows|] == rows;
  }

  /** Only the last row changes. */
  lemma OrderedReplace(line: Line, rows: seq<Row>, a: Row, b: Row)
    requires Ordered(line, rows + [a]) && Within(line, b) && a.start <= b.start
    ensures Ordered(line, rows + [b])
  {
    assert (rows + [a])[..|rows|] == rows;
    if rows != [] {
      assert (rows + [a])[|rows| - 1] == rows[|rows| - 1];
    }
    OrderedPush(line, rows, b);
  }

  /** The row being filled ends with the last word, and that word's width counts. */
  predicate Tail(line: Line, w: Layout, units: seq<Unit>) {
    && w.end == Reached(units) && w.start <= w.end <= |line|
    && (units != [] ==>
          && var word := units[|units| - 1].word;
             Within(line, word) && w.start <= word.start && Width(line, word) <= w.col)
  }

  lemma FollowsAfter(line: Line, limit: nat, units: seq<Unit>, u: Unit)
    requires Follows(line, limit, WordBefore(units, |units|), u)
    ensures Reached(units) <= u.word.start
    ensures AllBlank(line, Row(Reached(units), u.word.start))
    ensures Width(line, u.gap) == Cells(line[Reached(units)..u.word.start])
    ensures u.gap.start < Reached(units) ==> units != [] && CarriesOn(line, limit, units[|units| - 1].word, u)
  {
    if u.gap.start == u.gap.end {
      assert line[u.gap.start..u.gap.end] == [];
      assert Reached(units) == u.word.start;
      assert line[Reached(units)..u.word.start] == [];
    }
  }

  /** A row never starts before the words it follows. */
  lemma LeadIsAfter(line: Line, limit: nat, units: seq<Unit>, w: Layout, u: Unit)
    requires Follows(line, limit, WordBefore(units, |units|), u)
    requires Tail(line, w, units) && w.col == 0
    ensures Reached(units) <= Lead(line, limit, u) <= u.word.start
  {
    FollowsAfter(line, limit, units, u);
  }

  lemma PlaceTail(line: Line, limit: nat, units: seq<Unit>, w: Layout, u: Unit)
    requires Follows(line, limit, WordBefore(units, |units|), u)
    requires Tail(line, w, units)
    ensures Tail(line, Place(line, limit, w, u), units + [u])
  {
    FollowsAfter(line, limit, units, u);
    if !Overflows(line, limit, w, u) && w.col == 0 && w.start != u.word.start {
      LeadIsAfter(line, limit, units, w, u);
    }
  }

  lemma PlaceOrdered(line: Line, limit: nat, units: seq<Unit>, w: Layout, u: Unit)
    requires Follows(line, limit, WordBefore(units, |units|), u)
    requires Tail(line, w, units) && Ordered(line, w.Rows())
    ensures Ordered(line, Place(line, limit, w, u).Rows())
  {
    FollowsAfter(line, limit, units, u);
    var row := Row(w.start, w.end);
    if Overflows(line, limit, w, u) {
      OrderedPush(line, w.out + [row], Row(u.word.start, u.word.end));
    } else if w.col == 0 && w.start != u.word.start {
      LeadIsAfter(line, limit, units, w, u);
      OrderedReplace(line, w.out, row, Row(Lead(line, limit, u), u.word.end));
    } else {
      OrderedReplace(line, w.out, row, Row(w.start, u.word.end));
    }
  }

  lemma {:induction false} LaidTail(line: Line, limit: nat, units: seq<Unit>)
    requires Segmented(line, limit, units)
    ensures Tail(line, Laid(line, limit, units), units)
    decreases |units|
  {
    if units == [] {
    } else {
      var before, u := units[..|units| - 1], units[|units| - 1];
      LaidTail(line, limit, before);
      PlaceTail(line, limit, before, Laid(line, limit, before), u);
      assert before + [u] == units;
    }
  }

  lemma {:induction false} LaidOrdered(line: Line, limit: nat, units: seq<Unit>)
    requires Segmented(line, limit, units)
    ensures Ordered(line, Laid(line, limit, units).Rows())
    decreases |units|
  {
    if units == [] {
      assert [Row(0, 0)][..0] == [];
    } else {
      var before, u := units[..|units| - 1], units[|units| - 1];
      LaidOrdered(line, limit, before);
      LaidTail(line, limit, before);
      PlaceOrdered(line, limit, before, Laid(line, limit, before), u);
    }
  }

  lemma LastIsVisible(line: Line, limit: nat, units: seq<Unit>)
    requires Segmented(line, limit, units) && units != []
    ensures 0 < Reached(units) <= |line| && !line[Reached(units) - 1].blank
  {
  }

  // ---- width -----------------------------------------------------------

  /** `col` is the width of everything since the last pushed row. */
  predicate Counted(line: Line, w: Layout) {
    w.Base() <= w.end <= |line| && w.col == Cells(line[w.Base()..w.end])
  }

  lemma UnitWidth(line: Line, limit: nat, units: seq<Unit>, u: Unit)
    requires Follows(line, limit, WordBefore(units, |units|), u)
    ensures Reached(units) <= u.word.start
    ensures Cells(line[Reached(units)..u.word.end]) == Width(line, u.gap) + Width(line, u.word)
  {
    FollowsAfter(line, limit, units, u);
    CellsSplit(line, Reached(units), u.word.start, u.word.end);
  }

  lemma PlaceCounted(line: Line, limit: nat, units: seq<Unit>, w: Layout, u: Unit)
    requires Follows(line, limit, WordBefore(units, |units|), u)
    requires w.end == Reached(units) && Counted(line, w)
    ensures Counted(line, Place(line, limit, w, u))
  {
    UnitWidth(line, limit, units, u);
    CellsSplit(line, w.Base(), w.end, u.word.end);
  }

  lemma {:induction false} LaidCounted(line: Line, limit: nat, units: seq<Unit>)
    requires Segmented(line, limit, units)
    ensures Counted(line, Laid(line, limit, units))
    decreases |units|
  {
    if units == [] {
    } else {
      var before := units[..|units| - 1];
      LaidCounted(line, limit, before);
      LaidTail(line, limit, before);
      PlaceCounted(line, limit, before, Laid(line, limit, before), units[|units| - 1]);
    }
  }

  /** The row being filled fits, and so does what it counts unless it is a single unit. */
  lemma PlaceFits(line: Line, limit: nat, units: seq<Unit>, w: Layout, u: Unit)
    requires Follows(line, limit, WordBefore(units, |units|), u) && Fits(line, u.word, limit)
    requires Tail(line, w, units) && Counted(line, w) && w.Base() <= w.start
    requires AllFit(line, w.Rows(), limit)
    ensures AllFit(line, Place(line, limit, w, u).Rows(), limit)
  {
    UnitWidth(line, limit, units, u);
    var next := Place(line, limit, w, u);
    if Overflows(line, limit, w, u) {
      FitPushed(line, w.Rows(), limit, u.word);
    } else {
      NextRowFits(line, limit, units, w, u);
      forall i | 0 <= i < |w.out| ensures Fits(line, w.out[i], limit) {
        assert w.Rows()[i] == w.out[i];
      }
    }
  }

  lemma NextRowFits(line: Line, limit: nat, units: seq<Unit>, w: Layout, u: Unit)
    requires Follows(line, limit, WordBefore(units, |units|), u) && Fits(line, u.word, limit)
    requires Tail(line, w, units) && Counted(line, w) && w.Base() <= w.start
    requires !Overflows(line, limit, w, u)
    ensures Fits(line, Row(Place(line, limit, w, u).start, u.word.end), limit)
  {
    FollowsAfter(line, limit, units, u);
    UnitWidth(line, limit, units, u);
    if w.col == 0 {
      if w.start != u.word.start {
        LeadIsAfter(line, limit, units, w, u);
        var lead := Lead(line, limit, u);
        CellsSplit(line, Reached(units), lead, u.word.end);
      }
    } else {
      CellsSplit(line, w.Base(), w.start, u.word.end);
      CellsSplit(line, w.Base(), w.end, u.word.end);
    }
  }

  lemma BaseIsBefore(line: Line, w: Layout)
    requires Ordered(line, w.Rows())
    ensures w.Base() <= w.start
  {
    assert w.Rows()[..|w.out|] == w.out;
  }

  lemma {:induction false} LaidFits(line: Line, limit: nat, units: seq<Unit>)
    requires Segmented(line, limit, units) && Bounded(line, limit, units)
    ensures AllFit(line, Laid(line, limit, units).Rows(), limit)
    decreases |units|
  {
    if units == [] {
      assert line[0..0] == [];
    } else {
      var before := units[..|units| - 1];
      var w := Laid(line, limit, before);
      LaidFits(line, limit, before);
      LaidTail(line, limit, before);
      LaidOrdered(line, limit, before);
      LaidCounted(line, limit, before);
      BaseIsBefore(line, w);
      assert Fits(line, units[|units| - 1].word, limit);
      PlaceFits(line, limit, before, w, units[|units| - 1]);
    }
  }

  // ---- breaks ----------------------------------------------------------

  /** Where the row before row `k` ended. */
  function RowBase(rows: seq<Row>, k: nat): nat
    requires k <= |rows|
  {
    if k == 0 then 0 else rows[k - 1].end
  }

  /** With the next row's first word, the row ending before `next` would not have fitted. */
  predicate Forced(line: Line, limit: nat, base: nat, next: nat) {
    base <= next <= |line| && Cells(line[base..WordEnd(line, next)]) > limit
  }

  /** Every row ends because the next word does not fit, counting the white space left out before it. */
  predicate AllForced(line: Line, limit: nat, rows: seq<Row>) {
    |rows| > 1 ==>
      && Forced(line, limit, RowBase(rows, |rows| - 2), rows[|rows| - 1].start)
      && AllForced(line, limit, rows[..|rows| - 1])
  }

  lemma ForcedPush(line: Line, limit: nat, rows: seq<Row>, row: Row)
    requires AllForced(line, limit, rows) && rows != []
    requires Forced(line, limit, RowBase(rows, |rows| - 1), row.start)
    ensures AllForced(line, limit, rows + [row])
  {
    assert (rows + [row])[..|rows|] == rows;
    assert RowBase(rows + [row], |rows| - 1) == RowBase(rows, |rows| - 1);
  }

  lemma ForcedLater(line: Line, limit: nat, base: nat, a: nat, b: nat)
    requires Forced(line, limit, base, a) && a <= b <= |line|
    ensures Forced(line, limit, base, b)
  {
    LaterEnd(line, a, b);
    CellsSplit(line, base, WordEnd(line, a), WordEnd(line, b));
  }

  lemma {:induction false} LaterEnd(line: Line, a: nat, b: nat)
    requires a <= b <= |line|
    ensures WordEnd(line, a) <= WordEnd(line, b)
    decreases |line| - a
  {
    if a < b && !line[a].blank {
      LaterEnd(line, a + 1, b);
    }
  }

  /** Moving the last row's start to the right keeps every break forced. */
  lemma ForcedReplace(line: Line, limit: nat, rows: seq<Row>, a: Row, b: Row)
    requires AllForced(line, limit, rows + [a]) && a.start <= b.start <= |line|
    ensures AllForced(line, limit, rows + [b])
  {
    assert (rows + [a])[..|rows|] == rows && (rows + [b])[..|rows|] == rows;
    if rows != [] {
      assert RowBase(rows + [a], |rows| - 1) == RowBase(rows + [b], |rows| - 1);
      ForcedLater(line, limit, RowBase(rows + [a], |rows| - 1), a.start, b.start);
    }
  }

  lemma {:induction false} WholeWord(line: Line, word: Row)
    requires Within(line, word) && NoneBlank(line, word)
    ensures word.end <= WordEnd(line, word.start)
    decreases word.end - word.start
  {
    if word.start < word.end {
      WholeWord(line, Row(word.start + 1, word.end));
    }
  }

  /** An overflowing word forces the break before it. */
  lemma OverflowForces(line: Line, limit: nat, units: seq<Unit>, w: Layout, u: Unit)
    requires Follows(line, limit, WordBefore(units, |units|), u)
    requires w.end == Reached(units) && Counted(line, w) && Overflows(line, limit, w, u)
    ensures Forced(line, limit, w.Base(), u.word.start)
  {
    UnitWidth(line, limit, units, u);
    CellsSplit(line, w.Base(), w.end, u.word.end);
    WholeWord(line, u.word);
    CellsSplit(line, w.Base(), u.word.end, WordEnd(line, u.word.start));
  }

  lemma PlaceForced(line: Line, limit: nat, units: seq<Unit>, w: Layout, u: Unit)
    requires Follows(line, limit, WordBefore(units, |units|), u)
    requires Tail(line, w, units) && Counted(line, w) && AllForced(line, limit, w.Rows())
    ensures AllForced(line, limit, Place(line, limit, w, u).Rows())
  {
    var row := Row(w.start, w.end);
    FollowsAfter(line, limit, units, u);
    if Overflows(line, limit, w, u) {
      OverflowForces(line, limit, units, w, u);
      ForcedPush(line, limit, w.Rows(), Row(u.word.start, u.word.end));
    } else if w.col == 0 && w.start != u.word.start {
      LeadIsAfter(line, limit, units, w, u);
      ForcedReplace(line, limit, w.out, row, Row(Lead(line, limit, u), u.word.end));
    } else {
      ForcedReplace(line, limit, w.out, row, Row(w.start, u.word.end));
    }
  }

  lemma {:induction false} LaidForced(line: Line, limit: nat, units: seq<Unit>)
    requires Segmented(line, limit, units)
    ensures AllForced(line, limit, Laid(line, limit, units).Rows())
    decreases |units|
  {
    if units == [] {
    } else {
      var before := units[..|units| - 1];
      LaidForced(line, limit, before);
      LaidTail(line, limit, before);
      LaidCounted(line, limit, before);
      PlaceForced(line, limit, before, Laid(line, limit, before), units[|units| - 1]);
    }
  }

  /** A word starts a row of its own exactly when the row holds something and everything since the
      end of the row before, white space left out between them included, is too wide with the word. */
  lemma OverflowsIff(line: Line, limit: nat, units: seq<Unit>, u: Unit)
    requires Segmented(line, limit, units) && Follows(line, limit, WordBefore(units, |units|), u)
    ensures var w := Laid(line, limit, units);
            && w.Base() <= w.start <= w.end <= u.word.start
            && (Overflows(line, limit, w, u) <==>
                  Cells(line[w.Base()..w.end]) > 0 && Cells(line[w.Base()..u.word.end]) > limit)
  {
    var w := Laid(line, limit, units);
    LaidTail(line, limit, units);
    LaidOrdered(line, limit, units);
    LaidCounted(line, limit, units);
    BaseIsBefore(line, w);
    UnitWidth(line, limit, units, u);
    CellsSplit(line, w.Base(), w.end, u.word.end);
  }

  /** The word starts a row of its own although the row it leaves still has room for it. */
  predicate BreaksNeedlessly(line: Line, limit: nat, w: Layout, u: Unit)
    requires WellFormed(line, u) && w.start <= u.word.end
  {
    Overflows(line, limit, w, u) && Cells(line[w.start..u.word.end]) <= limit
  }

  /** A row is left needlessly exactly when the word fits beside it but not beside what was left out
      before the row as well. */
  lemma NeedlessIff(line: Line, limit: nat, units: seq<Unit>, u: Unit)
    requires Segmented(line, limit, units) && Follows(line, limit, WordBefore(units, |units|), u)
    ensures var w := Laid(line, limit, units);
            && w.Base() <= w.start <= w.end <= u.word.start
            && var leftOut, row := Cells(line[w.Base()..w.start]), Cells(line[w.start..u.word.end]);
            (BreaksNeedlessly(line, limit, w, u) <==>
               Cells(line[w.Base()..w.end]) > 0 && row <= limit < leftOut + row)
  {
    OverflowsIff(line, limit, units, u);
    var w := Laid(line, limit, units);
    CellsSplit(line, w.Base(), w.start, u.word.end);
  }

  /** Every grapheme is one cell wide. */
  predicate SingleCells(s: Line) {
    forall g | g in s :: g.cells == 1
  }

  lemma {:induction false} SingleCellsCount(s: Line)
    requires SingleCells(s)
    ensures Cells(s) == |s|
  {
    if s != [] {
      SingleCellsCount(s[..|s| - 1]);
    }
  }

  /** One more word of a line of single cells. */
  lemma NextLaid(line: Line, limit: nat, units: seq<Unit>, u: Unit)
    requires Segmented(line, limit, units) && Follows(line, limit, WordBefore(units, |units|), u) && SingleCells(line)
    ensures Segmented(line, limit, units + [u])
    ensures Width(line, u.gap) + Width(line, u.word) == u.gap.end - u.gap.start + u.word.end - u.word.start
    ensures Laid(line, limit, units + [u]) == Place(line, limit, Laid(line, limit, units), u)
  {
    UnitPushed(line, limit, units, u);
    assert (units + [u])[..|units|] == units;
    SingleCellsCount(line[u.gap.start..u.gap.end]);
    SingleCellsCount(line[u.word.start..u.word.end]);
  }

  /** In rows of three cells the second word of `xx x x` starts a row, and the white space left out
      before it still counts. */
  lemma TwoWords(x: Grapheme, blank: Grapheme)
    requires x.cells == blank.cells == 1 && !x.blank && blank.blank
    ensures var line := [x, x, blank, x, blank, x];
            var units := [Unit(Row(0, 0), Row(0, 2)), Unit(Row(2, 3), Row(3, 4))];
            && Segmented(line, 3, units)
            && Laid(line, 3, units) == Layout([Row(0, 2)], 3, 4, 2)
  {
    var line := [x, x, blank, x, blank, x];
    var first, second := Unit(Row(0, 0), Row(0, 2)), Unit(Row(2, 3), Row(3, 4));
    NextLaid(line, 3, [], first);
    NextLaid(line, 3, [] + [first], second);
    assert [first, second] == [] + [first] + [second];
  }

  /** The last two words of `xx x x` are three cells wide together, yet in rows of three cells each
      gets a row of its own. */
  lemma NeedlessBreak(x: Grapheme, blank: Grapheme)
    requires x.cells == blank.cells == 1 && !x.blank && blank.blank
    ensures var line := [x, x, blank, x, blank, x];
            var units := [Unit(Row(0, 0), Row(0, 2)), Unit(Row(2, 3), Row(3, 4))];
            var last := Unit(Row(4, 5), Row(5, 6));
            && Segmented(line, 3, units) && Segmented(line, 3, units + [last])
            && Laid(line, 3, units + [last]).Rows() == [Row(0, 2), Row(3, 4), Row(5, 6)]
            && Laid(line, 3, units).start == 3
            && BreaksNeedlessly(line, 3, Laid(line, 3, units), last)
  {
    var line := [x, x, blank, x, blank, x];
    var units := [Unit(Row(0, 0), Row(0, 2)), Unit(Row(2, 3), Row(3, 4))];
    var last := Unit(Row(4, 5), Row(5, 6));
    TwoWords(x, blank);
    hide Laid;
    hide Segmented;
    NextLaid(line, 3, units, last);
    SingleCellsCount(line[3..6]);
  }

  // ---- nothing lost ---------------------------------------------------

  /** A word is left out when nothing has been counted for the row it started. */
  predicate Drops(line: Line, limit: nat, units: seq<Unit>)
    requires Segmented(line, limit, units)
  {
    && |units| > 1
    && (|| Drops(line, limit, units[..|units| - 1])
        || Laid(line, limit, units[..|units| - 1]).col == 0)
  }

  lemma {:induction false} OrderedWithin(line: Line, rows: seq<Row>)
    requires Ordered(line, rows)
    ensures AllWithin(line, rows)
  {
    if rows != [] {
      OrderedWithin(line, rows[..|rows| - 1]);
    }
  }

  /** The rows show the line up to `end`, or less if something was dropped. */
  predicate Faithful(line: Line, rows: seq<Row>, end: nat, dropped: bool) {
    && AllWithin(line, rows) && end <= |line|
    && if dropped then |Shown(line, rows)| < |ShownBy(line, Row(0, end))|
       else Shown(line, rows) == ShownBy(line, Row(0, end))
  }

  lemma ShownPush(line: Line, rows: seq<Row>, row: Row)
    requires AllWithin(line, rows) && Within(line, row)
    ensures AllWithin(line, rows + [row])
    ensures Shown(line, rows + [row]) == Shown(line, rows) + ShownBy(line, row)
  {
    assert (rows + [row])[..|rows|] == rows;
  }

  lemma BlanksHide(line: Line, r: Row)
    requires Within(line, r) && AllBlank(line, r)
    ensures ShownBy(line, r) == []
  {
    BlankShowsNothing(line[r.start..r.end]);
  }

  /** White space in front of a range adds nothing to what it shows. */
  lemma BlanksBefore(line: Line, a: nat, b: nat, c: nat)
    requires a <= b <= c <= |line| && AllBlank(line, Row(a, b))
    ensures ShownBy(line, Row(a, c)) == ShownBy(line, Row(b, c))
  {
    VisibleSplit(line, a, b, c);
    BlanksHide(line, Row(a, b));
  }

  lemma WordAfter(line: Line, start: nat, end: nat, word: Row)
    requires start <= end <= word.start && Within(line, word) && AllBlank(line, Row(end, word.start))
    ensures ShownBy(line, Row(start, word.end)) == ShownBy(line, Row(start, end)) + ShownBy(line, word)
  {
    VisibleSplit(line, start, end, word.end);
    BlanksBefore(line, end, word.start, word.end);
  }

  lemma FaithfulPush(line: Line, rows: seq<Row>, end: nat, dropped: bool, word: Row)
    requires Faithful(line, rows, end, dropped)
    requires end <= word.start && Within(line, word) && AllBlank(line, Row(end, word.start))
    ensures Faithful(line, rows + [word], word.end, dropped)
  {
    ShownPush(line, rows, word);
    WordAfter(line, 0, end, word);
  }

  lemma FaithfulExtend(line: Line, rows: seq<Row>, start: nat, end: nat, dropped: bool, word: Row)
    requires Faithful(line, rows + [Row(start, end)], end, dropped) && AllWithin(line, rows)
    requires start <= end <= word.start && Within(line, word) && AllBlank(line, Row(end, word.start))
    ensures Faithful(line, rows + [Row(start, word.end)], word.end, dropped)
  {
    ShownPush(line, rows, Row(start, end));
    ShownPush(line, rows, Row(start, word.end));
    WordAfter(line, 0, end, word);
    WordAfter(line, start, end, word);
  }

  lemma SomethingShows(line: Line, r: Row)
    requires Within(line, r) && r.start < r.end && !line[r.end - 1].blank
    ensures |ShownBy(line, r)| > 0
  {
    assert line[r.start..r.end][r.end - r.start - 1] == line[r.end - 1];
  }

  /** Restarting a row after its words loses them. */
  lemma RestartLoses(line: Line, rows: seq<Row>, row: Row, dropped: bool, start: nat, word: Row)
    requires Faithful(line, rows + [row], row.end, dropped) && AllWithin(line, rows)
    requires Within(line, row) && row.start < row.end && !line[row.end - 1].blank
    requires row.end <= start <= word.start && Within(line, word) && AllBlank(line, Row(row.end, word.start))
    ensures Faithful(line, rows + [Row(start, word.end)], word.end, true)
  {
    ShownPush(line, rows, row);
    ShownPush(line, rows, Row(start, word.end));
    WordAfter(line, 0, row.end, word);
    WordAfter(line, start, start, word);
    assert line[start..start] == [];
    SomethingShows(line, row);
  }

  /** The first row may start anywhere in the white space that leads the line. */
  lemma FirstRow(line: Line, start: nat, word: Row)
    requires start <= word.start && Within(line, word) && AllBlank(line, Row(0, word.start))
    ensures Faithful(line, [Row(start, word.end)], word.end, false)
  {
    ShownPush(line, [], Row(start, word.end));
    assert [] + [Row(start, word.end)] == [Row(start, word.end)];
    BlanksBefore(line, 0, start, word.end);
  }

  lemma PlaceFirst(line: Line, limit: nat, u: Unit)
    requires Follows(line, limit, None, u)
    ensures Faithful(line, Place(line, limit, Layout([], 0, 0, 0), u).Rows(), u.word.end, false)
  {
    var next := Place(line, limit, Layout([], 0, 0, 0), u);
    FirstRow(line, next.start, u.word);
    assert next.Rows() == [Row(next.start, u.word.end)];
  }

  lemma PlaceFaithful(line: Line, limit: nat, units: seq<Unit>, w: Layout, dropped: bool, u: Unit)
    requires units != [] && Follows(line, limit, WordBefore(units, |units|), u)
    requires Tail(line, w, units) && w.end > 0 && !line[w.end - 1].blank
    requires units[|units| - 1].word.start < w.end
    requires AllWithin(line, w.out) && Faithful(line, w.Rows(), w.end, dropped)
    ensures Faithful(line, Place(line, limit, w, u).Rows(), u.word.end, dropped || w.col == 0)
  {
    FollowsAfter(line, limit, units, u);
    var row := Row(w.start, w.end);
    if Overflows(line, limit, w, u) {
      FaithfulPush(line, w.Rows(), w.end, dropped, u.word);
    } else if w.col == 0 {
      LeadIsAfter(line, limit, units, w, u);
      RestartLoses(line, w.out, row, dropped, Lead(line, limit, u), u.word);
    } else {
      FaithfulExtend(line, w.out, w.start, w.end, dropped, u.word);
    }
  }

  lemma OutWithin(line: Line, w: Layout)
    requires Ordered(line, w.Rows())
    ensures AllWithin(line, w.out)
  {
    assert w.Rows()[..|w.out|] == w.out;
    OrderedWithin(line, w.out);
  }

  /** The rows show everything up to the last word exactly when nothing was dropped. */
  lemma {:induction false} LaidFaithful(line: Line, limit: nat, units: seq<Unit>)
    requires Segmented(line, limit, units) && units != []
    ensures Faithful(line, Laid(line, limit, units).Rows(), Reached(units), Drops(line, limit, units))
    decreases |units|
  {
    var before, u := units[..|units| - 1], units[|units| - 1];
    if before == [] {
      PlaceFirst(line, limit, u);
    } else {
      var w := Laid(line, limit, before);
      LaidFaithful(line, limit, before);
      LaidTail(line, limit, before);
      LaidOrdered(line, limit, before);
      OutWithin(line, w);
      LastIsVisible(line, limit, before);
      PlaceFaithful(line, limit, before, w, Drops(line, limit, before), u);
    }
  }

  // ---- where rows start ------------------------------------------------

  /** Every row but the first starts with a visible grapheme. */
  predicate StartsAtWords(line: Line, rows: seq<Row>) {
    |rows| > 1 ==>
      && rows[|rows| - 1].start < |line| && !line[rows[|rows| - 1].start].blank
      && StartsAtWords(line, rows[..|rows| - 1])
  }

  lemma StartsPush(line: Line, rows: seq<Row>, row: Row)
    requires StartsAtWords(line, rows) && row.start < |line| && !line[row.start].blank
    ensures StartsAtWords(line, rows + [row])
  {
    assert (rows + [row])[..|rows|] == rows;
  }

  lemma StartsReplace(line: Line, rows: seq<Row>, a: Row, b: Row)
    requires StartsAtWords(line, rows + [a]) && a.start == b.start
    ensures StartsAtWords(line, rows + [b])
  {
    assert (rows + [a])[..|rows|] == rows && (rows + [b])[..|rows|] == rows;
  }

  lemma PlaceStarts(line: Line, limit: nat, w: Layout, u: Unit)
    requires WellFormed(line, u) && w.col > 0 && StartsAtWords(line, w.Rows())
    ensures StartsAtWords(line, Place(line, limit, w, u).Rows())
    ensures Place(line, limit, w, u).Rows()[0].start == w.Rows()[0].start
  {
    if Overflows(line, limit, w, u) {
      StartsPush(line, w.Rows(), Row(u.word.start, u.word.end));
    } else {
      StartsReplace(line, w.out, Row(w.start, w.end), Row(w.start, u.word.end));
    }
  }

  /** Rows start at words, and the first one at its white space if the first word fits beside it. */
  lemma {:induction false} LaidStarts(line: Line, limit: nat, units: seq<Unit>)
    requires Segmented(line, limit, units) && units != [] && !Drops(line, limit, units)
    ensures StartsAtWords(line, Laid(line, limit, units).Rows())
    ensures WellFormed(line, units[0])
    ensures Laid(line, limit, units).Rows()[0].start == Lead(line, limit, units[0])
    decreases |units|
  {
    var before, u := units[..|units| - 1], units[|units| - 1];
    if before == [] {
      assert Laid(line, limit, before) == Layout([], 0, 0, 0);
      assert Follows(line, limit, None, u);
    } else {
      LaidStarts(line, limit, before);
      PlaceStarts(line, limit, Laid(line, limit, before), u);
    }
  }
}

/** Word motions and line motions of the caret, and exactly when they stay outside payloads. */
module Motions {
  import opened Wrappers
  import opened Projections
  import opened ProjectionLaws
  import opened Drafts
  import opened DraftLaws

  /** Unicode white space. */
  predicate IsBlank(c: char) {
    var u := c as int;
    || 0x9 <= u <= 0xD || u == 0x20 || u == 0x85 || u == 0xA0 || u == 0x1680
    || 0x2000 <= u <= 0x200A || u == 0x2028 || u == 0x2029 || u == 0x202F || u == 0x205F || u == 0x3000
  }

  // ---- words ----------------------------------------------------------

  function BlanksLeft(text: string, at: nat): (r: nat)
    requires at <= |text|
    ensures r <= at
    ensures forall j | r <= j < at :: IsBlank(text[j])
    ensures 0 < r ==> !IsBlank(text[r - 1])
  {
    if at == 0 || !IsBlank(text[at - 1]) then at else BlanksLeft(text, at - 1)
  }

  function BlanksRight(text: string, at: nat): (r: nat)
    requires at <= |text|
    ensures at <= r <= |text|
    ensures forall j | at <= j < r :: IsBlank(text[j])
    ensures r < |text| ==> !IsBlank(text[r])
    decreases |text| - at
  {
    if at == |text| || !IsBlank(text[at]) then at else BlanksRight(text, at + 1)
  }

  /** Left over one word: stops at a blank or jumps over a chip that ends there. */
  function WordLeftFrom(text: string, pastes: seq<Paste>, at: nat): nat
    requires at <= |text|
  {
    if at == 0 then 0
    else match FindEnd(pastes, at)
      case Some(p) => p.start
      case None => if IsBlank(text[at - 1]) then at else WordLeftFrom(text, pastes, at - 1)
  }

  function WordLeft(d: Draft): nat
    requires d.cursor <= |d.text|
  {
    match FindEnd(d.pastes, d.cursor)
    case Some(p) => p.start
    case None => WordLeftFrom(d.text, d.pastes, BlanksLeft(d.text, d.cursor))
  }

  /** Right over one word: stops one short of a chip that starts next. */
  function WordRightFrom(text: string, pastes: seq<Paste>, at: nat): nat
    requires at <= |text|
    decreases |text| - at
  {
    if at == |text| || FindStart(pastes, at + 1).Some? || IsBlank(text[at]) then at
    else WordRightFrom(text, pastes, at + 1)
  }

  function PastWord(d: Draft): nat
    requires d.cursor <= |d.text|
  {
    match FindStart(d.pastes, d.cursor)
    case Some(p) => p.end
    case None => WordRightFrom(d.text, d.pastes, d.cursor)
  }

  function WordRight(d: Draft): nat
    requires d.cursor <= |d.text| && PastWord(d) <= |d.text|
  {
    BlanksRight(d.text, PastWord(d))
  }

  /** The end of the deletion to the right: over blanks, then one word or one chip. */
  function WordEndFrom(text: string, pastes: seq<Paste>, at: nat): (r: nat)
    requires at <= |text|
    ensures at <= r <= |text|
    decreases |text| - at
  {
    if at == |text| || FindStart(pastes, at).Some? || IsBlank(text[at]) then at
    else WordEndFrom(text, pastes, at + 1)
  }

  function WordEnd(d: Draft): nat
    requires d.cursor <= |d.text|
  {
    var at := BlanksRight(d.text, d.cursor);
    match FindStart(d.pastes, at)
    case Some(p) => p.end
    case None => WordEndFrom(d.text, d.pastes, at)
  }

  lemma {:induction false} WordLeftFromStop(text: string, pastes: seq<Paste>, at: nat)
    requires Fit(pastes, |text|) && at <= |text| && Stop(pastes, at)
    ensures Stop(pastes, WordLeftFrom(text, pastes, at)) && WordLeftFrom(text, pastes, at) <= at
  {
    if at != 0 {
      LeftIsStop(pastes, at);
      if FindEnd(pastes, at).None? && !IsBlank(text[at - 1]) {
        WordLeftFromStop(text, pastes, at - 1);
      }
    }
  }

  /** From inside a payload the word ends at the nearest blank of the payload, if it has one before. */
  lemma {:induction false} WordLeftFromInside(text: string, pastes: seq<Paste>, i: nat, at: nat)
    requires Fit(pastes, |text|) && i < |pastes| && pastes[i].Inside(at)
    ensures WordLeftFrom(text, pastes, at) <= at
    ensures if exists j :: pastes[i].start <= j < at && IsBlank(text[j])
            then pastes[i].Inside(WordLeftFrom(text, pastes, at))
            else Stop(pastes, WordLeftFrom(text, pastes, at))
  {
    assert FindEnd(pastes, at).None? by {
      if FindEnd(pastes, at).Some? {
        ChipEndsAreStops(pastes, FindEnd(pastes, at).value);
      }
    }
    if !IsBlank(text[at - 1]) {
      if at - 1 == pastes[i].start {
        assert pastes[i] in pastes;
        ChipEndsAreStops(pastes, pastes[i]);
        WordLeftFromStop(text, pastes, at - 1);
      } else {
        WordLeftFromInside(text, pastes, i, at - 1);
      }
    }
  }

  /** The payload that the blanks left of the caret run into, up to a word that follows a blank. */
  ghost predicate BlanksEnterLeft(d: Draft)
    requires d.cursor <= |d.text|
  {
    var at := BlanksLeft(d.text, d.cursor);
    && FindEnd(d.pastes, d.cursor).None?
    && exists i, j :: 0 <= i < |d.pastes| && d.pastes[i].Inside(at) && d.pastes[i].start <= j < at <= |d.text|
                      && IsBlank(d.text[j])
  }

  /** Moving a word left leaves the caret inside a payload exactly when the blanks to its left run
      into a payload that also has a blank before the word they lead to. */
  lemma WordLeftIsStopIff(d: Draft)
    requires Valid(d)
    ensures Stop(d.pastes, WordLeft(d)) <==> !BlanksEnterLeft(d)
    ensures WordLeft(d) <= d.cursor
    ensures 0 < d.cursor ==> WordLeft(d) < d.cursor
  {
    var at := BlanksLeft(d.text, d.cursor);
    match FindEnd(d.pastes, d.cursor)
    case Some(p) => ChipEndsAreStops(d.pastes, p);
    case None =>
      if i :| 0 <= i < |d.pastes| && d.pastes[i].Inside(at) {
        WordLeftFromInside(d.text, d.pastes, i, at);
        InsideOne(d.pastes, at);
      } else {
        WordLeftFromStop(d.text, d.pastes, at);
      }
      if 0 < d.cursor && at == d.cursor {
        assert !IsBlank(d.text[at - 1]);
        WordLeftFromLess(d.text, d.pastes, at);
      }
  }

  lemma InsideOne(pastes: seq<Paste>, at: nat)
    requires Ordered(pastes, 0, 0)
    ensures forall i, j | 0 <= i < |pastes| && 0 <= j < |pastes| && pastes[i].Inside(at) && pastes[j].Inside(at) ::
              i == j
  {
  }

  lemma WordLeftFromLess(text: string, pastes: seq<Paste>, at: nat)
    requires Fit(pastes, |text|) && 0 < at <= |text| && !IsBlank(text[at - 1]) && Stop(pastes, at)
    ensures WordLeftFrom(text, pastes, at) < at
  {
    LeftIsStop(pastes, at);
    if FindEnd(pastes, at).None? {
      WordLeftFromStop(text, pastes, at - 1);
    }
  }

  lemma {:induction false} WordRightFromStop(text: string, pastes: seq<Paste>, at: nat)
    requires Fit(pastes, |text|) && at <= |text| && Stop(pastes, at) && FindStart(pastes, at).None?
    ensures Stop(pastes, WordRightFrom(text, pastes, at)) && at <= WordRightFrom(text, pastes, at) <= |text|
    decreases |text| - at
  {
    RightIsStop(pastes, at);
    if at < |text| && FindStart(pastes, at + 1).None? && !IsBlank(text[at]) {
      WordRightFromStop(text, pastes, at + 1);
    }
  }

  lemma PastWordIsStop(d: Draft)
    requires Valid(d)
    ensures Stop(d.pastes, PastWord(d)) && d.cursor <= PastWord(d) <= |d.text|
  {
    match FindStart(d.pastes, d.cursor)
    case Some(p) =>
      ChipEndsAreStops(d.pastes, p);
      var i :| 0 <= i < |d.pastes| && d.pastes[i] == p;
    case None => WordRightFromStop(d.text, d.pastes, d.cursor);
  }

  /** A payload that the blanks behind the word run into but not through. */
  ghost predicate BlanksEnterRight(d: Draft)
    requires d.cursor <= |d.text| && PastWord(d) <= |d.text| && Fit(d.pastes, |d.text|)
  {
    exists i :: 0 <= i < |d.pastes| && PastWord(d) <= d.pastes[i].start
                && (forall j | PastWord(d) <= j <= d.pastes[i].start :: IsBlank(d.text[j]))
                && (exists j :: d.pastes[i].start < j < d.pastes[i].end && !IsBlank(d.text[j]))
  }

  lemma RunReaches(text: string, from: nat, to: nat)
    requires from <= to < |text| && forall j | from <= j <= to :: IsBlank(text[j])
    ensures to < BlanksRight(text, from)
  {
  }

  lemma EnterRightLands(d: Draft, i: nat)
    requires Valid(d) && PastWord(d) <= |d.text| && i < |d.pastes| && PastWord(d) <= d.pastes[i].start
    requires forall j | PastWord(d) <= j <= d.pastes[i].start :: IsBlank(d.text[j])
    requires exists j :: d.pastes[i].start < j < d.pastes[i].end && !IsBlank(d.text[j])
    ensures d.pastes[i].Inside(WordRight(d))
  {
    RunReaches(d.text, PastWord(d), d.pastes[i].start);
    var j :| d.pastes[i].start < j < d.pastes[i].end && !IsBlank(d.text[j]);
    assert WordRight(d) <= j;
  }

  lemma BlanksLandInside(d: Draft)
    requires Valid(d) && PastWord(d) <= |d.text| && BlanksEnterRight(d)
    ensures !Stop(d.pastes, WordRight(d))
  {
    var from := PastWord(d);
    var i :| 0 <= i < |d.pastes| && from <= d.pastes[i].start
             && (forall j | from <= j <= d.pastes[i].start :: IsBlank(d.text[j]))
             && (exists j :: d.pastes[i].start < j < d.pastes[i].end && !IsBlank(d.text[j]));
    EnterRightLands(d, i);
  }

  /** Moving a word right leaves the caret inside a payload exactly when a payload that is not all
      blank begins with the blanks the motion skips. */
  lemma WordRightIsStopIff(d: Draft)
    requires Valid(d)
    ensures PastWord(d) <= |d.text|
    ensures Stop(d.pastes, WordRight(d)) <==> !BlanksEnterRight(d)
  {
    PastWordIsStop(d);
    var from, at := PastWord(d), WordRight(d);
    if i :| 0 <= i < |d.pastes| && d.pastes[i].Inside(at) {
      assert !d.pastes[i].Inside(from);
      assert from <= d.pastes[i].start;
      assert !IsBlank(d.text[at]);
    }
    if BlanksEnterRight(d) {
      BlanksLandInside(d);
    }
  }

  // ---- lines of the display -------------------------------------------

  /** The first `c`, or the length. */
  function Find(text: string, c: char): (i: nat)
    ensures i <= |text|
    ensures i < |text| ==> text[i] == c
    ensures forall j | 0 <= j < i :: text[j] != c
  {
    if text == [] || text[0] == c then 0 else 1 + Find(text[1..], c)
  }

  /** Where display line `line` starts; one past the end when there is no such line. */
  function LineOffset(display: string, line: nat): nat
    decreases line
  {
    if line == 0 then 0
    else
      var next := Find(display, '\n') + 1;
      if next > |display| then next else next + LineOffset(display[next..], line - 1)
  }

  /** The display line of a display offset. */
  function LineAt(display: string, offset: nat): nat
    requires offset <= |display|
  {
    Newlines(display[..offset])
  }

  /** Any motion through the display lands on a stop inside the buffer. */
  lemma DisplayMotionIsStop(d: Draft, display: nat)
    requires Valid(d) && display <= |Shown(d.text, d.pastes)|
    ensures Raw(d.pastes, display) <= |d.text| && Stop(d.pastes, Raw(d.pastes, display))
  {
    RawIsInBounds(d.text, d.pastes, display);
    DisplayUndoesRaw(d.pastes, display);
  }

  /** Where the caret goes for a display offset; on a valid draft always a stop. */
  function Landing(d: Draft, display: nat): (at: nat)
    requires Fit(d.pastes, |d.text|) && display <= |Shown(d.text, d.pastes)|
    ensures Valid(d) ==> at <= |d.text| && Stop(d.pastes, at)
  {
    assert Valid(d) ==> Raw(d.pastes, display) <= |d.text| && Stop(d.pastes, Raw(d.pastes, display)) by {
      if Valid(d) {
        DisplayMotionIsStop(d, display);
      }
    }
    Raw(d.pastes, display)
  }

  function LineStart(d: Draft, line: nat): (at: nat)
    requires Fit(d.pastes, |d.text|)
    ensures Valid(d) ==> at <= |d.text| && Stop(d.pastes, at)
  {
    var display := Shown(d.text, d.pastes);
    Landing(d, Min(LineOffset(display, line), |display|))
  }

  function LineEnd(d: Draft, line: nat): (at: nat)
    requires Fit(d.pastes, |d.text|)
    ensures Valid(d) ==> at <= |d.text| && Stop(d.pastes, at)
  {
    var display := Shown(d.text, d.pastes);
    var offset := Min(LineOffset(display, line), |display|);
    Landing(d, offset + Find(display[offset..], '\n'))
  }

  /** How much of a row fits into `column` cells. */
  function Fitting(row: string, at: nat, used: nat, column: nat, cells: char -> nat): (r: nat)
    requires at <= |row|
    ensures at <= r <= |row|
    decreases |row| - at
  {
    if at == |row| || used + cells(row[at]) > column then at
    else Fitting(row, at + 1, used + cells(row[at]), column, cells)
  }

  function OffsetAtColumn(d: Draft, line: nat, column: nat, cells: char -> nat): (at: nat)
    requires Fit(d.pastes, |d.text|)
    ensures Valid(d) ==> at <= |d.text| && Stop(d.pastes, at)
  {
    var display := Shown(d.text, d.pastes);
    var start := Min(LineOffset(display, line), |display|);
    var row := display[start..][..Find(display[start..], '\n')];
    Landing(d, start + Fitting(row, 0, 0, column, cells))
  }

  lemma {:induction false} NewlinesSplit(text: string, n: nat)
    requires n <= |text|
    ensures Newlines(text) == Newlines(text[..n]) + Newlines(text[n..])
  {
    if n == |text| {
      assert text[..n] == text;
    } else {
      NewlinesSplit(text[..|text| - 1], n);
      assert text[..|text| - 1][..n] == text[..n];
      assert text[..|text| - 1][n..] == text[n..][..|text[n..]| - 1];
    }
  }

  lemma {:induction false} NoNewlines(text: string)
    requires forall j | 0 <= j < |text| :: text[j] != '\n'
    ensures Newlines(text) == 0
  {
    if text != [] {
      NoNewlines(text[..|text| - 1]);
    }
  }

  /** A line that exists starts inside the display. */
  lemma {:induction false} LineOffsetExists(display: string, line: nat)
    requires line <= Newlines(display)
    ensures LineOffset(display, line) <= |display|
    decreases line
  {
    if line != 0 {
      var at := Find(display, '\n');
      if at == |display| {
        NoNewlines(display);
      } else {
        NewlinesSplit(display, at + 1);
        NoNewlines(display[..at]);
        assert display[..at + 1][..at] == display[..at];
        LineOffsetExists(display[at + 1..], line - 1);
      }
    }
  }

  /** The caret in the display. */
  function CursorOffset(d: Draft): (offset: nat)
    requires Fit(d.pastes, |d.text|)
    ensures offset <= |Shown(d.text, d.pastes)|
  {
    Max(0, Min(Display(d.pastes, d.cursor), |Shown(d.text, d.pastes)|))
  }

  /** The display line of the caret. */
  function CursorLine(d: Draft): nat
    requires Fit(d.pastes, |d.text|)
  {
    LineAt(Shown(d.text, d.pastes), CursorOffset(d))
  }

  function Width(text: string, cells: char -> nat): nat {
    if text == [] then 0 else Width(text[..|text| - 1], cells) + cells(text[|text| - 1])
  }

  function CursorColumn(d: Draft, cells: char -> nat): nat
    requires Fit(d.pastes, |d.text|)
  {
    var display := Shown(d.text, d.pastes);
    Width(display[Min(LineOffset(display, CursorLine(d)), CursorOffset(d))..CursorOffset(d)], cells)
  }

  lemma Slices(text: string, a: nat, b: nat)
    requires a <= b <= |text|
    ensures text[..b][..a] == text[..a] && text[..b][a..] == text[a..][..b - a]
  {
  }

  lemma LineAtFirst(display: string, offset: nat)
    requires offset <= Find(display, '\n')
    ensures LineAt(display, offset) == 0
  {
    NoNewlines(display[..offset]);
  }

  lemma LineAtLater(display: string, offset: nat)
    requires Find(display, '\n') < offset <= |display|
    ensures var next := Find(display, '\n') + 1;
            LineAt(display, offset) == 1 + LineAt(display[next..], offset - next)
  {
    var at := Find(display, '\n');
    NewlinesSplit(display[..offset], at + 1);
    Slices(display, at + 1, offset);
    Slices(display, at, at + 1);
    NoNewlines(display[..at]);
  }

  /** The line of an offset starts at or before it. */
  lemma {:induction false} LineOffsetBefore(display: string, offset: nat)
    requires offset <= |display|
    ensures LineOffset(display, LineAt(display, offset)) <= offset
    decreases |display|
  {
    hide LineAt;
    hide Newlines;
    var at := Find(display, '\n');
    if offset <= at {
      LineAtFirst(display, offset);
    } else {
      LineAtLater(display, offset);
      LineOffsetBefore(display[at + 1..], offset - (at + 1));
    }
  }

  /** On a valid draft no bound of the line motions ever acts: the caret is shown where the projection
      puts it, its line starts at or before it, and every line up to the last starts inside the display. */
  lemma LinesExist(d: Draft, line: nat)
    requires Valid(d)
    ensures var display := Shown(d.text, d.pastes);
            && CursorOffset(d) == Display(d.pastes, d.cursor)
            && LineOffset(display, CursorLine(d)) <= CursorOffset(d)
            && CursorLine(d) <= Newlines(display)
            && (line <= Newlines(display) ==> LineOffset(display, line) <= |display|)
  {
    var display := Shown(d.text, d.pastes);
    DisplayShowsText(d.text, d.pastes, d.cursor);
    LineOffsetBefore(display, CursorOffset(d));
    NewlinesSplit(display, CursorOffset(d));
    if line <= Newlines(display) {
      LineOffsetExists(display, line);
    }
  }

  // ---- word motions that enter a paste ---------------------------------

  const Nothing := Draft("", 0, None, [])

  lemma TypeAtEnd(d: Draft, added: string)
    requires Fit(d.pastes, |d.text|) && d.cursor == |d.text| && d.anchor.None?
    ensures d.Type(added) == Draft(d.text + added, |d.text + added|, None, d.pastes)
  {
    assert d.text[..d.cursor] + added + d.text[d.cursor..] == d.text + added;
    assert Shifted(d.pastes, d.cursor, |added|) == d.pastes;
  }

  /** A large text pasted at the end becomes a chip behind the others. */
  lemma PasteAtEnd(d: Draft, added: string)
    requires Fit(d.pastes, |d.text|) && d.cursor == |d.text| && d.anchor.None? && LineCount(added) > TOKEN_LINES
    ensures d.TypePasted(added) == Draft(d.text + added, |d.text + added|, None,
                                         d.pastes + [Paste(|d.text|, |d.text + added|, LineCount(added), |added|)])
  {
    TypeAtEnd(d, added);
    assert (d.text + added)[|d.text|..|d.text + added|] == added;
  }

  lemma {:induction false} OnlyNewlines(text: string)
    requires forall j | 0 <= j < |text| :: text[j] == '\n'
    ensures Newlines(text) == |text|
  {
    if text != [] {
      OnlyNewlines(text[..|text| - 1]);
    }
  }

  function LineEnds(n: nat): (text: string)
    ensures |text| == n && forall j | 0 <= j < n :: text[j] == '\n'
  {
    seq(n, i => '\n')
  }

  /** Two words and thirty line ends. */
  function Pasted(): (text: string)
    ensures |text| == 33 && text[0] == 'a' && text[1] == ' ' && text[2] == 'b'
    ensures forall j | 3 <= j < 33 :: text[j] == '\n'
  {
    "a b" + LineEnds(30)
  }

  lemma PastedLines()
    ensures LineCount(Pasted()) == 30
  {
    var text := Pasted();
    NewlinesSplit(text, 3);
    assert text[..3] == ['a', ' ', 'b'] && text[3..] == LineEnds(30);
    NoNewlines(text[..3]);
    OnlyNewlines(text[3..]);
  }

  const FirstChip := Paste(0, 33, 30, 33)
  const SecondChip := Paste(34, 67, 30, 33)

  function PastedDraft(): Draft {
    Draft(Pasted() + " ", 34, None, [FirstChip])
  }

  function TwicePastedDraft(): Draft {
    Draft(Pasted() + " " + Pasted(), 34, None, [FirstChip, SecondChip])
  }

  /** This draft comes of pasting the text and typing a space. */
  lemma PastedDraftIs()
    ensures Nothing.TypePasted(Pasted()).Type(" ") == PastedDraft() && Valid(PastedDraft())
  {
    PastedLines();
    hide LineCount;
    PasteAtEnd(Nothing, Pasted());
    TypeAtEnd(Nothing.TypePasted(Pasted()), " ");
    assert [] + Pasted() == Pasted();
    assert (Pasted() + " ")[0..33] == Pasted();
  }

  /** And this one of pasting it again and stepping left, over the new chip. */
  lemma TwicePastedDraftIs()
    ensures var d := PastedDraft().TypePasted(Pasted()); d.(cursor := d.StepLeft()) == TwicePastedDraft()
    ensures Valid(TwicePastedDraft())
  {
    PastedLines();
    hide LineCount;
    PasteAtEnd(PastedDraft(), Pasted());
    hide Draft.TypePasted;
    var pastes := [FirstChip, SecondChip];
    assert [FirstChip] + [SecondChip] == pastes;
    var text := Pasted() + " " + Pasted();
    assert text[0..33] == Pasted() && text[34..67] == Pasted();
    assert FindEnd(pastes, 67) == Some(SecondChip);
  }

  /** From behind the pasted text and one more blank, a word left leads into the payload. */
  lemma PastedMotion(d: Draft)
    requires Pasted() <= d.text && |d.text| >= 34 && d.text[33] == ' ' && d.cursor == 34
    requires d.pastes == [FirstChip] || d.pastes == [FirstChip, SecondChip]
    ensures WordLeft(d) == 2
  {
    var text, r := d.text, BlanksLeft(d.text, 34);
    assert forall j | 0 <= j < 33 :: text[j] == Pasted()[j];
    assert IsBlank(' ') && IsBlank('\n') && !IsBlank('b');
    assert forall j | 3 <= j < 34 :: IsBlank(text[j]);
    assert r == 3;
    forall at | at == 34 || at == 3 || at == 2
      ensures FindEnd(d.pastes, at).None?
    {
    }
    assert WordLeftFrom(text, d.pastes, 3) == WordLeftFrom(text, d.pastes, 2) == 2;
  }

  /** Moving a word left from there puts the caret into the chip, and it is shown behind the chip's token
      although it left the end of the payload. */
  lemma WordLeftCanEnter()
    ensures var d := PastedDraft(); var at := WordLeft(d);
            && Valid(d) && FirstChip.Inside(at) && !Stop(d.pastes, at)
            && Display(d.pastes, at) == Display(d.pastes, FirstChip.end) != Display(d.pastes, FirstChip.start)
  {
    PastedDraftIs();
    hide Draft.TypePasted;
    var d := PastedDraft();
    PastedMotion(d);
    hide WordLeft;
    hide Paste.Label;
    assert d.pastes[0] == FirstChip;
    InteriorDisplay(d.pastes, 0, 2);
    InteriorSnapsIff(d.pastes, 0, 2);
  }

  /** From between the two chips it enters the first so early that the display offset of the caret falls
      below zero. */
  lemma WordLeftCanUnderflow()
    ensures var d := TwicePastedDraft();
            Valid(d) && FirstChip.Inside(WordLeft(d)) && Display(d.pastes, WordLeft(d)) < 0
  {
    TwicePastedDraftIs();
    hide Draft.TypePasted;
    var d := TwicePastedDraft();
    PastedMotion(d);
    PastedLabel(FirstChip);
    hide WordLeft;
    hide Paste.Label;
    assert d.pastes[0] == FirstChip;
    InteriorInRangeIff(d.pastes, 0, 2);
    assert Display(d.pastes, 0) == 0;
  }

  lemma PastedLabel(p: Paste)
    requires p.lines == 30
    ensures |p.Label(1)| == 20
  {
    assert |Decimal(30)| == 2 && |Decimal(1)| == 1;
  }

  /** Eleven line ends and a word. */
  function Indented(): (text: string)
    ensures |text| == 12 && text[11] == 'b'
    ensures forall j | 0 <= j < 11 :: text[j] == '\n'
  {
    LineEnds(11) + "b"
  }

  const IndentedChip := Paste(2, 14, 12, 12)

  function TypedAndPastedDraft(): Draft {
    Draft("a " + Indented(), 0, None, [IndentedChip])
  }

  /** This draft comes of typing a word and a space, pasting that text and going to the start. */
  lemma TypedAndPastedDraftIs()
    ensures Nothing.Type("a ").TypePasted(Indented()).(cursor := 0) == TypedAndPastedDraft()
    ensures Valid(TypedAndPastedDraft())
  {
    var text := Indented();
    NewlinesSplit(text, 11);
    assert text[..11] == LineEnds(11) && text[11..] == ['b'];
    OnlyNewlines(text[..11]);
    NoNewlines(text[11..]);
    assert LineCount(text) == 12;
    hide LineCount;
    TypeAtEnd(Nothing, "a ");
    PasteAtEnd(Nothing.Type("a "), text);
    assert [] + "a " == "a ";
    assert ("a " + text)[2..14] == text;
  }

  /** Moving a word right from there enters the chip as well. */
  lemma WordRightCanEnter()
    ensures var d := TypedAndPastedDraft();
            Valid(d) && PastWord(d) <= |d.text| && IndentedChip.Inside(WordRight(d)) && !Stop(d.pastes, WordRight(d))
  {
    TypedAndPastedDraftIs();
    hide Draft.TypePasted;
    hide Draft.Type;
    var d := TypedAndPastedDraft();
    assert FindStart(d.pastes, 0).None? && FindStart(d.pastes, 1).None? && FindStart(d.pastes, 2).Some?;
    assert IsBlank(' ') && IsBlank('\n') && !IsBlank('a') && !IsBlank('b');
    assert d.text[0] == 'a' && d.text[1] == ' ' && d.text[13] == 'b';
    assert PastWord(d) == WordRightFrom(d.text, d.pastes, 0) == 1;
    assert forall j | 1 <= j <= d.pastes[0].start :: IsBlank(d.text[j]);
    EnterRightLands(d, 0);
  }
}

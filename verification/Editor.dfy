/**
 The composer as a value: a draft with gesture-based undo and redo, and recall of submitted
 prompts. Text given to it is already normalised.
 */
module Editors {
  import opened Wrappers
  import opened Projections
  import opened Drafts
  import opened Motions

  const UNDO_STEPS: nat := 200
  const UNDO_BYTES: nat := 8 * 1024 * 1024
  const HISTORY_STEPS: nat := 100

  /** A submitted prompt, or the draft set aside while recalling one. */
  datatype Entry = Entry(text: string, pastes: seq<Paste>, rollback: Option<(seq<Draft>, seq<Draft>)>)

  const NoEntry := Entry("", [], None)

  function TextBytes(steps: seq<Draft>): nat {
    if steps == [] then 0 else |steps[0].text| + TextBytes(steps[1..])
  }

  /** The undo steps kept after a push: the newest ones within both bounds, at least one. */
  function Trim(steps: seq<Draft>): seq<Draft> {
    if |steps| > UNDO_STEPS || (TextBytes(steps) > UNDO_BYTES && |steps| > 1) then Trim(steps[1..]) else steps
  }

  datatype Motion = Left | Right | Home | End | Up | Down | WordLeft | WordRight

  datatype Editor = Editor(
    draft: Draft,
    column: Option<nat>,
    undo: seq<Draft>,
    redo: seq<Draft>,
    gesture: Option<Draft>,
    history: seq<Entry>,
    recall: Option<nat>,
    saved: Entry,
    version: nat)
  {
    // ---- undo ---------------------------------------------------------

    function TakeSnapshot(): Editor {
      if gesture.Some? then this else this.(redo := [], gesture := Some(draft))
    }

    /** Ends the open gesture as one undo step, unless it left the text as it was. */
    function CloseGesture(): Editor {
      match gesture
      case None => this
      case Some(before) =>
        if before.text == draft.text then this.(gesture := None)
        else this.(gesture := None, undo := Trim(undo + [before]), redo := [])
    }

    function Commit(): Editor {
      this.(recall := None).CloseGesture()
    }

    function Restored(step: Draft): Editor {
      this.(draft := step, version := version + 1, column := None)
    }

    function Undo(): Editor {
      var closed := Commit();
      if closed.undo == [] then closed
      else
        var last := |closed.undo| - 1;
        closed.(undo := closed.undo[..last], redo := closed.redo + [closed.draft]).Restored(closed.undo[last])
    }

    function Redo(): Editor {
      if redo == [] then this
      else
        var last := |redo| - 1;
        this.(redo := redo[..last], undo := undo + [draft]).Restored(redo[last])
    }

    // ---- editing ------------------------------------------------------

    function Edited(after: Draft, changes: nat): Editor {
      this.(draft := after, version := version + changes, column := None)
    }

    /** Replacing a selection changes the text twice. */
    function Changes(): nat {
      if draft.IsSelecting() then 2 else 1
    }

    function Insert(text: string): Editor {
      if text == "" then this else TakeSnapshot().Edited(draft.TypePasted(text), Changes()).Commit()
    }

    function Newline(): Editor {
      TakeSnapshot().Edited(draft.Type("\n"), Changes()).Commit()
    }

    /** Typing leaves the gesture open, so consecutive characters form one step. */
    function TypeChar(c: char): Editor {
      if c == '\n' || c == '\r' then Newline() else TakeSnapshot().Edited(draft.Type([c]), Changes())
    }

    function DeleteRange(start: nat, end: nat, snapshot: bool): Editor {
      if end <= start then this
      else (if snapshot then TakeSnapshot() else this).Edited(draft.Erase(start, end), 1).Commit()
    }

    function DeleteSelection(): Editor {
      if draft.IsSelecting() then Commit().DeleteRange(draft.SelectionStart(), draft.SelectionEnd(), true) else this
    }

    function At(cursor: nat): Editor {
      this.(draft := draft.(cursor := cursor))
    }

    function Backspace(): Editor {
      if draft.IsSelecting() then DeleteSelection()
      else if draft.cursor == 0 then this
      else TakeSnapshot().DeleteRange(draft.StepLeft(), draft.cursor, false).At(draft.StepLeft())
    }

    /** Deleting forward commits the open gesture but takes no snapshot of its own. */
    function Delete(): Editor {
      if draft.IsSelecting() then DeleteSelection()
      else if draft.cursor >= |draft.text| then Commit()
      else Commit().DeleteRange(draft.cursor, draft.StepRight(), false).At(draft.cursor)
    }

    function DeleteWordLeft(): Editor
      requires draft.cursor <= |draft.text|
    {
      if draft.IsSelecting() then DeleteSelection()
      else Commit().Resting().DeleteRange(Motions.WordLeft(draft), draft.cursor, true)
    }

    function DeleteWordRight(): Editor
      requires draft.cursor <= |draft.text|
    {
      if draft.IsSelecting() then DeleteSelection() else Commit().DeleteRange(draft.cursor, WordEnd(draft), true)
    }

    function DeleteToLineStart(): Editor
      requires Fit(draft.pastes, |draft.text|)
    {
      if draft.IsSelecting() then DeleteSelection()
      else Commit().DeleteRange(LineStart(draft, CursorLine(draft)), draft.cursor, true)
    }

    function DeleteToLineEnd(): Editor
      requires Fit(draft.pastes, |draft.text|)
    {
      if draft.IsSelecting() then DeleteSelection()
      else Commit().DeleteRange(draft.cursor, LineEnd(draft, CursorLine(draft)), true)
    }

    // ---- motion -------------------------------------------------------

    /** The caret without selection or remembered column. */
    function Resting(): Editor {
      this.(draft := draft.(anchor := None), column := None)
    }

    function MoveTo(line: nat, cells: char -> nat): (after: Editor)
      requires Fit(draft.pastes, |draft.text|)
      ensures Valid(draft) ==> after.draft.cursor <= |draft.text| && Stop(draft.pastes, after.draft.cursor)
    {
      var wanted := if column.Some? then column.value else CursorColumn(draft, cells);
      Resting().At(OffsetAtColumn(draft, line, wanted, cells)).(column := Some(wanted))
    }

    function MoveUp(cells: char -> nat): (after: Editor)
      requires Fit(draft.pastes, |draft.text|)
      ensures Valid(draft) ==> after.draft.cursor <= |draft.text| && Stop(draft.pastes, after.draft.cursor)
    {
      if CursorLine(draft) == 0 then this.(draft := draft.(anchor := None)) else MoveTo(CursorLine(draft) - 1, cells)
    }

    function MoveDown(cells: char -> nat): (after: Editor)
      requires Fit(draft.pastes, |draft.text|)
      ensures Valid(draft) ==> after.draft.cursor <= |draft.text| && Stop(draft.pastes, after.draft.cursor)
    {
      if CursorLine(draft) >= Newlines(Shown(draft.text, draft.pastes)) then this.(draft := draft.(anchor := None))
      else MoveTo(CursorLine(draft) + 1, cells)
    }

    /** Every motion is defined on a valid draft. */
    ghost predicate CanMove() {
      Fit(draft.pastes, |draft.text|) && draft.cursor <= |draft.text| && PastWord(draft) <= |draft.text|
    }

    function Move(motion: Motion, cells: char -> nat): Editor
      requires CanMove()
    {
      match motion
      case Left => Resting().At(if draft.IsSelecting() then draft.SelectionStart() else draft.StepLeft())
      case Right => Resting().At(if draft.IsSelecting() then draft.SelectionEnd() else draft.StepRight())
      case Home => Resting().At(LineStart(draft, CursorLine(draft)))
      case End => Resting().At(LineEnd(draft, CursorLine(draft)))
      case Up => MoveUp(cells)
      case Down => MoveDown(cells)
      case WordLeft => Resting().At(Motions.WordLeft(draft))
      case WordRight => Resting().At(Motions.WordRight(draft))
    }

    /** The gesture closed and the anchor taken out, ready for a motion. */
    function Unanchored(): Editor {
      var closed := CloseGesture();
      closed.(draft := closed.draft.(anchor := None))
    }

    /** Runs a motion that extends the selection from its anchor. */
    function Extend(motion: Motion, cells: char -> nat): Editor
      requires Unanchored().CanMove()
    {
      var anchor := if draft.anchor.Some? then draft.anchor.value else draft.cursor;
      var moved := Unanchored().Move(motion, cells);
      moved.(draft := moved.draft.(anchor := Some(anchor)))
    }

    function PlaceCursor(at: nat, extend: bool): Editor {
      var anchor := if draft.anchor.Some? then draft.anchor else Some(draft.cursor);
      var closed := CloseGesture();
      closed.(draft := closed.draft.(anchor := if extend then anchor else None, cursor := at), column := None)
    }

    // ---- draft lifecycle ----------------------------------------------

    function SetText(text: string): Editor {
      this.(draft := Draft(text, |text|, None, []), version := version + 1,
            undo := [], redo := [], gesture := None, column := None, recall := None)
    }

    function RestoreText(text: string): Editor {
      if draft.text == text then this else Commit().Edited(Draft(text, |text|, None, []), 1)
    }

    function Clear(): Editor {
      if draft.text == "" then this else TakeSnapshot().Edited(Draft("", 0, None, []), 1).Commit()
    }

    /** The entry a submission takes with it. */
    function Submission(): Entry {
      var closed := Commit();
      Entry(closed.draft.text, closed.draft.pastes, Some((closed.undo, closed.redo)))
    }

    function TakeSubmission(): Editor {
      Commit().Edited(Draft("", 0, None, []), 1).(undo := [], redo := [], saved := NoEntry)
    }

    /** Records a prompt for recall unless it is blank or repeats the last one. */
    function Remember(entry: Entry): Editor {
      var repeat := history != [] && history[|history| - 1].text == entry.text;
      if (forall i | 0 <= i < |entry.text| :: IsBlank(entry.text[i])) || repeat then this
      else
        var longer := history + [entry.(rollback := None)];
        this.(history := if |longer| > HISTORY_STEPS then longer[1..] else longer)
    }

    function Load(entry: Entry): Editor {
      CloseGesture().(recall := None, gesture := None).Edited(Draft(entry.text, |entry.text|, None, entry.pastes), 1)
    }

    function RestoreSubmission(entry: Entry): Editor {
      var loaded := Load(entry);
      match entry.rollback
      case None => loaded
      case Some((undo, redo)) => loaded.(undo := undo, redo := redo)
    }

    /** Hands the text to an external editor; undo and redo stay. */
    function TakeForEditor(): Editor {
      var entry := Submission();
      TakeSubmission().(undo := entry.rollback.value.0, redo := entry.rollback.value.1)
    }

    function HistoryPrev(): Editor {
      if history == [] then this
      else
        var closed := CloseGesture();
        match recall
        case None =>
          var aside := closed.(saved := Entry(draft.text, draft.pastes, None));
          aside.Load(history[|history| - 1]).(recall := Some(|history| - 1))
        case Some(0) => closed
        case Some(index) =>
          if index - 1 < |history| then closed.Load(history[index - 1]).(recall := Some(index - 1)) else closed
    }

    function HistoryNext(): Editor {
      match recall
      case None => this
      case Some(index) =>
        if index + 1 < |history| then Load(history[index + 1]).(recall := Some(index + 1))
        else this.(saved := NoEntry).Load(saved)
    }
  }

  const Empty := Editor(Draft("", 0, None, []), None, [], [], None, [], None, NoEntry, 0)
}

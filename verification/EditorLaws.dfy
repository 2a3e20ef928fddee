/** What every operation of the composer keeps, over any run, and what undo and redo promise. */
module EditorLaws {
  import opened Wrappers
  import opened Projections
  import opened ProjectionLaws
  import opened Drafts
  import opened DraftLaws
  import opened Motions
  import opened Editors

  // ---- the invariant --------------------------------------------------

  ghost predicate AllValid(steps: seq<Draft>) {
    forall i | 0 <= i < |steps| :: Valid(steps[i])
  }

  ghost predicate ValidEntry(entry: Entry) {
    && ValidText(entry.text, entry.pastes)
    && (entry.rollback.Some? ==>
          && AllValid(entry.rollback.value.0) && AllValid(entry.rollback.value.1)
          && |entry.rollback.value.0| + |entry.rollback.value.1| <= UNDO_STEPS)
  }

  /** Undo and redo together stay within the step bound, and an open gesture leaves nothing to redo. */
  ghost predicate Stacks(e: Editor) {
    && AllValid(e.undo) && AllValid(e.redo)
    && |e.undo| + |e.redo| <= UNDO_STEPS
    && (e.gesture.Some? ==> e.redo == [] && Valid(e.gesture.value))
  }

  ghost predicate Recalls(e: Editor) {
    && (forall i | 0 <= i < |e.history| :: ValidEntry(e.history[i]))
    && ValidEntry(e.saved)
    && (e.recall.Some? ==> e.recall.value < |e.history|)
  }

  ghost predicate ValidEditor(e: Editor) {
    Valid(e.draft) && Stacks(e) && Recalls(e)
  }

  // ---- the undo stack -------------------------------------------------

  /** Trimming drops only the oldest steps and always keeps the newest. */
  lemma {:induction false} TrimKeepsNewest(steps: seq<Draft>)
    requires steps != []
    ensures var kept := Trim(steps);
            && 0 < |kept| <= |steps| && |kept| <= UNDO_STEPS
            && kept == steps[|steps| - |kept|..]
            && (|kept| > 1 ==> TextBytes(kept) <= UNDO_BYTES)
    decreases |steps|
  {
    if |steps| > UNDO_STEPS || (TextBytes(steps) > UNDO_BYTES && |steps| > 1) {
      TrimKeepsNewest(steps[1..]);
    }
  }

  lemma CloseGestureKeeps(e: Editor)
    requires Stacks(e)
    ensures Stacks(e.CloseGesture()) && e.CloseGesture().gesture.None?
    ensures e.CloseGesture() == e.(gesture := None, undo := e.CloseGesture().undo, redo := e.CloseGesture().redo)
    ensures ValidEditor(e) ==> ValidEditor(e.CloseGesture()) && ValidEditor(e.Commit())
    ensures Stacks(e.Commit())
  {
    if e.gesture.Some? {
      var pushed := e.undo + [e.gesture.value];
      TrimKeepsNewest(pushed);
      var kept := Trim(pushed);
      forall i | 0 <= i < |kept|
        ensures Valid(kept[i])
      {
        assert kept[i] == pushed[|pushed| - |kept| + i];
      }
    }
  }

  /** A recorded edit: snapshot, change, commit. */
  function Recorded(e: Editor, after: Draft, changes: nat): Editor {
    e.TakeSnapshot().Edited(after, changes).Commit()
  }

  lemma RecordedKeeps(e: Editor, after: Draft, changes: nat)
    requires ValidEditor(e) && Valid(after)
    ensures ValidEditor(Recorded(e, after, changes)) && ValidEditor(e.TakeSnapshot().Edited(after, changes))
    ensures Recorded(e, after, changes).draft == after && Recorded(e, after, changes).gesture.None?
  {
    var edited := e.TakeSnapshot().Edited(after, changes);
    assert ValidEditor(edited);
    CloseGestureKeeps(edited);
  }

  /** What the open gesture goes back to, or what one would if it started now. */
  function Snapshot(e: Editor): Draft {
    if e.gesture.Some? then e.gesture.value else e.draft
  }

  /** One undo takes a recorded edit back to where its gesture started, whatever the gesture did to the
      text, the caret, the selection and the chips. If it left the text alone, it is no step at all. */
  lemma RecordedEditIsUndone(e: Editor, after: Draft, changes: nat)
    ensures var edited := Recorded(e, after, changes);
            if after.text == Snapshot(e).text then edited.undo == e.undo
            else edited.undo != [] && edited.redo == [] && edited.Undo().draft == Snapshot(e)
  {
    TrimKeepsNewest(e.undo + [Snapshot(e)]);
  }

  lemma UndoKeeps(e: Editor)
    requires ValidEditor(e)
    ensures ValidEditor(e.Undo()) && ValidEditor(e.Redo())
    ensures e.Undo().gesture.None?
  {
    CloseGestureKeeps(e);
  }

  // ---- undo and redo are inverses -------------------------------------

  function Undone(e: Editor, k: nat): Editor
    decreases k
  {
    if k == 0 then e else Undone(e, k - 1).Undo()
  }

  function Redone(e: Editor, k: nat): Editor
    decreases k
  {
    if k == 0 then e else Redone(e.Redo(), k - 1)
  }

  /** The text, the caret, the selection, the chips and both stacks. */
  ghost predicate SameContent(a: Editor, b: Editor) {
    a.draft == b.draft && a.undo == b.undo && a.redo == b.redo && a.gesture == b.gesture
  }

  lemma RedoUndoesUndo(e: Editor)
    requires e.gesture.None? && e.undo != []
    ensures SameContent(e.Undo().Redo(), e)
  {
  }

  lemma UndoUndoesRedo(e: Editor)
    requires e.gesture.None? && e.redo != []
    ensures SameContent(e.Redo().Undo(), e)
  {
  }

  lemma RedoRespects(a: Editor, b: Editor, k: nat)
    requires SameContent(a, b)
    ensures SameContent(Redone(a, k), Redone(b, k))
    decreases k
  {
    if k != 0 {
      RedoRespects(a.Redo(), b.Redo(), k - 1);
    }
  }

  lemma {:induction false} UndoneDepth(e: Editor, k: nat)
    requires e.gesture.None? && k <= |e.undo|
    ensures Undone(e, k).gesture.None? && |Undone(e, k).undo| == |e.undo| - k
    decreases k
  {
    if k != 0 {
      UndoneDepth(e, k - 1);
    }
  }

  /** The last undo and the first redo cancel out. */
  lemma StepBack(e: Editor, back: Editor, k: nat)
    requires k > 0 && back.gesture.None? && back.undo != []
    requires SameContent(Redone(back, k - 1), e)
    ensures SameContent(Redone(back.Undo(), k), e)
  {
    RedoUndoesUndo(back);
    RedoRespects(back.Undo().Redo(), back, k - 1);
  }

  lemma {:induction false} ClosedInverse(e: Editor, k: nat)
    requires e.gesture.None? && k <= |e.undo|
    ensures SameContent(Redone(Undone(e, k), k), e)
    decreases k
  {
    if k != 0 {
      UndoneDepth(e, k - 1);
      ClosedInverse(e, k - 1);
      StepBack(e, Undone(e, k - 1), k);
    }
  }

  /** k undos followed by k redos restore everything as it was after the open gesture was committed. */
  lemma UndoAndRedoAreInverse(e: Editor, k: nat)
    requires k <= |e.Commit().undo|
    ensures SameContent(Redone(Undone(e.Commit(), k), k), e.Commit())
  {
    ClosedInverse(e.Commit(), k);
  }

  // ---- every operation ------------------------------------------------

  datatype Op =
    | Insert(text: string) | TypeChar(c: char) | Newline
    | Backspace | Delete | DeleteSelection | DeleteWordLeft | DeleteWordRight | DeleteToLineStart | DeleteToLineEnd
    | Move(motion: Motion) | Extend(motion: Motion) | Place(at: nat, extend: bool)
    | Undo | Redo
    | SetText(text: string) | RestoreText(text: string) | Clear
    | TakeSubmission | TakeForEditor | Remember(entry: Entry) | RestoreSubmission(entry: Entry)
    | HistoryPrev | HistoryNext

  lemma MovableAlways(e: Editor)
    requires Valid(e.draft)
    ensures e.CanMove()
  {
    PastWordIsStop(e.draft);
  }

  /** The one thing an operation needs: a placed caret is an editing stop, an entry is a valid one,
      and a word motion does not run into a payload. */
  ghost predicate Allowed(e: Editor, op: Op)
    requires Valid(e.draft)
  {
    MovableAlways(e);
    match op
    case Move(WordLeft) => !BlanksEnterLeft(e.draft)
    case Move(WordRight) => !BlanksEnterRight(e.draft)
    case Extend(WordLeft) => !BlanksEnterLeft(e.draft)
    case Extend(WordRight) => !BlanksEnterRight(e.draft)
    case Place(at, _) => at <= |e.draft.text| && Stop(e.draft.pastes, at)
    case Remember(entry) => ValidEntry(entry)
    case RestoreSubmission(entry) => ValidEntry(entry)
    case _ => true
  }

  lemma UnanchoredMovable(e: Editor)
    requires Valid(e.draft)
    ensures Valid(e.Unanchored().draft) && e.Unanchored().CanMove()
  {
    MovableAlways(e.Unanchored());
  }

  ghost function Apply(e: Editor, op: Op, cells: char -> nat): Editor
    requires Valid(e.draft)
  {
    MovableAlways(e);
    UnanchoredMovable(e);
    match op
    case Insert(text) => e.Insert(text)
    case TypeChar(c) => e.TypeChar(c)
    case Newline => e.Newline()
    case Backspace => e.Backspace()
    case Delete => e.Delete()
    case DeleteSelection => e.DeleteSelection()
    case DeleteWordLeft => e.DeleteWordLeft()
    case DeleteWordRight => e.DeleteWordRight()
    case DeleteToLineStart => e.DeleteToLineStart()
    case DeleteToLineEnd => e.DeleteToLineEnd()
    case Move(motion) => e.Move(motion, cells)
    case Extend(motion) => e.Extend(motion, cells)
    case Place(at, extend) => e.PlaceCursor(at, extend)
    case Undo => e.Undo()
    case Redo => e.Redo()
    case SetText(text) => e.SetText(text)
    case RestoreText(text) => e.RestoreText(text)
    case Clear => e.Clear()
    case TakeSubmission => e.TakeSubmission()
    case TakeForEditor => e.TakeForEditor()
    case Remember(entry) => e.Remember(entry)
    case RestoreSubmission(entry) => e.RestoreSubmission(entry)
    case HistoryPrev => e.HistoryPrev()
    case HistoryNext => e.HistoryNext()
  }

  lemma DeleteRangeKeeps(e: Editor, start: nat, end: nat, snapshot: bool)
    requires ValidEditor(e) && end <= |e.draft.text|
    ensures var after := e.DeleteRange(start, end, snapshot);
            && ValidEditor(after)
            && (start < end ==> after.draft == e.draft.Erase(start, end))
  {
    if start < end {
      EraseValid(e.draft, start, end);
      var from := if snapshot then e.TakeSnapshot() else e;
      CloseGestureKeeps(from.Edited(e.draft.Erase(start, end), 1));
    }
  }

  lemma DeleteSelectionKeeps(e: Editor)
    requires ValidEditor(e)
    ensures ValidEditor(e.DeleteSelection())
  {
    CloseGestureKeeps(e);
    if e.draft.IsSelecting() {
      DeleteRangeKeeps(e.Commit(), e.draft.SelectionStart(), e.draft.SelectionEnd(), true);
    }
  }

  lemma BackspaceKeeps(e: Editor)
    requires ValidEditor(e)
    ensures ValidEditor(e.Backspace())
  {
    DeleteSelectionKeeps(e);
    if !e.draft.IsSelecting() && e.draft.cursor != 0 {
      StepsAreStops(e.draft);
      DeleteRangeKeeps(e.TakeSnapshot(), e.draft.StepLeft(), e.draft.cursor, false);
      EraseValid(e.draft, e.draft.StepLeft(), e.draft.cursor);
      ClosureAtStops(e.draft.pastes, e.draft.StepLeft(), e.draft.cursor);
    }
  }

  /** A range between stops is its own closure. */
  lemma ClosureAtStops(pastes: seq<Paste>, start: nat, end: nat)
    requires Ordered(pastes, 0, 0) && start < end && Stop(pastes, start) && Stop(pastes, end)
    ensures Closure(pastes, 0, start, end) == (start, end)
  {
    ClosureIsSmallest(pastes, start, end, start, end);
  }

  /** Erasing what is right of the caret leaves the caret where it is. */
  lemma EraseRightKeepsCaret(d: Draft)
    requires Valid(d) && d.cursor < |d.text|
    ensures d.cursor < d.StepRight() <= |d.text|
    ensures d.Erase(d.cursor, d.StepRight()).cursor == d.cursor
  {
    StepsAreStops(d);
    EraseValid(d, d.cursor, d.StepRight());
    ClosureAtStops(d.pastes, d.cursor, d.StepRight());
  }

  lemma DeleteKeeps(e: Editor)
    requires ValidEditor(e)
    ensures ValidEditor(e.Delete())
  {
    DeleteSelectionKeeps(e);
    CloseGestureKeeps(e);
    if !e.draft.IsSelecting() && e.draft.cursor < |e.draft.text| {
      EraseRightKeepsCaret(e.draft);
      DeleteRangeKeeps(e.Commit(), e.draft.cursor, e.draft.StepRight(), false);
      hide Draft.StepRight;
      hide Draft.Erase;
      hide Trim;
      hide Editor.DeleteRange;
    }
  }

  lemma WordEndInBounds(d: Draft)
    requires Valid(d)
    ensures WordEnd(d) <= |d.text|
  {
    var at := BlanksRight(d.text, d.cursor);
    if FindStart(d.pastes, at).Some? {
      var i :| 0 <= i < |d.pastes| && d.pastes[i] == FindStart(d.pastes, at).value;
    }
  }

  lemma WordDeletesKeep(e: Editor)
    requires ValidEditor(e)
    ensures ValidEditor(e.DeleteWordLeft()) && ValidEditor(e.DeleteWordRight())
  {
    DeleteSelectionKeeps(e);
    CloseGestureKeeps(e);
    if !e.draft.IsSelecting() {
      DeleteRangeKeeps(e.Commit().Resting(), Motions.WordLeft(e.draft), e.draft.cursor, true);
      WordEndInBounds(e.draft);
      DeleteRangeKeeps(e.Commit(), e.draft.cursor, WordEnd(e.draft), true);
    }
  }

  lemma LineDeletesKeep(e: Editor)
    requires ValidEditor(e)
    ensures ValidEditor(e.DeleteToLineStart()) && ValidEditor(e.DeleteToLineEnd())
  {
    DeleteSelectionKeeps(e);
    CloseGestureKeeps(e);
    if !e.draft.IsSelecting() {
      DeleteRangeKeeps(e.Commit(), LineStart(e.draft, CursorLine(e.draft)), e.draft.cursor, true);
      DeleteRangeKeeps(e.Commit(), e.draft.cursor, LineEnd(e.draft, CursorLine(e.draft)), true);
    }
  }

  /** Where a motion lands. */
  lemma MotionLandsOnStop(e: Editor, motion: Motion, cells: char -> nat)
    requires Valid(e.draft) && e.CanMove() && Allowed(e, Op.Move(motion))
    ensures var at := e.Move(motion, cells).draft.cursor; at <= |e.draft.text| && Stop(e.draft.pastes, at)
  {
    match motion
    case Left => StepsAreStops(e.draft);
    case Right => StepsAreStops(e.draft);
    case WordLeft => WordLeftIsStopIff(e.draft);
    case WordRight => WordRightIsStopIff(e.draft);
    case _ =>
  }

  /** A motion moves only the caret, from stop to stop. */
  lemma MoveKeeps(e: Editor, motion: Motion, cells: char -> nat)
    requires Valid(e.draft) && e.CanMove() && Allowed(e, Op.Move(motion))
    ensures var after := e.Move(motion, cells);
            && after == e.(draft := after.draft, column := after.column)
            && after.draft == e.draft.(cursor := after.draft.cursor, anchor := None)
            && Valid(after.draft)
  {
    MotionLandsOnStop(e, motion, cells);
  }

  lemma MoveOpKeeps(e: Editor, motion: Motion, cells: char -> nat)
    requires ValidEditor(e) && e.CanMove() && Allowed(e, Op.Move(motion))
    ensures ValidEditor(e.Move(motion, cells))
  {
    MoveKeeps(e, motion, cells);
  }

  lemma ExtendKeeps(e: Editor, motion: Motion, cells: char -> nat)
    requires ValidEditor(e) && Allowed(e, Op.Extend(motion))
    ensures e.Unanchored().CanMove() && ValidEditor(e.Extend(motion, cells))
  {
    CloseGestureKeeps(e);
    UnanchoredMovable(e);
    MovableAlways(e);
    assert Allowed(e.Unanchored(), Op.Move(motion));
    MoveKeeps(e.Unanchored(), motion, cells);
  }

  lemma EmptyDraftValid(text: string)
    ensures Valid(Draft(text, |text|, None, []))
  {
  }

  lemma LoadKeeps(e: Editor, entry: Entry)
    requires ValidEditor(e) && ValidEntry(entry)
    ensures ValidEditor(e.Load(entry)) && e.Load(entry).gesture.None?
    ensures e.Load(entry).history == e.history && e.Load(entry).saved == e.saved
  {
    CloseGestureKeeps(e);
  }

  lemma SubmissionKeeps(e: Editor)
    requires ValidEditor(e)
    ensures ValidEntry(e.Submission()) && ValidEditor(e.TakeSubmission()) && ValidEditor(e.TakeForEditor())
  {
    CloseGestureKeeps(e);
    EmptyDraftValid("");
  }

  /** A taken submission can be put back exactly: text, chips, undo and redo as they were committed. */
  lemma RestoreUndoesTake(e: Editor, later: Editor)
    ensures var closed := e.Commit(); var back := later.RestoreSubmission(e.Submission());
            && back.draft.text == closed.draft.text && back.draft.pastes == closed.draft.pastes
            && back.undo == closed.undo && back.redo == closed.redo && back.gesture.None?
  {
  }

  lemma RestoreSubmissionKeeps(e: Editor, entry: Entry)
    requires ValidEditor(e) && ValidEntry(entry)
    ensures ValidEditor(e.RestoreSubmission(entry))
  {
    LoadKeeps(e, entry);
  }

  lemma HistoryPrevKeeps(e: Editor)
    requires ValidEditor(e)
    ensures ValidEditor(e.HistoryPrev())
  {
    if e.history != [] {
      CloseGestureKeeps(e);
      var closed := e.CloseGesture();
      match e.recall
      case None =>
        LoadKeeps(closed.(saved := Entry(e.draft.text, e.draft.pastes, None)), e.history[|e.history| - 1]);
      case Some(index) =>
        if index != 0 {
          LoadKeeps(closed, e.history[index - 1]);
        }
    }
  }

  lemma HistoryNextKeeps(e: Editor)
    requires ValidEditor(e)
    ensures ValidEditor(e.HistoryNext())
  {
    if e.recall.Some? {
      if e.recall.value + 1 < |e.history| {
        LoadKeeps(e, e.history[e.recall.value + 1]);
      } else {
        LoadKeeps(e.(saved := NoEntry), e.saved);
      }
    }
  }

  /** `k` steps back through the submitted prompts. */
  function Recalled(e: Editor, k: nat): Editor
    decreases k
  {
    if k == 0 then e else Recalled(e, k - 1).HistoryPrev()
  }

  /** `k` steps forward again. */
  function Returned(e: Editor, k: nat): Editor
    decreases k
  {
    if k == 0 then e else Returned(e, k - 1).HistoryNext()
  }

  ghost predicate Shows(e: Editor, entry: Entry) {
    e.draft.text == entry.text && e.draft.pastes == entry.pastes
  }

  /** The editor recalls the prompt `i`, and `saved` is set aside. */
  ghost predicate Recalling(e: Editor, history: seq<Entry>, i: nat, saved: Entry) {
    && i < |history| && e.history == history && e.recall == Some(i) && e.saved == saved
    && Shows(e, history[i])
  }

  /** The prompt shown `k` steps back is the `k`-th newest. */
  lemma {:induction false} RecallShows(e: Editor, k: nat)
    requires e.recall.None? && 1 <= k <= |e.history|
    ensures Recalling(Recalled(e, k), e.history, |e.history| - k, Entry(e.draft.text, e.draft.pastes, None))
    decreases k
  {
    if k > 1 {
      RecallShows(e, k - 1);
    }
  }

  lemma {:induction false} ReturnShows(e: Editor, history: seq<Entry>, i: nat, saved: Entry, k: nat)
    requires Recalling(e, history, i, saved) && i + k < |history|
    ensures Recalling(Returned(e, k), history, i + k, saved)
    decreases k
  {
    if k != 0 {
      ReturnShows(e, history, i, saved, k - 1);
    }
  }

  /** One step past the newest prompt brings the saved draft back. */
  lemma NewestReturns(e: Editor, history: seq<Entry>, saved: Entry)
    requires history != [] && Recalling(e, history, |history| - 1, saved)
    ensures Shows(e.HistoryNext(), saved) && e.HistoryNext().recall.None?
  {
  }

  /** Recalling older prompts and coming back shows each of them again on the way, and after as many
      steps the live draft with its chips. */
  lemma RecallComesBack(e: Editor, k: nat, j: nat)
    requires e.recall.None? && j <= k <= |e.history|
    ensures var back := Returned(Recalled(e, k), j);
            if j == k then Shows(back, Entry(e.draft.text, e.draft.pastes, None)) && back.recall.None?
            else Shows(back, e.history[|e.history| - k + j]) && back.recall == Some(|e.history| - k + j)
  {
    hide Editor.HistoryPrev;
    hide Editor.HistoryNext;
    if k != 0 {
      var saved := Entry(e.draft.text, e.draft.pastes, None);
      RecallShows(e, k);
      hide Recalled;
      ReturnShows(Recalled(e, k), e.history, |e.history| - k, saved, if j < k then j else k - 1);
      if j == k {
        NewestReturns(Returned(Recalled(e, k), k - 1), e.history, saved);
      }
    }
  }

  lemma RememberKeeps(e: Editor, entry: Entry)
    requires ValidEditor(e) && ValidEntry(entry)
    ensures ValidEditor(e.Remember(entry))
  {
  }

  lemma TypingKeeps(e: Editor, text: string, c: char)
    requires ValidEditor(e)
    ensures ValidEditor(e.Insert(text)) && ValidEditor(e.TypeChar(c)) && ValidEditor(e.Newline())
  {
    TypePastedValid(e.draft, text);
    TypeValid(e.draft, [c]);
    TypeValid(e.draft, "\n");
    RecordedKeeps(e, e.draft.TypePasted(text), e.Changes());
    RecordedKeeps(e, e.draft.Type([c]), e.Changes());
    RecordedKeeps(e, e.draft.Type("\n"), e.Changes());
  }

  lemma ReplaceKeeps(e: Editor, text: string)
    requires ValidEditor(e)
    ensures ValidEditor(e.SetText(text)) && ValidEditor(e.RestoreText(text)) && ValidEditor(e.Clear())
  {
    CloseGestureKeeps(e);
    EmptyDraftValid(text);
    EmptyDraftValid("");
    RecordedKeeps(e, Draft("", 0, None, []), 1);
  }

  lemma PlaceKeeps(e: Editor, at: nat, extend: bool)
    requires ValidEditor(e) && at <= |e.draft.text| && Stop(e.draft.pastes, at)
    ensures ValidEditor(e.PlaceCursor(at, extend))
  {
    CloseGestureKeeps(e);
  }

  /** Every operation keeps the chips intact, the caret outside payloads, and the undo bounds. */
  lemma ApplyKeeps(e: Editor, op: Op, cells: char -> nat)
    requires ValidEditor(e) && Allowed(e, op)
    ensures ValidEditor(Apply(e, op, cells))
  {
    MovableAlways(e);
    match op
    case Insert(text) => TypingKeeps(e, text, ' ');
    case TypeChar(c) => TypingKeeps(e, "", c);
    case Newline => TypingKeeps(e, "", ' ');
    case Backspace => BackspaceKeeps(e);
    case Delete => DeleteKeeps(e);
    case DeleteSelection => DeleteSelectionKeeps(e);
    case DeleteWordLeft => WordDeletesKeep(e);
    case DeleteWordRight => WordDeletesKeep(e);
    case DeleteToLineStart => LineDeletesKeep(e);
    case DeleteToLineEnd => LineDeletesKeep(e);
    case Move(motion) => MoveOpKeeps(e, motion, cells);
    case Extend(motion) => ExtendKeeps(e, motion, cells);
    case Place(at, extend) => PlaceKeeps(e, at, extend);
    case Undo => UndoKeeps(e);
    case Redo => UndoKeeps(e);
    case SetText(text) => ReplaceKeeps(e, text);
    case RestoreText(text) => ReplaceKeeps(e, text);
    case Clear => ReplaceKeeps(e, "");
    case TakeSubmission => SubmissionKeeps(e);
    case TakeForEditor => SubmissionKeeps(e);
    case Remember(entry) => RememberKeeps(e, entry);
    case RestoreSubmission(entry) => RestoreSubmissionKeeps(e, entry);
    case HistoryPrev => HistoryPrevKeeps(e);
    case HistoryNext => HistoryNextKeeps(e);
  }

  // ---- whole runs -----------------------------------------------------

  /** Each operation of a session is allowed in the state it meets. */
  ghost predicate Runs(e: Editor, ops: seq<Op>, cells: char -> nat)
    decreases |ops|
  {
    ops == [] || (Valid(e.draft) && Allowed(e, ops[0]) && Runs(Apply(e, ops[0], cells), ops[1..], cells))
  }

  ghost function After(e: Editor, ops: seq<Op>, cells: char -> nat): Editor
    requires Runs(e, ops, cells)
    decreases |ops|
  {
    if ops == [] then e else After(Apply(e, ops[0], cells), ops[1..], cells)
  }

  /** In every reachable state: chips are ordered payloads with their own labels, the caret and the
      anchor are outside them, undo and redo hold at most 200 steps together, and an open gesture
      leaves nothing to redo. */
  lemma {:induction false} ReachableIsValid(e: Editor, ops: seq<Op>, cells: char -> nat)
    requires ValidEditor(e) && Runs(e, ops, cells)
    ensures ValidEditor(After(e, ops, cells))
    decreases |ops|
  {
    if ops != [] {
      ApplyKeeps(e, ops[0], cells);
      ReachableIsValid(Apply(e, ops[0], cells), ops[1..], cells);
    }
  }

  /** So it holds after any session that starts with an empty composer. */
  lemma SessionIsValid(ops: seq<Op>, cells: char -> nat)
    requires Runs(Empty, ops, cells)
    ensures ValidEditor(After(Empty, ops, cells))
  {
    assert ValidEditor(Empty);
    ReachableIsValid(Empty, ops, cells);
  }

  // ---- which edits undo takes back ------------------------------------

  /** The edits that take a snapshot before they change the text. */
  predicate TakesSnapshot(op: Op) {
    op.Insert? || op.TypeChar? || op.Newline? || op.Backspace? || op.DeleteSelection? || op.DeleteWordLeft?
    || op.DeleteWordRight? || op.DeleteToLineStart? || op.DeleteToLineEnd? || op.Clear?
  }

  /** The edits that join a gesture that is open; the others close it first. */
  predicate JoinsGesture(e: Editor, op: Op) {
    op.Insert? || op.TypeChar? || op.Newline? || op.Clear? || (op.Backspace? && !e.draft.IsSelecting())
  }

  /** Where one undo leads after the edit. */
  function Origin(e: Editor, op: Op): Draft {
    if JoinsGesture(e, op) then Snapshot(e) else e.draft
  }

  /** Undoing leaves the text, the caret and the chips of `origin`; without a change of text since, the
      edit leaves no step and the stack is the one below it. */
  ghost predicate TakesBack(after: Editor, origin: Draft, below: seq<Draft>) {
    if after.draft.text == origin.text then after.Commit().undo == below
    else after.Undo().draft.(anchor := None) == origin.(anchor := None)
  }

  lemma DeleteRangeIsUndone(e: Editor, start: nat, end: nat)
    requires e.gesture.None? && e.DeleteRange(start, end, true).draft.text != e.draft.text
    ensures TakesBack(e.DeleteRange(start, end, true), e.draft, e.undo) && e.DeleteRange(start, end, true).redo == []
  {
    RecordedEditIsUndone(e, e.draft.Erase(start, end), 1);
  }

  lemma BackspaceIsUndone(e: Editor)
    requires ValidEditor(e) && !e.draft.IsSelecting() && e.draft.cursor != 0
    requires e.Backspace().draft.text != e.draft.text
    ensures TakesBack(e.Backspace(), Snapshot(e), e.undo)
  {
    StepsAreStops(e.draft);
    EraseValid(e.draft, e.draft.StepLeft(), e.draft.cursor);
    ClosureAtStops(e.draft.pastes, e.draft.StepLeft(), e.draft.cursor);
    var erased := e.draft.Erase(e.draft.StepLeft(), e.draft.cursor);
    RecordedEditIsUndone(e, erased, 1);
    assert e.Backspace() == Recorded(e, erased, 1);
  }

  lemma InsertIsUndone(e: Editor, text: string)
    requires e.Insert(text).draft.text != e.draft.text
    ensures TakesBack(e.Insert(text), Snapshot(e), e.undo)
  {
    RecordedEditIsUndone(e, e.draft.TypePasted(text), e.Changes());
  }

  lemma TypingIsUndone(e: Editor, c: char)
    ensures TakesBack(e.Newline(), Snapshot(e), e.undo)
    ensures TakesBack(e.TypeChar(c), Snapshot(e), e.undo)
  {
    hide Draft.Type;
    hide Trim;
    RecordedEditIsUndone(e, e.draft.Type("\n"), e.Changes());
    RecordedEditIsUndone(e, e.draft.Type([c]), e.Changes());
  }

  lemma ClearIsUndone(e: Editor)
    requires e.draft.text != ""
    ensures TakesBack(e.Clear(), Snapshot(e), e.undo)
  {
    RecordedEditIsUndone(e, Draft("", 0, None, []), 1);
  }

  lemma DeleteSelectionIsUndone(e: Editor)
    requires e.draft.IsSelecting() && e.DeleteSelection().draft.text != e.draft.text
    ensures TakesBack(e.DeleteSelection(), e.draft, e.Commit().undo)
  {
    DeleteRangeIsUndone(e.Commit(), e.draft.SelectionStart(), e.draft.SelectionEnd());
  }

  lemma WordDeletesAreUndone(e: Editor)
    requires ValidEditor(e) && !e.draft.IsSelecting()
    ensures e.DeleteWordLeft().draft.text != e.draft.text ==> TakesBack(e.DeleteWordLeft(), e.draft, e.Commit().undo)
    ensures e.DeleteWordRight().draft.text != e.draft.text ==> TakesBack(e.DeleteWordRight(), e.draft, e.Commit().undo)
  {
    hide Trim;
    hide Draft.Erase;
    if e.DeleteWordLeft().draft.text != e.draft.text {
      DeleteRangeIsUndone(e.Commit().Resting(), Motions.WordLeft(e.draft), e.draft.cursor);
    }
    if e.DeleteWordRight().draft.text != e.draft.text {
      DeleteRangeIsUndone(e.Commit(), e.draft.cursor, WordEnd(e.draft));
    }
  }

  lemma LineDeletesAreUndone(e: Editor)
    requires ValidEditor(e) && !e.draft.IsSelecting()
    ensures e.DeleteToLineStart().draft.text != e.draft.text ==>
              TakesBack(e.DeleteToLineStart(), e.draft, e.Commit().undo)
    ensures e.DeleteToLineEnd().draft.text != e.draft.text ==> TakesBack(e.DeleteToLineEnd(), e.draft, e.Commit().undo)
  {
    hide Trim;
    hide Draft.Erase;
    if e.DeleteToLineStart().draft.text != e.draft.text {
      DeleteRangeIsUndone(e.Commit(), LineStart(e.draft, CursorLine(e.draft)), e.draft.cursor);
    }
    if e.DeleteToLineEnd().draft.text != e.draft.text {
      DeleteRangeIsUndone(e.Commit(), e.draft.cursor, LineEnd(e.draft, CursorLine(e.draft)));
    }
  }

  /** One undo takes back any edit that takes a snapshot: to the draft before it, or, if the edit joins
      an open gesture, to where that gesture started. Only a gesture that ends with the text it started
      with leaves no step. */
  lemma EditsAreUndone(e: Editor, op: Op, cells: char -> nat)
    requires ValidEditor(e) && TakesSnapshot(op)
    requires Apply(e, op, cells).draft.text != e.draft.text
    ensures var after := Apply(e, op, cells);
            var origin := Origin(e, op);
            if after.draft.text == origin.text
            then JoinsGesture(e, op) && e.gesture.Some? && after.Commit().undo == e.undo
            else after.Undo().draft.(anchor := None) == origin.(anchor := None)
  {
    if op.Insert? {
      InsertIsUndone(e, op.text);
    } else if op.TypeChar? {
      TypingIsUndone(e, op.c);
    } else if op.Newline? {
      TypingIsUndone(e, ' ');
    } else if op.Clear? {
      ClearIsUndone(e);
    } else if e.draft.IsSelecting() {
      DeleteSelectionIsUndone(e);
    } else if op.Backspace? {
      BackspaceIsUndone(e);
    } else {
      WordDeletesAreUndone(e);
      LineDeletesAreUndone(e);
    }
  }

  /** Deleting forward without a selection commits the open gesture and takes no snapshot. */
  lemma DeleteLeavesStacks(e: Editor)
    requires ValidEditor(e) && !e.draft.IsSelecting() && e.draft.cursor < |e.draft.text|
    ensures var after, committed := e.Delete(), e.Commit();
            && after.undo == committed.undo && after.redo == committed.redo && after.gesture.None?
            && |after.draft.text| < |e.draft.text|
  {
    StepsAreStops(e.draft);
    EraseValid(e.draft, e.draft.cursor, e.draft.StepRight());
    hide Draft.StepRight;
    hide Closure;
    hide Removed;
    hide Trim;
  }

  /** The newest committed step holds the text exactly when the open gesture, if any, left it alone and
      the step below does. */
  lemma CommittedStep(e: Editor)
    ensures var undo := e.Commit().undo;
            (undo != [] && undo[|undo| - 1].text == e.draft.text) <==>
            (&& (e.gesture.Some? ==> e.gesture.value.text == e.draft.text)
             && e.undo != [] && e.undo[|e.undo| - 1].text == e.draft.text)
  {
    if e.gesture.Some? {
      TrimKeepsNewest(e.undo + [e.gesture.value]);
    }
  }

  /** So undo takes the deletion back exactly when no gesture that changed the text is open and the
      newest undo step happens to hold the same text. */
  lemma DeleteIsUndoneIff(e: Editor)
    requires ValidEditor(e) && !e.draft.IsSelecting() && e.draft.cursor < |e.draft.text|
    ensures var after, committed := e.Delete(), e.Commit();
            && after.undo == committed.undo && after.redo == committed.redo
            && |after.draft.text| < |e.draft.text|
            && (after.Undo().draft.text == e.draft.text <==>
                  && (e.gesture.Some? ==> e.gesture.value.text == e.draft.text)
                  && e.undo != [] && e.undo[|e.undo| - 1].text == e.draft.text)
  {
    DeleteLeavesStacks(e);
    CommittedStep(e);
    hide Editor.Delete;
  }

  /** For instance, a single character deleted forward from fresh text cannot be brought back. */
  lemma DeleteCanBeLost()
    ensures var e := Empty.SetText("a").PlaceCursor(0, false);
            ValidEditor(e) && e.Delete().draft.text == "" && e.Delete().Undo().draft.text == ""
  {
    var e := Empty.SetText("a").PlaceCursor(0, false);
    assert e == Editor(Draft("a", 0, None, []), None, [], [], None, [], None, NoEntry, 1);
    DeleteIsUndoneIff(e);
  }
}

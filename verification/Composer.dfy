/** The composer: the editor's mutable fields, and the loops that edit them in place. */
module Composers {
  import opened Wrappers
  import opened Projections
  import opened Drafts
  import opened DraftLaws
  import opened Motions
  import opened Editors
  import opened EditorLaws

  lemma CaretInText(d: Draft)
    requires Drafts.Valid(d)
    ensures d.cursor <= |d.text|
  {
  }

  class Composer {
    var text: string
    var cursor: nat
    var anchor: Option<nat>
    var column: Option<nat>
    var pastes: seq<Paste>
    var undo: seq<Draft>
    var redo: seq<Draft>
    var gesture: Option<Draft>
    var history: seq<Entry>
    var recall: Option<nat>
    var saved: Entry
    var version: nat

    ghost function View(): Editor
      reads this
    {
      Editor(Draft(text, cursor, anchor, pastes), column, undo, redo, gesture, history, recall, saved, version)
    }

    /** The invariant: `EditorLaws.ApplyKeeps` shows that every operation below keeps it. */
    ghost predicate Valid()
      reads this
    {
      ValidEditor(View())
    }

    constructor ()
      ensures Valid() && View() == Empty
    {
      text, cursor, anchor, column, pastes := "", 0, None, None, [];
      undo, redo, gesture := [], [], None;
      history, recall, saved, version := [], None, NoEntry, 0;
    }

    // ---- undo ---------------------------------------------------------

    method Snapshot()
      modifies `redo, `gesture
      ensures View() == old(View()).TakeSnapshot()
    {
      if gesture.None? {
        redo := [];
        gesture := Some(Draft(text, cursor, anchor, pastes));
      }
    }

    /** Pushes the open gesture as one undo step and drops the oldest steps past either bound. */
    method CloseGesture()
      modifies `gesture, `undo, `redo
      ensures View() == old(View()).CloseGesture()
    {
      if gesture.None? {
        return;
      }
      var before := gesture.value;
      gesture := None;
      if before.text == text {
        return;
      }
      undo := undo + [before];
      ghost var pushed := undo;
      var bytes := Bytes();
      while |undo| > UNDO_STEPS || (bytes > UNDO_BYTES && |undo| > 1)
        invariant bytes == TextBytes(undo) && Trim(undo) == Trim(pushed)
        invariant gesture == None && redo == old(redo)
        decreases |undo|
      {
        bytes := bytes - |undo[0].text|;
        undo := undo[1..];
      }
      redo := [];
    }

    method Bytes() returns (bytes: nat)
      ensures bytes == TextBytes(undo)
    {
      bytes := 0;
      var i := |undo|;
      while i != 0
        invariant 0 <= i <= |undo| && bytes == TextBytes(undo[i..])
      {
        i := i - 1;
        assert undo[i..][1..] == undo[i + 1..];
        bytes := bytes + |undo[i].text|;
      }
      assert undo[0..] == undo;
    }

    method Commit()
      modifies `gesture, `undo, `redo, `recall
      ensures View() == old(View()).Commit()
    {
      recall := None;
      CloseGesture();
    }

    method Restore(step: Draft)
      modifies `text, `cursor, `anchor, `pastes, `column, `version
      ensures View() == old(View()).Restored(step)
    {
      text, cursor, anchor, pastes := step.text, step.cursor, step.anchor, step.pastes;
      version := version + 1;
      column := None;
    }

    method Undo() returns (changed: bool)
      modifies this
      ensures View() == old(View()).Undo()
      ensures changed <==> old(View()).Commit().undo != []
    {
      Commit();
      if undo == [] {
        return false;
      }
      var step := undo[|undo| - 1];
      undo := undo[..|undo| - 1];
      redo := redo + [Draft(text, cursor, anchor, pastes)];
      Restore(step);
      return true;
    }

    method Redo() returns (changed: bool)
      modifies this
      ensures View() == old(View()).Redo()
      ensures changed <==> old(redo) != []
    {
      if redo == [] {
        return false;
      }
      var step := redo[|redo| - 1];
      redo := redo[..|redo| - 1];
      undo := undo + [Draft(text, cursor, anchor, pastes)];
      Restore(step);
      return true;
    }

    // ---- editing ------------------------------------------------------

    /** The range grown over every payload it touches. */
    method Closed(first: nat, last: nat) returns (start: nat, end: nat)
      requires first < last
      ensures (start, end) == Closure(pastes, 0, first, last) && start <= first && last <= end
    {
      start, end := first, last;
      for i := 0 to |pastes|
        invariant Closure(pastes, i, start, end) == Closure(pastes, 0, first, last)
        invariant start <= first && last <= end
      {
        if pastes[i].start < end && pastes[i].end > start {
          start := Min(start, pastes[i].start);
          end := Max(end, pastes[i].end);
        }
      }
    }

    /** Drops the ranges inside the removed text and moves those behind it. */
    method RemoveRanges(start: nat, end: nat)
      requires start <= end
      modifies `pastes
      ensures pastes == Removed(old(pastes), start, end)
    {
      var kept := [];
      var i := |pastes|;
      while i != 0
        invariant 0 <= i <= |pastes| && kept == Removed(pastes[i..], start, end)
      {
        i := i - 1;
        assert pastes[i..][1..] == pastes[i + 1..];
        if pastes[i].end <= start {
          kept := [pastes[i]] + kept;
        } else if pastes[i].start >= end {
          var moved := pastes[i].(start := pastes[i].start - (end - start), end := Monus(pastes[i].end, end - start));
          kept := [moved] + kept;
        }
      }
      assert pastes[0..] == pastes;
      pastes := kept;
    }

    /** Removes a range, grown over every payload it touches, and moves the ranges behind it. */
    method EraseRange(first: nat, last: nat)
      requires ValidText(text, pastes) && first < last <= |text|
      modifies `text, `cursor, `anchor, `pastes, `column, `version
      ensures View() == old(View()).Edited(old(View()).draft.Erase(first, last), 1)
    {
      var start, end := Closed(first, last);
      ClosureInBounds(pastes, first, last, |text|);
      text := text[..start] + text[end..];
      version := version + 1;
      RemoveRanges(start, end);
      cursor := Min(cursor, start);
      anchor := None;
      column := None;
    }

    method EraseSelection()
      requires Drafts.Valid(View().draft)
      modifies `text, `cursor, `anchor, `pastes, `column, `version
      ensures Drafts.Valid(View().draft) && View().draft == old(View()).draft.EraseSelection()
      ensures version == old(version) + old(View()).Changes() - 1
      ensures View() == old(View()).(draft := View().draft, column := column, version := version)
    {
      EraseSelectionValid(View().draft);
      if anchor.Some? && anchor.value != cursor {
        EraseRange(Min(anchor.value, cursor), Max(anchor.value, cursor));
      }
      anchor := None;
    }

    /** Moves the ranges at and behind `at`. */
    method Shift(at: nat, length: nat)
      modifies `pastes
      ensures pastes == Shifted(old(pastes), at, length)
    {
      var i := 0;
      while i < |pastes|
        invariant 0 <= i <= |pastes| == |old(pastes)|
        invariant forall j | 0 <= j < i :: pastes[j] == ShiftedOne(old(pastes)[j], at, length)
        invariant forall j | i <= j < |pastes| :: pastes[j] == old(pastes)[j]
      {
        var paste := pastes[i];
        if at <= paste.start {
          pastes := pastes[i := paste.(start := paste.start + length, end := paste.end + length)];
        } else if at < paste.end {
          pastes := pastes[i := paste.(end := paste.end + length)];
        }
        i := i + 1;
      }
    }

    /** Replaces the selection by `added` at the caret. */
    method Splice(added: string)
      requires Drafts.Valid(View().draft)
      modifies `text, `cursor, `anchor, `pastes, `column, `version
      ensures View() == old(View()).Edited(old(View()).draft.Type(added), old(View()).Changes())
    {
      EraseSelection();
      var start := cursor;
      text := text[..start] + added + text[start..];
      version := version + 1;
      cursor := start + |added|;
      Shift(start, |added|);
      column := None;
    }

    /** Marks freshly pasted text as a chip when it is large. */
    method AddChip(start: nat)
      requires start <= cursor <= |text|
      modifies `pastes
      ensures pastes == if IsLarge(PasteOf(text, start, cursor))
                        then InsertByStart(old(pastes), PasteOf(text, start, cursor))
                        else old(pastes)
    {
      var paste := PasteOf(text, start, cursor);
      if IsLarge(paste) {
        pastes := InsertByStart(pastes, paste);
      }
    }

    method SplicePasted(added: string)
      requires Drafts.Valid(View().draft)
      modifies `text, `cursor, `anchor, `pastes, `column, `version
      ensures View() == old(View()).Edited(old(View()).draft.TypePasted(added), old(View()).Changes())
    {
      hide InsertByStart;
      hide PasteOf;
      EraseSelectionValid(View().draft);
      InsertValid(View().draft.EraseSelection(), added);
      hide Drafts.Valid;
      Splice(added);
      AddChip(cursor - |added|);
    }

    method Insert(added: string)
      requires Drafts.Valid(View().draft)
      modifies this
      ensures View() == old(View()).Insert(added)
    {
      if added == "" {
        return;
      }
      Snapshot();
      SplicePasted(added);
      Commit();
    }

    method TypeChar(c: char)
      requires Drafts.Valid(View().draft)
      modifies this
      ensures View() == old(View()).TypeChar(c)
    {
      if c == '\n' || c == '\r' {
        Newline();
        return;
      }
      Snapshot();
      Splice([c]);
    }

    method Newline()
      requires Drafts.Valid(View().draft)
      modifies this
      ensures View() == old(View()).Newline()
    {
      Snapshot();
      Splice("\n");
      Commit();
    }

    method DeleteRange(start: nat, end: nat, snapshot: bool)
      requires ValidText(text, pastes) && end <= |text|
      modifies this
      ensures View() == old(View()).DeleteRange(start, end, snapshot)
    {
      if end <= start {
        return;
      }
      if snapshot {
        Snapshot();
      }
      EraseRange(start, end);
      Commit();
    }

    method DeleteSelection() returns (deleted: bool)
      requires Drafts.Valid(View().draft)
      modifies this
      ensures View() == old(View()).DeleteSelection()
      ensures deleted <==> old(View()).draft.IsSelecting()
    {
      if anchor.None? || anchor.value == cursor {
        return false;
      }
      var start, end := Min(anchor.value, cursor), Max(anchor.value, cursor);
      Commit();
      DeleteRange(start, end, true);
      return true;
    }

    method Backspace()
      requires Drafts.Valid(View().draft)
      modifies this
      ensures View() == old(View()).Backspace()
    {
      var deleted := DeleteSelection();
      if deleted || cursor == 0 {
        return;
      }
      StepsAreStops(View().draft);
      var ending := FindEnd(pastes, cursor);
      var start := if ending.Some? then ending.value.start else cursor - 1;
      Snapshot();
      DeleteRange(start, cursor, false);
      cursor := start;
    }

    method Delete()
      requires Drafts.Valid(View().draft)
      modifies this
      ensures View() == old(View()).Delete()
    {
      hide Closure;
      hide Removed;
      hide Trim;
      var deleted := DeleteSelection();
      if deleted {
        return;
      }
      StepsAreStops(View().draft);
      Commit();
      if cursor >= |text| {
        return;
      }
      var starting := FindStart(pastes, cursor);
      var start := cursor;
      var end := if starting.Some? then starting.value.end else cursor + 1;
      DeleteRange(start, end, false);
      cursor := start;
    }

    /** Deletes back over blanks and one word or chip; the range is closed over any chip it enters. */
    method DeleteWordLeft()
      requires Drafts.Valid(View().draft)
      modifies this
      ensures View() == old(View()).DeleteWordLeft()
    {
      var deleted := DeleteSelection();
      if deleted {
        return;
      }
      Commit();
      var end := cursor;
      MoveWordLeft();
      var start := cursor;
      cursor := end;
      DeleteRange(start, end, true);
    }

    // ---- motion -------------------------------------------------------

    /** The loops of the motion to the left: over blanks, then over one word or chip. */
    method MoveWordLeft()
      requires Drafts.Valid(View().draft)
      modifies `cursor, `anchor, `column
      ensures View() == old(View()).Resting().At(Motions.WordLeft(old(View()).draft))
      ensures Stop(pastes, cursor) <==> !BlanksEnterLeft(old(View()).draft)
    {
      hide Drafts.Valid;
      hide Fit;
      hide Stop;
      hide BlanksEnterLeft;
      hide IsBlank;
      WordLeftIsStopIff(View().draft);
      CaretInText(View().draft);
      anchor := None;
      var ending := FindEnd(pastes, cursor);
      if ending.Some? {
        cursor := ending.value.start;
        column := None;
        return;
      }
      var at := cursor;
      while at > 0 && IsBlank(text[at - 1])
        invariant 0 <= at <= |text| && BlanksLeft(text, at) == BlanksLeft(text, cursor)
      {
        at := at - 1;
      }
      ghost var from := at;
      while at > 0
        invariant 0 <= at <= |text| && WordLeftFrom(text, pastes, at) == WordLeftFrom(text, pastes, from)
      {
        var chip := FindEnd(pastes, at);
        if chip.Some? {
          cursor := chip.value.start;
          column := None;
          return;
        }
        if IsBlank(text[at - 1]) {
          break;
        }
        at := at - 1;
      }
      cursor := at;
      column := None;
    }

    method MoveLeft()
      requires Drafts.Valid(View().draft)
      modifies `cursor, `anchor, `column
      ensures View() == old(View()).Resting().At(
                if old(View()).draft.IsSelecting() then old(View()).draft.SelectionStart()
                else old(View()).draft.StepLeft())
    {
      StepsAreStops(View().draft);
      if anchor.Some? && anchor.value != cursor {
        cursor := Min(anchor.value, cursor);
      } else {
        var ending := FindEnd(pastes, cursor);
        cursor := if ending.Some? then ending.value.start else Monus(cursor, 1);
      }
      anchor := None;
      column := None;
    }

    method MoveRight()
      requires Drafts.Valid(View().draft)
      modifies `cursor, `anchor, `column
      ensures View() == old(View()).Resting().At(
                if old(View()).draft.IsSelecting() then old(View()).draft.SelectionEnd()
                else old(View()).draft.StepRight())
    {
      StepsAreStops(View().draft);
      if anchor.Some? && anchor.value != cursor {
        cursor := Max(anchor.value, cursor);
      } else {
        var starting := FindStart(pastes, cursor);
        cursor := if starting.Some? then starting.value.end else Min(cursor + 1, |text|);
      }
      anchor := None;
      column := None;
    }

    /** Over one word to the right. */
    method SkipWordRight(from: nat) returns (at: nat)
      requires from <= |text|
      ensures at == WordRightFrom(text, pastes, from)
    {
      at := from;
      while at < |text|
        invariant from <= at <= |text| && WordRightFrom(text, pastes, at) == WordRightFrom(text, pastes, from)
      {
        if FindStart(pastes, at + 1).Some? || IsBlank(text[at]) {
          break;
        }
        at := at + 1;
      }
    }

    /** Over blanks to the right. */
    method SkipBlanksRight(from: nat) returns (at: nat)
      requires from <= |text|
      ensures at == BlanksRight(text, from)
    {
      at := from;
      while at < |text|
        invariant from <= at <= |text| && BlanksRight(text, at) == BlanksRight(text, from)
      {
        if !IsBlank(text[at]) {
          break;
        }
        at := at + 1;
      }
    }

    /** The motion to the right: over one word or chip, then over blanks. */
    method MoveWordRight()
      requires Drafts.Valid(View().draft)
      modifies `cursor, `anchor, `column
      ensures PastWord(old(View()).draft) <= |text|
      ensures View() == old(View()).Resting().At(Motions.WordRight(old(View()).draft))
      ensures Stop(pastes, cursor) <==> !BlanksEnterRight(old(View()).draft)
    {
      PastWordIsStop(View().draft);
      WordRightIsStopIff(View().draft);
      hide Drafts.Valid;
      hide Fit;
      hide Stop;
      hide BlanksEnterRight;
      hide BlanksRight;
      hide WordRightFrom;
      var starting := FindStart(pastes, cursor);
      var at: nat;
      if starting.Some? {
        at := starting.value.end;
      } else {
        at := SkipWordRight(cursor);
      }
      at := SkipBlanksRight(at);
      anchor := None;
      cursor := at;
      column := None;
    }

    /** Deletes over blanks and one word or chip to the right. */
    method DeleteWordRight()
      requires Drafts.Valid(View().draft)
      modifies this
      ensures View() == old(View()).DeleteWordRight()
    {
      var deleted := DeleteSelection();
      if deleted {
        return;
      }
      WordEndInBounds(View().draft);
      hide Drafts.Valid;
      hide ValidText;
      hide Trim;
      Commit();
      var start := cursor;
      var end := SkipBlanksRight(start);
      var starting := FindStart(pastes, end);
      if starting.Some? {
        end := starting.value.end;
      } else {
        ghost var word := end;
        while end < |text| && FindStart(pastes, end).None? && !IsBlank(text[end])
          invariant word <= end <= |text| && WordEndFrom(text, pastes, end) == WordEndFrom(text, pastes, word)
        {
          end := end + 1;
        }
      }
      DeleteRange(start, end, true);
    }

    method DeleteToLineStart()
      requires Drafts.Valid(View().draft)
      modifies this
      ensures View() == old(View()).DeleteToLineStart()
    {
      var deleted := DeleteSelection();
      if deleted {
        return;
      }
      Commit();
      var draft := Draft(text, cursor, anchor, pastes);
      DeleteRange(LineStart(draft, CursorLine(draft)), cursor, true);
    }

    method DeleteToLineEnd()
      requires Drafts.Valid(View().draft)
      modifies this
      ensures View() == old(View()).DeleteToLineEnd()
    {
      var deleted := DeleteSelection();
      if deleted {
        return;
      }
      Commit();
      var draft := Draft(text, cursor, anchor, pastes);
      DeleteRange(cursor, LineEnd(draft, CursorLine(draft)), true);
    }

    /** Up one displayed line, to the remembered column. */
    method MoveUp(cells: char -> nat) returns (moved: bool)
      requires Fit(pastes, |text|)
      modifies `cursor, `anchor, `column
      ensures View() == old(View()).MoveUp(cells)
      ensures moved <==> CursorLine(old(View()).draft) != 0
    {
      hide Fit;
      hide CursorLine;
      hide CursorColumn;
      hide OffsetAtColumn;
      var draft := Draft(text, cursor, anchor, pastes);
      anchor := None;
      var line := CursorLine(draft);
      if line == 0 {
        return false;
      }
      var wanted := if column.Some? then column.value else CursorColumn(draft, cells);
      cursor := OffsetAtColumn(draft, line - 1, wanted, cells);
      column := Some(wanted);
      return true;
    }

    /** Down one displayed line, to the remembered column. */
    method MoveDown(cells: char -> nat) returns (moved: bool)
      requires Fit(pastes, |text|)
      modifies `cursor, `anchor, `column
      ensures View() == old(View()).MoveDown(cells)
      ensures moved <==> CursorLine(old(View()).draft) < Newlines(Projections.Shown(old(text), old(pastes)))
    {
      hide Fit;
      hide CursorLine;
      hide CursorColumn;
      hide OffsetAtColumn;
      var draft := Draft(text, cursor, anchor, pastes);
      anchor := None;
      var line := CursorLine(draft);
      if line >= Newlines(Projections.Shown(text, pastes)) {
        return false;
      }
      var wanted := if column.Some? then column.value else CursorColumn(draft, cells);
      cursor := OffsetAtColumn(draft, line + 1, wanted, cells);
      column := Some(wanted);
      return true;
    }

    // ---- draft lifecycle ----------------------------------------------

    /** Another text with the caret at its end, without selection or chips. */
    method Replace(to: string)
      modifies `text, `version, `cursor, `anchor, `pastes, `column
      ensures View() == old(View()).Edited(Draft(to, |to|, None, []), 1)
    {
      text := to;
      version := version + 1;
      cursor := |text|;
      anchor := None;
      pastes := [];
      column := None;
    }

    method SetText(to: string)
      modifies this
      ensures View() == old(View()).SetText(to)
    {
      Replace(to);
      undo, redo := [], [];
      gesture, recall := None, None;
    }

    method RestoreText(to: string)
      modifies this
      ensures View() == old(View()).RestoreText(to)
    {
      if text == to {
        return;
      }
      Commit();
      Replace(to);
    }

    method Clear()
      modifies this
      ensures View() == old(View()).Clear()
    {
      if text == "" {
        return;
      }
      Snapshot();
      Replace("");
      hide Trim;
      Commit();
    }

    method Remember(entry: Entry) returns (changed: bool)
      modifies `history
      ensures View() == old(View()).Remember(entry)
      ensures !changed ==> history == old(history)
    {
      var repeat := history != [] && history[|history| - 1].text == entry.text;
      if (forall i | 0 <= i < |entry.text| :: IsBlank(entry.text[i])) || repeat {
        return false;
      }
      history := history + [entry.(rollback := None)];
      if |history| > HISTORY_STEPS {
        history := history[1..];
      }
      return true;
    }

    method TakeSubmission() returns (entry: Entry)
      modifies this
      ensures View() == old(View()).TakeSubmission()
      ensures entry == old(View()).Submission()
    {
      Commit();
      entry := Entry(text, pastes, Some((undo, redo)));
      text, pastes, undo, redo := "", [], [], [];
      version := version + 1;
      cursor := 0;
      anchor := None;
      column := None;
      recall := None;
      saved := NoEntry;
    }

    method Load(entry: Entry)
      modifies this
      ensures View() == old(View()).Load(entry)
    {
      CloseGesture();
      recall := None;
      gesture := None;
      text := entry.text;
      version := version + 1;
      cursor := |text|;
      anchor := None;
      pastes := entry.pastes;
      column := None;
    }

    method RestoreSubmission(entry: Entry)
      modifies this
      ensures View() == old(View()).RestoreSubmission(entry)
    {
      Load(entry);
      if entry.rollback.Some? {
        undo, redo := entry.rollback.value.0, entry.rollback.value.1;
      }
    }

    method HistoryPrev() returns (recalled: bool)
      requires recall.Some? ==> recall.value < |history|
      modifies this
      ensures View() == old(View()).HistoryPrev()
      ensures recalled <==> old(history) != [] && old(recall) != Some(0)
    {
      if history == [] {
        return false;
      }
      CloseGesture();
      if recall == Some(0) {
        return false;
      }
      var index;
      if recall.None? {
        saved := Entry(text, pastes, None);
        index := |history| - 1;
      } else {
        index := recall.value - 1;
      }
      Load(history[index]);
      recall := Some(index);
      return true;
    }

    method HistoryNext() returns (recalled: bool)
      modifies this
      ensures View() == old(View()).HistoryNext()
      ensures recalled <==> old(recall).Some?
    {
      if recall.None? {
        return false;
      }
      var index := recall.value;
      if index + 1 < |history| {
        Load(history[index + 1]);
        recall := Some(index + 1);
        return true;
      }
      var draft := saved;
      saved := NoEntry;
      Load(draft);
      recall := None;
      return true;
    }
  }
}

/** Where the text of an operation is after each answer, and how operations go over a run. */
module LedgerAnswers {
  import opened Wrappers
  import opened Projections
  import opened Drafts
  import opened Motions
  import opened Editors
  import opened Ledgers
  import opened LedgerLaws
  import opened LedgerOutcomes

  // ---- one answer -------------------------------------------------------

  /** The editor shows the entry, and can undo and redo what could be undone and redone when it was sent. */
  ghost predicate ShowsEntry(e: Editor, entry: Entry) {
    && e.draft.text == entry.text && e.draft.pastes == entry.pastes
    && (entry.rollback.Some? ==> e.undo == entry.rollback.value.0 && e.redo == entry.rollback.value.1)
  }

  /** The draft and its undo steps are as they were. */
  ghost predicate SameDraft(a: Editor, b: Editor) {
    a.draft == b.draft && a.undo == b.undo && a.redo == b.redo && a.gesture == b.gesture
  }

  /** The newest prompt to recall has the text, unless that is blank. */
  ghost predicate Recallable(before: Editor, after: Editor, text: string) {
    if IsBlankText(text) then after.history == before.history
    else after.history != [] && after.history[|after.history| - 1].text == text
  }

  /** Nothing but the operation `id` changed in the ledger. */
  ghost predicate OnlyChanges(before: Ledger, after: Ledger, id: nat) {
    && (forall other | other != id && Known(before.held.inputs, other) ::
          Known(after.held.inputs, other) && InputOf(after.held.inputs, other) == InputOf(before.held.inputs, other))
    && after.held.firstSubmission == before.held.firstSubmission && after.held.firstMessage == before.held.firstMessage
    && after.screen == before.screen && after.review == before.review && after.returned == before.returned
    && after.nextId == before.nextId
  }

  /** The composer is as it was when the operation was sent, and still shows its session. */
  ghost predicate Untouched(l: Ledger, input: LocalInput, remote: bool) {
    && input.retryOf.None? && l.composer.draft.text == "" && l.composer.version == input.draftVersion
    && !remote && l.screen.current == Some(input.target)
  }

  /** How an answer to an operation that is being sent leaves it. */
  ghost predicate Answered(l: Ledger, after: Ledger, id: nat, answer: Answer, remote: bool)
    requires Known(l.held.inputs, id)
  {
    var input := InputOf(l.held.inputs, id);
    if answer == Receipt(true) then
      && !Known(after.held.inputs, id)
      && SameDraft(after.composer, l.composer) && Recallable(l.composer, after.composer, input.entry.text)
    else if answer == Refused && Untouched(l, input, remote) then
      !Known(after.held.inputs, id) && ShowsEntry(after.composer, input.entry)
    else if answer == Refused then
      && Known(after.held.inputs, id) && after.composer == l.composer
      && InputOf(after.held.inputs, id) == input.(status := Rejected)
    else
      && Known(after.held.inputs, id) && after.composer == l.composer
      && InputOf(after.held.inputs, id) == input.(status := Unconfirmed, entry := input.entry.(rollback := None))
  }

  lemma WithoutOthers(inputs: seq<LocalInput>, i: nat)
    requires Ascending(inputs) && i < |inputs|
    ensures forall other | other != inputs[i].id && Known(inputs, other) ::
              && Known(inputs[..i] + inputs[i + 1..], other)
              && InputOf(inputs[..i] + inputs[i + 1..], other) == InputOf(inputs, other)
  {
    forall other | other != inputs[i].id && Known(inputs, other)
      ensures Known(inputs[..i] + inputs[i + 1..], other)
      ensures InputOf(inputs[..i] + inputs[i + 1..], other) == InputOf(inputs, other)
    {
      WithoutKeeps(inputs, i, other);
    }
  }

  lemma MarkedOthers(inputs: seq<LocalInput>, i: nat, input: LocalInput)
    requires Ascending(inputs) && i < |inputs| && input.id == inputs[i].id
    ensures Known(inputs[i := input], input.id) && InputOf(inputs[i := input], input.id) == input
    ensures forall other | other != input.id && Known(inputs, other) ::
              Known(inputs[i := input], other) && InputOf(inputs[i := input], other) == InputOf(inputs, other)
  {
    FoundAt(inputs[i := input], i);
    forall other | other != input.id && Known(inputs, other)
      ensures Known(inputs[i := input], other) && InputOf(inputs[i := input], other) == InputOf(inputs, other)
    {
      FoundAt(inputs[i := input], Position(inputs, other));
    }
  }

  lemma RememberedIsRecallable(e: Editor, entry: Entry)
    ensures SameDraft(e.Remember(entry), e) && Recallable(e, e.Remember(entry), entry.text)
  {
  }

  lemma RestoredShows(e: Editor, entry: Entry)
    ensures ShowsEntry(e.RestoreSubmission(entry), entry)
  {
  }

  /** An answer leaves the operation confirmed and recallable, back in the composer, or marked, and
      touches nothing else. */
  lemma AnswerIsHonoured(l: Ledger, id: nat, answer: Answer, remote: bool)
    requires Numbered(l) && Known(l.held.inputs, id) && InputOf(l.held.inputs, id).status == Sending
    ensures Answered(l, l.Replied(id, answer, remote), id, answer, remote)
    ensures OnlyChanges(l, l.Replied(id, answer, remote), id)
  {
    hide Editor.Remember;
    hide Editor.RestoreSubmission;
    hide Ascending;
    hide Position;
    hide Recallable;
    hide ShowsEntry;
    hide SameDraft;
    var i := Position(l.held.inputs, id);
    var input := l.held.inputs[i];
    WithoutOthers(l.held.inputs, i);
    WithoutDrops(l.held.inputs, i);
    MarkedOthers(l.held.inputs, i, input.(status := Rejected));
    MarkedOthers(l.held.inputs, i, input.(status := Unconfirmed, entry := Discarded(input.entry)));
    RememberedIsRecallable(l.composer, input.entry);
    RestoredShows(l.composer, input.entry);
  }

  /** An answer to an operation that is gone, or that was answered before, changes nothing. */
  lemma LateAnswerIsIgnored(l: Ledger, id: nat, answer: Answer, remote: bool)
    requires Known(l.held.inputs, id) ==> InputOf(l.held.inputs, id).status != Sending
    ensures l.Replied(id, answer, remote) == l
  {
  }

  // ---- resending --------------------------------------------------------

  /** What a confirmed resend does with the text: a new operation that names the old one, with the old
      one kept; or, for an edited text that cannot be sent, back into its buffer. */
  ghost predicate ResentAs(l: Ledger, after: Ledger, input: LocalInput, entry: Entry, edited: bool) {
    && l.held.inputs <= after.held.inputs && after.composer == l.composer
    && if !IsBlankText(entry.text) && l.held.Room(RetainedBytes(entry)) then
         && |after.held.inputs| == |l.held.inputs| + 1
         && var sent := after.held.inputs[|l.held.inputs|];
            && sent.id == l.nextId && sent.entry == entry && sent.target == input.target && sent.mode == input.mode
            && sent.status == Sending && sent.retryOf == Some(input.id)
       else after.held == l.held && (edited ==> ShowsEntry(after.editor, entry))
  }

  lemma ResendIsHonoured(l: Ledger, id: nat, live: bool)
    requires Known(l.held.inputs, id) && live
    ensures var input := InputOf(l.held.inputs, id);
            && ResentAs(l, l.Resent(id, false, false, live), input, input.entry, false)
            && ResentAs(l, l.Resent(id, true, false, live), input, l.editor.Submission(), true)
  {
    hide Editor.RestoreSubmission;
    hide Editor.TakeSubmission;
    hide RetainedBytes;
    hide IsBlankText;
    RestoredShows(l.editor, l.editor.Submission());
    RestoredShows(l.editor.TakeSubmission(), l.editor.Submission());
  }

  // ---- whole runs -------------------------------------------------------

  /** The step at which an operation goes: confirmed by a receipt, given back to the composer that then
      shows it, or forgotten by the user. */
  ghost predicate Goes(l: Ledger, step: Step, id: nat)
    requires Known(l.held.inputs, id)
  {
    var input := InputOf(l.held.inputs, id);
    match step
    case Reply(answered, answer, _) =>
      && answered == id && input.status == Sending
      && (|| answer == Receipt(true)
          || (answer == Refused && ShowsEntry(Next(l, step).composer, input.entry)))
    case Forgetting => l.review == Some(Forget(id))
    case _ => false
  }

  lemma ResolvedGoes(l: Ledger, step: Step, id: nat)
    requires Numbered(l) && Known(l.held.inputs, id) && Resolves(l, step, id)
    ensures Goes(l, step, id)
  {
    if step.Reply? {
      AnswerIsHonoured(l, id, step.answer, step.remote);
    }
    hide ShowsEntry;
  }

  ghost predicate GoneAt(l: Ledger, steps: seq<Step>, id: nat, n: nat)
    requires n < |steps|
  {
    var before := After(l, steps[..n]);
    Known(before.held.inputs, id) && Goes(before, steps[n], id)
  }

  lemma AfterRest(l: Ledger, steps: seq<Step>, n: nat)
    requires 0 < n <= |steps|
    ensures After(l, steps[..n]) == After(Next(l, steps[0]), steps[1..][..n - 1])
  {
    assert steps[..n][1..] == steps[1..][..n - 1];
  }

  /** Over any run, an operation that is gone went at some step, and its text was confirmed, shown in the
      composer, or forgotten by the user there. */
  lemma {:induction false} GoneIsAccountedFor(l: Ledger, steps: seq<Step>, id: nat) returns (n: nat)
    requires Numbered(l) && Known(l.held.inputs, id) && !Known(After(l, steps).held.inputs, id)
    ensures n < |steps| && GoneAt(l, steps, id, n)
    decreases |steps|
  {
    var next := Next(l, steps[0]);
    StepNumbered(l, steps[0]);
    if Resolves(l, steps[0], id) {
      ResolvedGoes(l, steps[0], id);
      n := 0;
    } else {
      StepKeeps(l, steps[0], id);
      var m := GoneIsAccountedFor(next, steps[1..], id);
      n := m + 1;
      AfterRest(l, steps, n);
    }
  }
}

/** Each operation of the ledger: how it is known, what it keeps, and the only ways it leaves. */
module LedgerOutcomes {
  import opened Wrappers
  import opened Projections
  import opened Drafts
  import opened Motions
  import opened Editors
  import opened Ledgers
  import opened LedgerLaws

  // ---- identity --------------------------------------------------------

  predicate Ascending(inputs: seq<LocalInput>) {
    forall i, j | 0 <= i < j < |inputs| :: inputs[i].id < inputs[j].id
  }

  /** Operations are numbered in the order they were sent. */
  predicate Before(inputs: seq<LocalInput>, nextId: nat) {
    forall i | 0 <= i < |inputs| :: inputs[i].id < nextId
  }

  predicate Numbered(l: Ledger) {
    Ascending(l.held.inputs) && Before(l.held.inputs, l.nextId)
  }

  predicate Known(inputs: seq<LocalInput>, id: nat) {
    Position(inputs, id) < |inputs|
  }

  function InputOf(inputs: seq<LocalInput>, id: nat): LocalInput
    requires Known(inputs, id)
  {
    inputs[Position(inputs, id)]
  }

  lemma FoundAt(inputs: seq<LocalInput>, k: nat)
    requires Ascending(inputs) && k < |inputs|
    ensures Position(inputs, inputs[k].id) == k
  {
    var p := Position(inputs, inputs[k].id);
    assert p <= k;
    assert p < |inputs| && inputs[p].id == inputs[k].id;
  }

  lemma NotFound(inputs: seq<LocalInput>, id: nat)
    requires forall i | 0 <= i < |inputs| :: inputs[i].id != id
    ensures !Known(inputs, id)
  {
  }

  // ---- the shapes a step can give the list ------------------------------

  /** Only the status changed, and the undo history may have gone. */
  predicate Same(a: LocalInput, b: LocalInput) {
    && a.id == b.id && a.target == b.target && a.mode == b.mode && a.retryOf == b.retryOf
    && a.entry.text == b.entry.text && a.entry.pastes == b.entry.pastes
    && (a.status == b.status || a.status == Sending)
  }

  lemma PrefixKeeps(a: seq<LocalInput>, b: seq<LocalInput>, id: nat)
    requires Ascending(b) && a <= b && Known(a, id)
    ensures Known(b, id) && InputOf(b, id) == InputOf(a, id)
  {
    FoundAt(b, Position(a, id));
  }

  lemma WithoutKeeps(inputs: seq<LocalInput>, i: nat, id: nat)
    requires Ascending(inputs) && i < |inputs| && Known(inputs, id) && id != inputs[i].id
    ensures Ascending(inputs[..i] + inputs[i + 1..])
    ensures Known(inputs[..i] + inputs[i + 1..], id)
    ensures InputOf(inputs[..i] + inputs[i + 1..], id) == InputOf(inputs, id)
  {
    var left, k := inputs[..i] + inputs[i + 1..], Position(inputs, id);
    FoundAt(left, if k < i then k else k - 1);
  }

  lemma WithoutDrops(inputs: seq<LocalInput>, i: nat)
    requires Ascending(inputs) && i < |inputs|
    ensures !Known(inputs[..i] + inputs[i + 1..], inputs[i].id)
  {
    var left := inputs[..i] + inputs[i + 1..];
    forall k | 0 <= k < |left| ensures left[k].id != inputs[i].id {
      assert left[k] == inputs[if k < i then k else k + 1];
    }
    NotFound(left, inputs[i].id);
  }

  lemma MarkedKeeps(inputs: seq<LocalInput>, i: nat, input: LocalInput, id: nat)
    requires Ascending(inputs) && i < |inputs| && Known(inputs, id) && Same(inputs[i], input)
    ensures Ascending(inputs[i := input])
    ensures Known(inputs[i := input], id) && Same(InputOf(inputs, id), InputOf(inputs[i := input], id))
  {
    FoundAt(inputs[i := input], Position(inputs, id));
  }

  // ---- numbering -------------------------------------------------------

  /** Operations were only added, numbered later than all before. */
  predicate Longer(inputs: seq<LocalInput>, nextId: nat, more: seq<LocalInput>, later: nat) {
    && inputs <= more && nextId <= later
    && Ascending(more) && Before(more, later)
    && forall k | |inputs| <= k < |more| :: nextId <= more[k].id
  }

  predicate Adds(l: Ledger, after: Ledger) {
    Longer(l.held.inputs, l.nextId, after.held.inputs, after.nextId)
  }

  lemma PushAdds(l: Ledger, target: Target, entry: Entry, mode: InputMode, retryOf: Option<nat>)
    requires Numbered(l)
    ensures Adds(l, l.Push(target, entry, mode, retryOf))
  {
  }

  lemma SubmitAdds(l: Ledger, follow: bool, ready: bool)
    requires Numbered(l)
    ensures Adds(l, l.Submit(follow, ready))
  {
    if l.review.None? && l.CanSubmit(ready) && l.screen.current.Some? {
      PushAdds(l.Taken(), l.screen.current.value, l.composer.Submission(), if follow then FollowUp else Steer, None);
    }
  }

  lemma CreatedAdds(l: Ledger, target: Target, shown: Editor)
    requires Numbered(l)
    ensures Adds(l, l.Created(target, shown))
  {
    if l.held.firstMessage.Some? {
      PushAdds(l.Installed(target, shown), target, l.FirstEntry(), Steer, None);
    }
  }

  lemma SendAgainAdds(l: Ledger, input: LocalInput, entry: Entry, edited: bool)
    requires Numbered(l)
    ensures Adds(l, l.SendAgain(input, entry, edited))
  {
    PushAdds(l, input.target, entry, input.mode, Some(input.id));
  }

  lemma ResentAdds(l: Ledger, id: nat, edited: bool, remote: bool, live: bool)
    requires Numbered(l)
    ensures Adds(l, l.Resent(id, edited, remote, live))
  {
    var i := Position(l.held.inputs, id);
    if i < |l.held.inputs| {
      var input := l.held.inputs[i];
      SendAgainAdds(l.(editor := l.editor.TakeSubmission()), input, l.editor.Submission(), true);
      SendAgainAdds(l, input, input.entry, false);
    }
  }

  /** A step other than an answer or a forget only adds operations. */
  lemma StepAdds(l: Ledger, step: Step)
    requires Numbered(l) && !step.Reply? && !step.Forgetting?
    ensures Adds(l, Next(l, step))
  {
    match step
    case Submitting(follow, ready) => SubmitAdds(l, follow, ready);
    case Create(target, shown) => CreatedAdds(l, target, shown);
    case Resending(remote, live) =>
      if l.review.Some? && (l.review.value.Resend? || l.review.value.ResendEdited?) {
        ResentAdds(l, l.review.value.id, l.review.value.ResendEdited?, remote, live);
      }
    case _ =>
  }

  // ---- leaving ---------------------------------------------------------

  /** A confirming receipt, a refusal given back to the composer, or an explicit forget. */
  predicate Resolves(l: Ledger, step: Step, id: nat) {
    && Known(l.held.inputs, id)
    && var input := InputOf(l.held.inputs, id);
       match step
       case Reply(answered, answer, remote) =>
         && answered == id && input.status == Sending
         && (answer == Receipt(true) || (answer == Refused && l.Restorable(input, remote)))
       case Forgetting => l.review == Some(Forget(id))
       case _ => false
  }

  lemma ReplyKeeps(l: Ledger, step: Step, id: nat)
    requires Numbered(l) && Known(l.held.inputs, id) && step.Reply? && !Resolves(l, step, id)
    ensures Known(Next(l, step).held.inputs, id)
    ensures Same(InputOf(l.held.inputs, id), InputOf(Next(l, step).held.inputs, id))
  {
    var inputs, i := l.held.inputs, Position(l.held.inputs, step.id);
    if i < |inputs| && inputs[i].status == Sending {
      var input := inputs[i];
      if step.answer == Receipt(true) || (step.answer == Refused && l.Restorable(input, step.remote)) {
        WithoutKeeps(inputs, i, id);
      } else if step.answer == Refused {
        MarkedKeeps(inputs, i, input.(status := Rejected), id);
      } else {
        MarkedKeeps(inputs, i, input.(status := Unconfirmed, entry := Discarded(input.entry)), id);
      }
    }
  }

  lemma ForgetKeeps(l: Ledger, id: nat)
    requires Numbered(l) && Known(l.held.inputs, id) && !Resolves(l, Forgetting, id)
    ensures Known(Next(l, Forgetting).held.inputs, id)
    ensures Same(InputOf(l.held.inputs, id), InputOf(Next(l, Forgetting).held.inputs, id))
  {
    if l.review.Some? && l.review.value.Forget? {
      var i := Position(l.held.inputs, l.review.value.id);
      if i < |l.held.inputs| {
        WithoutKeeps(l.held.inputs, i, id);
      }
    }
  }

  /** Unless a step resolves it, an operation stays, with its text, its target and its origin. */
  lemma StepKeeps(l: Ledger, step: Step, id: nat)
    requires Numbered(l) && Known(l.held.inputs, id) && !Resolves(l, step, id)
    ensures Known(Next(l, step).held.inputs, id)
    ensures Same(InputOf(l.held.inputs, id), InputOf(Next(l, step).held.inputs, id))
  {
    if step.Reply? {
      ReplyKeeps(l, step, id);
    } else if step.Forgetting? {
      ForgetKeeps(l, id);
    } else {
      StepAdds(l, step);
      PrefixKeeps(l.held.inputs, Next(l, step).held.inputs, id);
    }
  }

  lemma StepDrops(l: Ledger, step: Step, id: nat)
    requires Numbered(l) && Known(l.held.inputs, id) && Resolves(l, step, id)
    ensures !Known(Next(l, step).held.inputs, id)
  {
    WithoutDrops(l.held.inputs, Position(l.held.inputs, id));
  }

  /** What is left after one operation went is still in order. */
  lemma WithoutOrder(inputs: seq<LocalInput>, i: nat, nextId: nat)
    requires Ascending(inputs) && Before(inputs, nextId) && i < |inputs|
    ensures Ascending(inputs[..i] + inputs[i + 1..]) && Before(inputs[..i] + inputs[i + 1..], nextId)
  {
    var left := inputs[..i] + inputs[i + 1..];
    assert forall k | 0 <= k < |left| :: left[k] == inputs[if k < i then k else k + 1];
  }

  lemma MarkedOrder(inputs: seq<LocalInput>, i: nat, input: LocalInput, nextId: nat)
    requires Ascending(inputs) && Before(inputs, nextId) && i < |inputs| && input.id == inputs[i].id
    ensures Ascending(inputs[i := input]) && Before(inputs[i := input], nextId)
  {
  }

  lemma ReplyNumbered(l: Ledger, step: Step)
    requires Numbered(l) && step.Reply?
    ensures Numbered(Next(l, step)) && Next(l, step).nextId == l.nextId
  {
    var inputs, i := l.held.inputs, Position(l.held.inputs, step.id);
    if i < |inputs| && inputs[i].status == Sending {
      var input := inputs[i];
      WithoutOrder(inputs, i, l.nextId);
      MarkedOrder(inputs, i, input.(status := Rejected), l.nextId);
      MarkedOrder(inputs, i, input.(status := Unconfirmed, entry := Discarded(input.entry)), l.nextId);
    }
  }

  lemma ForgetNumbered(l: Ledger)
    requires Numbered(l)
    ensures Numbered(l.ConfirmForget()) && l.ConfirmForget().nextId == l.nextId
  {
    if l.review.Some? && l.review.value.Forget? && Known(l.held.inputs, l.review.value.id) {
      WithoutOrder(l.held.inputs, Position(l.held.inputs, l.review.value.id), l.nextId);
    }
  }

  lemma StepNumbered(l: Ledger, step: Step)
    requires Numbered(l)
    ensures Numbered(Next(l, step)) && l.nextId <= Next(l, step).nextId
  {
    if step.Reply? {
      ReplyNumbered(l, step);
    } else if step.Forgetting? {
      ForgetNumbered(l);
    } else {
      StepAdds(l, step);
    }
  }

  predicate Absent(inputs: seq<LocalInput>, id: nat) {
    forall i | 0 <= i < |inputs| :: inputs[i].id != id
  }

  lemma AbsentWithout(inputs: seq<LocalInput>, i: nat, id: nat)
    requires Absent(inputs, id) && i < |inputs|
    ensures Absent(inputs[..i] + inputs[i + 1..], id)
  {
    var left := inputs[..i] + inputs[i + 1..];
    assert forall k | 0 <= k < |left| :: left[k] == inputs[if k < i then k else k + 1];
  }

  /** A number that is gone does not come back. */
  lemma StepStaysAbsent(l: Ledger, step: Step, id: nat)
    requires Numbered(l) && id < l.nextId && Absent(l.held.inputs, id)
    ensures Absent(Next(l, step).held.inputs, id)
  {
    if step.Reply? {
      var i := Position(l.held.inputs, step.id);
      if i < |l.held.inputs| {
        AbsentWithout(l.held.inputs, i, id);
      }
    } else if step.Forgetting? {
      if l.review.Some? && l.review.value.Forget? && Known(l.held.inputs, l.review.value.id) {
        AbsentWithout(l.held.inputs, Position(l.held.inputs, l.review.value.id), id);
      }
    } else {
      StepAdds(l, step);
    }
  }

  predicate NeverResolved(l: Ledger, steps: seq<Step>, id: nat)
    decreases |steps|
  {
    steps != [] ==> !Resolves(l, steps[0], id) && NeverResolved(Next(l, steps[0]), steps[1..], id)
  }

  lemma {:induction false} RunStaysAbsent(l: Ledger, steps: seq<Step>, id: nat)
    requires Numbered(l) && id < l.nextId && Absent(l.held.inputs, id)
    ensures Absent(After(l, steps).held.inputs, id)
    decreases |steps|
  {
    if steps != [] {
      StepNumbered(l, steps[0]);
      StepStaysAbsent(l, steps[0], id);
      RunStaysAbsent(Next(l, steps[0]), steps[1..], id);
    }
  }

  /** Over any run an operation is still there exactly if no step resolved it. */
  lemma {:induction false} LeavesOnlyResolved(l: Ledger, steps: seq<Step>, id: nat)
    requires Numbered(l) && Known(l.held.inputs, id)
    ensures Known(After(l, steps).held.inputs, id) <==> NeverResolved(l, steps, id)
    decreases |steps|
  {
    if steps != [] {
      var next := Next(l, steps[0]);
      StepNumbered(l, steps[0]);
      if Resolves(l, steps[0], id) {
        StepDrops(l, steps[0], id);
        RunStaysAbsent(next, steps[1..], id);
      } else {
        StepKeeps(l, steps[0], id);
        LeavesOnlyResolved(next, steps[1..], id);
      }
    }
  }

  /** And while it is there its text, pastes, target and mode are those it was sent with. */
  lemma {:induction false} KeptAsSent(l: Ledger, steps: seq<Step>, id: nat)
    requires Numbered(l) && Known(l.held.inputs, id) && NeverResolved(l, steps, id)
    ensures Known(After(l, steps).held.inputs, id)
    ensures Same(InputOf(l.held.inputs, id), InputOf(After(l, steps).held.inputs, id))
    decreases |steps|
  {
    if steps != [] {
      StepNumbered(l, steps[0]);
      StepKeeps(l, steps[0], id);
      KeptAsSent(Next(l, steps[0]), steps[1..], id);
    }
  }

  // ---- review ----------------------------------------------------------

  /** The operation under review is not being sent. */
  predicate Reviewable(l: Ledger) {
    l.review.Some? && !l.review.value.List? ==>
      var id := l.review.value.id;
      id < l.nextId && (Known(l.held.inputs, id) ==> InputOf(l.held.inputs, id).status != Sending)
  }

  lemma ReviewStays(l: Ledger, step: Step)
    requires Numbered(l) && Reviewable(l) && l.review.Some? && !l.review.value.List?
    requires !step.Forgetting?
    ensures var id := l.review.value.id;
            Known(Next(l, step).held.inputs, id) ==> InputOf(Next(l, step).held.inputs, id).status != Sending
  {
    var id := l.review.value.id;
    if Known(l.held.inputs, id) {
      if Resolves(l, step, id) {
        StepDrops(l, step, id);
      } else {
        StepKeeps(l, step, id);
      }
    } else {
      StepStaysAbsent(l, step, id);
      NotFound(Next(l, step).held.inputs, id);
    }
  }

  /** What can be under review after a step. */
  lemma ReviewAfter(l: Ledger, step: Step)
    requires Numbered(l)
    ensures
      var after := Next(l, step);
      || after.review.None? || after.review.value.List?
      || (l.review.Some? && !l.review.value.List? && after.review.value.id == l.review.value.id)
      || (step.Asking? && after.held == l.held && Known(l.held.inputs, after.review.value.id)
          && InputOf(l.held.inputs, after.review.value.id).status != Sending)
  {
  }

  lemma StepReviewable(l: Ledger, step: Step)
    requires Numbered(l) && Reviewable(l)
    ensures Reviewable(Next(l, step))
  {
    StepNumbered(l, step);
    ReviewAfter(l, step);
    if l.review.Some? && !l.review.value.List? && !step.Forgetting? {
      ReviewStays(l, step);
    }
  }

  lemma {:induction false} RunReviewable(l: Ledger, steps: seq<Step>)
    requires Numbered(l) && Reviewable(l)
    ensures Numbered(After(l, steps)) && Reviewable(After(l, steps))
    decreases |steps|
  {
    if steps != [] {
      StepNumbered(l, steps[0]);
      StepReviewable(l, steps[0]);
      RunReviewable(Next(l, steps[0]), steps[1..]);
    }
  }

  /** An operation that is still being sent cannot be forgotten. */
  lemma SendingIsNeverForgotten(steps: seq<Step>, id: nat)
    requires Resolves(After(Start, steps), Forgetting, id)
    ensures InputOf(After(Start, steps).held.inputs, id).status != Sending
  {
    RunReviewable(Start, steps);
  }

  // ---- submissions -----------------------------------------------------

  /** Wherever a submitted text goes: to an operation, to a reservation, or back to the composer. */
  predicate Holds(l: Ledger, text: string) {
    || l.composer.draft.text == text
    || l.held.firstMessage == Some(text)
    || (l.held.inputs != [] && l.held.inputs[|l.held.inputs| - 1].entry.text == text)
  }

  lemma PushHolds(l: Ledger, target: Target, entry: Entry, mode: InputMode, retryOf: Option<nat>)
    requires l.composer.draft.text == ""
    ensures Holds(l.Push(target, entry, mode, retryOf), entry.text)
  {
  }

  lemma SubmitEntryHolds(l: Ledger, entry: Entry, follow: bool)
    requires l.composer.draft.text == ""
    ensures Holds(l.SubmitEntry(entry, follow), entry.text)
  {
    if l.screen.current.Some? {
      PushHolds(l, l.screen.current.value, entry, if follow then FollowUp else Steer, None);
    }
  }

  lemma SubmissionIsHeld(l: Ledger, follow: bool, ready: bool)
    ensures Holds(l.Submit(follow, ready), l.composer.draft.text)
  {
    if l.review.None? && l.CanSubmit(ready) {
      SubmitEntryHolds(l.Taken(), l.composer.Submission(), follow);
    }
  }
}

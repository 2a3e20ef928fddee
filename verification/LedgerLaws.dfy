/** What every run of the ledger keeps, and how each operation leaves it. */
module LedgerLaws {
  import opened Wrappers
  import opened Projections
  import opened Drafts
  import opened DraftLaws
  import opened Motions
  import opened Editors
  import opened Ledgers

  // ---- sums ------------------------------------------------------------

  lemma {:induction false} BytesConcat(a: seq<LocalInput>, b: seq<LocalInput>)
    ensures InputBytes(a + b) == InputBytes(a) + InputBytes(b)
  {
    if b == [] {
      assert a + b == a;
    } else {
      BytesConcat(a, b[..|b| - 1]);
      assert (a + b)[..|a + b| - 1] == a + b[..|b| - 1];
    }
  }

  lemma BytesPush(inputs: seq<LocalInput>, input: LocalInput)
    ensures InputBytes(inputs + [input]) == InputBytes(inputs) + RetainedBytes(input.entry)
  {
    assert (inputs + [input])[..|inputs|] == inputs;
  }

  lemma BytesAround(inputs: seq<LocalInput>, i: nat)
    requires i < |inputs|
    ensures InputBytes(inputs) == InputBytes(inputs[..i]) + RetainedBytes(inputs[i].entry) + InputBytes(inputs[i + 1..])
  {
    hide InputBytes;
    BytesConcat(inputs[..i + 1], inputs[i + 1..]);
    assert inputs[..i + 1] + inputs[i + 1..] == inputs;
    BytesPush(inputs[..i], inputs[i]);
    assert inputs[..i] + [inputs[i]] == inputs[..i + 1];
  }

  lemma BytesWithout(inputs: seq<LocalInput>, i: nat)
    requires i < |inputs|
    ensures InputBytes(inputs[..i] + inputs[i + 1..]) == InputBytes(inputs) - RetainedBytes(inputs[i].entry)
  {
    BytesAround(inputs, i);
    BytesConcat(inputs[..i], inputs[i + 1..]);
  }

  lemma BytesMarked(inputs: seq<LocalInput>, i: nat, input: LocalInput)
    requires i < |inputs|
    ensures InputBytes(inputs[i := input]) ==
            InputBytes(inputs) - RetainedBytes(inputs[i].entry) + RetainedBytes(input.entry)
  {
    var marked := inputs[i := input];
    BytesAround(inputs, i);
    BytesAround(marked, i);
    assert marked[..i] == inputs[..i] && marked[i + 1..] == inputs[i + 1..];
  }

  // ---- the budget ------------------------------------------------------

  predicate Bounded(r: Retained) {
    r.Count() <= MAX_OPERATIONS && r.Used() <= MAX_BYTES
  }

  /** A reservation is an entry with its own text. */
  predicate Paired(r: Retained) {
    match r.firstSubmission
    case None => r.firstMessage.None?
    case Some(entry) => r.firstMessage == Some(entry.text)
  }

  predicate Fine(r: Retained) {
    Bounded(r) && Paired(r)
  }

  lemma AddFine(r: Retained, input: LocalInput)
    requires Fine(r) && r.Room(RetainedBytes(input.entry))
    ensures Fine(r.Add(input))
  {
    BytesPush(r.inputs, input);
  }

  lemma WithoutFine(r: Retained, i: nat)
    requires Fine(r) && i < |r.inputs|
    ensures Fine(r.Without(i))
  {
    BytesWithout(r.inputs, i);
  }

  lemma MarkedFine(r: Retained, i: nat, status: Status, entry: Entry)
    requires Fine(r) && i < |r.inputs| && RetainedBytes(entry) <= RetainedBytes(r.inputs[i].entry)
    ensures Fine(r.Marked(i, status, entry))
  {
    BytesMarked(r.inputs, i, r.inputs[i].(status := status, entry := entry));
  }

  lemma ReserveFine(r: Retained, entry: Entry)
    requires Fine(r) && r.Room(RetainedBytes(entry) + |entry.text|)
    ensures Fine(r.Reserve(entry))
  {
  }

  lemma PushFine(l: Ledger, target: Target, entry: Entry, mode: InputMode, retryOf: Option<nat>)
    requires Fine(l.held)
    ensures Fine(l.Push(target, entry, mode, retryOf).held)
  {
    var kept := l.held.Fitted(entry, 0);
    if l.held.Room(RetainedBytes(kept)) {
      AddFine(l.held, l.Sent(target, kept, mode, retryOf));
    }
  }

  lemma SubmitEntryFine(l: Ledger, entry: Entry, follow: bool)
    requires Fine(l.held)
    ensures Fine(l.SubmitEntry(entry, follow).held)
  {
    match l.screen.current
    case Some(target) => PushFine(l, target, entry, if follow then FollowUp else Steer, None);
    case None =>
      if l.Reservable(entry) {
        ReserveFine(l.held, l.held.Fitted(entry, |entry.text|));
      }
  }

  lemma RepliedFine(l: Ledger, id: nat, answer: Answer, remote: bool)
    requires Fine(l.held)
    ensures Fine(l.Replied(id, answer, remote).held)
  {
    var i := Position(l.held.inputs, id);
    if i < |l.held.inputs| && l.held.inputs[i].status == Sending {
      var entry := l.held.inputs[i].entry;
      WithoutFine(l.held, i);
      MarkedFine(l.held, i, Rejected, entry);
      MarkedFine(l.held, i, Unconfirmed, Discarded(entry));
    }
  }

  lemma CreatedFine(l: Ledger, target: Target, shown: Editor)
    requires Fine(l.held)
    ensures Fine(l.Created(target, shown).held)
  {
    if l.held.firstMessage.Some? {
      PushFine(l.Installed(target, shown), target, l.FirstEntry(), Steer, None);
    }
  }

  lemma SendAgainFine(l: Ledger, input: LocalInput, entry: Entry, edited: bool)
    requires Fine(l.held)
    ensures Fine(l.SendAgain(input, entry, edited).held)
  {
    PushFine(l, input.target, entry, input.mode, Some(input.id));
  }

  lemma ResentFine(l: Ledger, id: nat, edited: bool, remote: bool, live: bool)
    requires Fine(l.held)
    ensures Fine(l.Resent(id, edited, remote, live).held)
  {
    var i := Position(l.held.inputs, id);
    if i < |l.held.inputs| {
      var input := l.held.inputs[i];
      SendAgainFine(l.(editor := l.editor.TakeSubmission()), input, l.editor.Submission(), true);
      SendAgainFine(l, input, input.entry, false);
    }
  }

  lemma ForgetFine(l: Ledger)
    requires Fine(l.held)
    ensures Fine(l.ConfirmForget().held)
  {
    if l.review.Some? && l.review.value.Forget? {
      var i := Position(l.held.inputs, l.review.value.id);
      if i < |l.held.inputs| {
        WithoutFine(l.held, i);
      }
    }
  }

  lemma SubmitFine(l: Ledger, follow: bool, ready: bool)
    requires Fine(l.held)
    ensures Fine(l.Submit(follow, ready).held)
  {
    if l.review.None? && l.CanSubmit(ready) {
      SubmitEntryFine(l.Taken(), l.composer.Submission(), follow);
    }
  }

  lemma ResendFine(l: Ledger, remote: bool, live: bool)
    requires Fine(l.held)
    ensures Fine(l.ConfirmResend(remote, live).held)
  {
    if l.review.Some? && (l.review.value.Resend? || l.review.value.ResendEdited?) {
      ResentFine(l, l.review.value.id, l.review.value.ResendEdited?, remote, live);
    }
  }

  /** Every step keeps the ledger within both limits, so the room left is never negative. */
  lemma NextFine(l: Ledger, step: Step)
    requires Fine(l.held)
    ensures Fine(Next(l, step).held)
  {
    match step
    case Submitting(follow, ready) => SubmitFine(l, follow, ready);
    case Create(target, shown) => CreatedFine(l, target, shown);
    case Reply(id, answer, remote) => RepliedFine(l, id, answer, remote);
    case Resending(remote, live) => ResendFine(l, remote, live);
    case Forgetting => ForgetFine(l);
    case _ =>
  }

  lemma {:induction false} RunFine(l: Ledger, steps: seq<Step>)
    requires Fine(l.held) && Allowed(l, steps)
    ensures Fine(After(l, steps).held)
    decreases |steps|
  {
    if steps != [] {
      NextFine(l, steps[0]);
      RunFine(Next(l, steps[0]), steps[1..]);
    }
  }

  /** At most 64 operations and 16 MiB are retained over any run. */
  lemma LimitsHold(steps: seq<Step>)
    requires Allowed(Start, steps)
    ensures After(Start, steps).held.Count() <= MAX_OPERATIONS
    ensures After(Start, steps).held.Used() <= MAX_BYTES
  {
    RunFine(Start, steps);
  }

  // ---- first messages --------------------------------------------------

  /** The push of a reserved first message goes through as it was submitted, undo history included. */
  lemma AdoptionIsNeverRefused(steps: seq<Step>, target: Target, shown: Editor)
    requires Allowed(Start, steps)
    requires After(Start, steps).held.firstMessage.Some?
    ensures
      var l := After(Start, steps);
      var adopted := l.Created(target, shown);
      && l.held.firstSubmission.Some?
      && adopted.held.firstSubmission.None? && adopted.held.firstMessage.None?
      && adopted.held.inputs ==
         l.held.inputs + [LocalInput(l.nextId, target, Steer, Sending, None, l.held.firstSubmission.value,
                                     l.Installed(target, shown).composer.version)]
  {
    RunFine(Start, steps);
    AdoptedWhole(After(Start, steps), target, shown);
  }

  lemma AdoptedWhole(l: Ledger, target: Target, shown: Editor)
    requires Fine(l.held) && l.held.firstMessage.Some?
    ensures l.held.firstSubmission.Some?
    ensures l.Created(target, shown).held ==
            l.held.Unreserved().Add(l.Installed(target, shown).Sent(target, l.held.firstSubmission.value, Steer, None))
  {
    var entry := l.held.firstSubmission.value;
    assert l.held.Unreserved().Room(RetainedBytes(entry));
  }

  predicate PartAt(text: string, part: string, i: nat) {
    i + |part| <= |text| && text[i..i + |part|] == part
  }

  ghost predicate Contains(text: string, part: string) {
    exists i: nat :: PartAt(text, part, i)
  }

  lemma InsertedIsThere(d: Draft, added: string)
    requires Valid(d)
    ensures Contains(d.TypePasted(added).text, added)
  {
    EraseSelectionValid(d);
    var e := d.EraseSelection();
    var text := e.Insert(added).text;
    assert PartAt(text, added, e.cursor);
  }

  lemma EditorShows(e: Editor, text: string)
    requires Valid(e.draft)
    ensures Contains(e.Insert(text).draft.text, text)
  {
    if text == "" {
      assert PartAt(e.draft.text, text, 0);
    } else {
      InsertedIsThere(e.draft, text);
    }
  }

  /** A first message whose session could not be created comes back to the draft or to its session's view. */
  lemma FailedFirstIsRestored(l: Ledger, remote: bool)
    requires l.held.firstMessage.Some? && Valid(l.composer.draft)
    ensures GivenBack(l, l.CreateFailed(remote), l.held.firstMessage.value)
  {
    var text := l.held.firstMessage.value;
    EditorShows(l.composer, text);
    assert PartAt(text, text, 0);
  }

  /** A submission that is admitted while no session is open and another first message waits. */
  predicate Replaces(l: Ledger, step: Step) {
    && step.Submitting? && l.review.None? && l.CanSubmit(step.ready) && l.screen.current.None?
    && l.held.firstSubmission.Some? && l.Taken().Reservable(l.composer.Submission())
  }

  /** `text` is in the composer, or was handed to the session's view without touching the composer. */
  ghost predicate GivenBack(before: Ledger, after: Ledger, text: string) {
    || Contains(after.composer.draft.text, text)
    || (after.returned == before.returned + [text] && after.composer == before.composer)
  }

  /** The reservation `e` is still there, or ended the way it should: pushed whole to the session made
      for it, or given back because there is none. */
  ghost predicate Honoured(l: Ledger, step: Step, e: Entry) {
    var after := Next(l, step);
    || after.held.firstSubmission == Some(e)
    || (step.Create? && after.held.inputs != [] && after.held.inputs[|after.held.inputs| - 1].entry == e)
    || (step.CreateFail? && after.held == l.held.Unreserved()
        && (Valid(l.composer.draft) ==> GivenBack(l, after, e.text)))
  }

  /** Unless a step replaces it, a waiting first message waits on, is sent, or is given back. */
  lemma WaitingIsHonoured(l: Ledger, step: Step, e: Entry)
    requires Fine(l.held) && l.held.firstSubmission == Some(e) && !Replaces(l, step)
    ensures Honoured(l, step, e)
  {
    if step.Create? {
      AdoptedWhole(l, step.session, step.shown);
    } else if step.CreateFail? {
      if Valid(l.composer.draft) {
        FailedFirstIsRestored(l, step.remote);
      }
    } else if step.Submitting? && l.review.None? && l.CanSubmit(step.ready) {
      assert l.Taken().SubmitEntry(l.composer.Submission(), step.follow).held.firstSubmission == Some(e);
    }
  }

  /** A replacing step leaves the waiting message nowhere. */
  lemma ReplacedIsLost(l: Ledger, step: Step)
    requires Replaces(l, step)
    ensures Next(l, step).held.firstMessage == Some(l.composer.draft.text)
    ensures Next(l, step).held.inputs == l.held.inputs && Next(l, step).returned == l.returned
    ensures Next(l, step).composer.draft.text == ""
  {
  }

  /** Without an open request at most one request is without an answer, nothing else is asked for while
      one is, and a message only waits for a session that is being created. */
  predicate Guarded(l: Ledger) {
    && !l.screen.opening
    && l.screen.creating + l.screen.phones <= 1
    && (l.screen.creating + l.screen.phones > 0 ==> l.screen.loading)
    && (l.held.firstSubmission.Some? ==> l.screen.creating == 1)
  }

  lemma GuardedStep(l: Ledger, step: Step)
    requires Guarded(l) && Fine(l.held) && Enabled(l, step) && !step.OpenRequest?
    ensures Guarded(Next(l, step)) && !Replaces(l, step)
  {
    hide InputBytes;
    hide RetainedBytes;
    hide Position;
    hide IsBlankText;
    hide Editor.TakeSubmission;
    hide Editor.Submission;
    hide Editor.RestoreSubmission;
  }

  predicate NeverReplaces(l: Ledger, steps: seq<Step>)
    decreases |steps|
  {
    steps != [] ==> !Replaces(l, steps[0]) && NeverReplaces(Next(l, steps[0]), steps[1..])
  }

  /** Only a session that the client itself asked to open meanwhile lets a second submission replace a
      waiting first message; what phones ask for never does. */
  lemma {:induction false} OnlyOpeningReplaces(l: Ledger, steps: seq<Step>)
    requires Guarded(l) && Fine(l.held) && Allowed(l, steps)
    requires forall step | step in steps :: !step.OpenRequest?
    ensures NeverReplaces(l, steps)
    decreases |steps|
  {
    if steps != [] {
      GuardedStep(l, steps[0]);
      NextFine(l, steps[0]);
      OnlyOpeningReplaces(Next(l, steps[0]), steps[1..]);
    }
  }

  function Typed(text: string): Editor {
    Empty.(draft := Draft(text, |text|, None, []))
  }

  /** With nothing but a small reservation held, a short text can be submitted. */
  lemma TypedSubmits(l: Ledger, text: string)
    requires l.review.None? && l.screen.current.None? && !l.screen.loading && l.held.inputs == []
    requires text == "a" || text == "b"
    requires l.composer == Typed(text) && l.held.Reserved() < 100
    ensures l.CanSubmit(true) && l.Taken().Reservable(l.composer.Submission())
    ensures l.composer.Submission() == Entry(text, [], Some(([], [])))
  {
    assert !IsBlank(text[0]);
  }

  lemma {:induction false} RunExtends(l: Ledger, steps: seq<Step>, step: Step)
    requires Allowed(l, steps) && Enabled(After(l, steps), step)
    ensures Allowed(l, steps + [step]) && After(l, steps + [step]) == Next(After(l, steps), step)
    decreases |steps|
  {
    if steps == [] {
      assert steps + [step] == [step];
    } else {
      RunExtends(Next(l, steps[0]), steps[1..], step);
      assert (steps + [step])[1..] == steps[1..] + [step];
    }
  }

  lemma FirstReserved() returns (steps: seq<Step>)
    ensures steps == [] + [Compose(Typed("a"))] + [Submitting(false, true)] && Allowed(Start, steps)
    ensures After(Start, steps).held == Retained([], Some(Entry("a", [], Some(([], [])))), Some("a"))
    ensures After(Start, steps).screen == Screen(None, true, false, 1, 0)
    ensures After(Start, steps).review.None? && After(Start, steps).returned == []
  {
    RunExtends(Start, [], Compose(Typed("a")));
    var l := Next(Start, Compose(Typed("a")));
    TypedSubmits(l, "a");
    steps := [] + [Compose(Typed("a"))];
    RunExtends(Start, steps, Submitting(false, true));
    steps := steps + [Submitting(false, true)];
  }

  /** Two submissions with an open request failing in between: the first one is in no operation and in no draft. */
  lemma FirstMessageCanBeLost() returns (steps: seq<Step>)
    ensures steps == [] + [Compose(Typed("a"))] + [Submitting(false, true)] + [OpenRequest] + [OpenEnd(None, Empty)]
                     + [Compose(Typed("b"))] + [Submitting(false, true)]
    ensures Allowed(Start, steps)
    ensures After(Start, steps).held.inputs == [] && After(Start, steps).held.firstMessage == Some("b")
    ensures After(Start, steps).composer.draft.text == "" && After(Start, steps).returned == []
  {
    steps := FirstReserved();
    RunExtends(Start, steps, OpenRequest);
    steps := steps + [OpenRequest];
    RunExtends(Start, steps, OpenEnd(None, Empty));
    steps := steps + [OpenEnd(None, Empty)];
    RunExtends(Start, steps, Compose(Typed("b")));
    steps := steps + [Compose(Typed("b"))];
    TypedSubmits(After(Start, steps), "b");
    ReplacedIsLost(After(Start, steps), Submitting(false, true));
    RunExtends(Start, steps, Submitting(false, true));
    steps := steps + [Submitting(false, true)];
  }
}

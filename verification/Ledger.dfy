/**
 Local inputs whose acceptance is not known yet: what is retained, under which budget, and how
 each operation ends. A first message is reserved while the session it opens is being created.
 */
module Ledgers {
  import opened Wrappers
  import opened Drafts
  import opened Motions
  import opened Editors

  const MAX_OPERATIONS: nat := 64
  const MAX_BYTES: nat := 16 * 1024 * 1024
  const EDIT_BYTES: nat := 8 * 1024 * 1024
  // sizes of a paste range and of an undo step, their buffers aside
  const PASTE_BYTES: nat := 32
  const SNAPSHOT_BYTES: nat := 72

  datatype Status = Sending | Unconfirmed | Rejected

  datatype InputMode = Steer | FollowUp

  datatype Target = Target(epoch: nat, load: string)

  datatype LocalInput = LocalInput(
    id: nat, target: Target, mode: InputMode, status: Status, retryOf: Option<nat>, entry: Entry, draftVersion: nat)

  datatype ReviewMode = List | Edit(id: nat) | Resend(id: nat) | ResendEdited(id: nat) | Forget(id: nat)

  /** What a push is answered with: a receipt, which may not be for this target, or an error. */
  datatype Answer = Receipt(confirms: bool) | Refused | Failed

  // ---- bytes -----------------------------------------------------------

  function StepBytes(steps: seq<Draft>): nat {
    if steps == [] then 0
    else SNAPSHOT_BYTES + |steps[0].text| + |steps[0].pastes| * PASTE_BYTES + StepBytes(steps[1..])
  }

  function RetainedBytes(entry: Entry): nat {
    |entry.text| + |entry.pastes| * PASTE_BYTES
    + match entry.rollback
      case None => 0
      case Some((undo, redo)) => StepBytes(undo) + StepBytes(redo)
  }

  function Discarded(entry: Entry): Entry {
    entry.(rollback := None)
  }

  function InputBytes(inputs: seq<LocalInput>): nat {
    if inputs == [] then 0
    else InputBytes(inputs[..|inputs| - 1]) + RetainedBytes(inputs[|inputs| - 1].entry)
  }

  /** Where the operation is, or the length. */
  function Position(inputs: seq<LocalInput>, id: nat): (i: nat)
    ensures i <= |inputs|
    ensures i < |inputs| ==> inputs[i].id == id
    ensures forall j | 0 <= j < i :: inputs[j].id != id
  {
    if inputs == [] then 0 else if inputs[0].id == id then 0 else 1 + Position(inputs[1..], id)
  }

  predicate IsBlankText(text: string) {
    forall i | 0 <= i < |text| :: IsBlank(text[i])
  }

  function FirstOf(submission: Option<Entry>, text: string): Entry {
    if submission.Some? then submission.value else Entry(text, [], None)
  }

  /** What is held back until an operation is resolved. */
  datatype Retained = Retained(
    inputs: seq<LocalInput>,
    firstSubmission: Option<Entry>,
    firstMessage: Option<string>)
  {
    function Count(): nat {
      |inputs| + if firstSubmission.Some? then 1 else 0
    }

    function Reserved(): nat {
      match firstSubmission
      case None => 0
      case Some(entry) => RetainedBytes(entry) + if firstMessage.Some? then |firstMessage.value| else 0
    }

    function Used(): nat {
      InputBytes(inputs) + Reserved()
    }

    predicate Room(bytes: nat) {
      Count() < MAX_OPERATIONS && bytes <= MAX_BYTES - Used()
    }

    /** The undo history goes first when there is no room for it. */
    function Fitted(entry: Entry, extra: nat): Entry {
      if Room(RetainedBytes(entry) + extra) then entry else Discarded(entry)
    }

    function Add(input: LocalInput): Retained {
      this.(inputs := inputs + [input])
    }

    function Without(i: nat): Retained
      requires i < |inputs|
    {
      this.(inputs := inputs[..i] + inputs[i + 1..])
    }

    function Marked(i: nat, status: Status, entry: Entry): Retained
      requires i < |inputs|
    {
      this.(inputs := inputs[i := inputs[i].(status := status, entry := entry)])
    }

    function Reserve(entry: Entry): Retained {
      this.(firstMessage := Some(entry.text), firstSubmission := Some(entry))
    }

    function Unreserved(): Retained {
      this.(firstMessage := None, firstSubmission := None)
    }
  }

  /** The session on screen, and the requests that may change it. */
  datatype Screen = Screen(
    current: Option<Target>,
    loading: bool,
    opening: bool,                 // an open request is wanted on screen
    creating: nat,                 // create requests without an answer
    phones: nat)                   // open and create requests of phones without an answer

  datatype Ledger = Ledger(
    held: Retained,
    nextId: nat,
    composer: Editor,
    screen: Screen,
    review: Option<ReviewMode>,
    editor: Editor,                // the review's own edit buffer
    returned: seq<string>)         // texts handed back to a session's view
  {
    function Sent(target: Target, entry: Entry, mode: InputMode, retryOf: Option<nat>): LocalInput {
      LocalInput(nextId, target, mode, Sending, retryOf, entry, composer.version)
    }

    function Push(target: Target, entry: Entry, mode: InputMode, retryOf: Option<nat>): Ledger {
      var kept := held.Fitted(entry, 0);
      if held.Room(RetainedBytes(kept)) then
        this.(held := held.Add(Sent(target, kept, mode, retryOf)), nextId := nextId + 1)
      else if composer.draft.text == "" then this.(composer := composer.RestoreSubmission(kept))
      else this
    }

    /** A first message waits with its text for the session that is created for it. */
    function Reserve(entry: Entry): Ledger {
      this.(held := held.Reserve(entry),
            screen := screen.(loading := true, opening := false, creating := screen.creating + 1))
    }

    predicate Reservable(entry: Entry) {
      held.Room(RetainedBytes(held.Fitted(entry, |entry.text|)) + |entry.text|)
    }

    function SubmitEntry(entry: Entry, follow: bool): Ledger {
      match screen.current
      case Some(target) => Push(target, entry, if follow then FollowUp else Steer, None)
      case None =>
        var kept := held.Fitted(entry, |entry.text|);
        if Reservable(entry) then Reserve(kept) else this.(composer := composer.RestoreSubmission(kept))
    }

    /** The guards before a submission takes the draft; `ready` says the Agent has been greeted. */
    predicate CanSubmit(ready: bool) {
      && review.None? && (screen.current.Some? || (ready && !screen.loading))
      && !IsBlankText(composer.draft.text)
      && held.Room(|composer.draft.text| + |composer.draft.pastes| * PASTE_BYTES)
    }

    function Taken(): Ledger {
      this.(composer := composer.TakeSubmission())
    }

    function Submit(follow: bool, ready: bool): Ledger {
      if review.Some? then
        if review.value.Edit? then this.(review := Some(ResendEdited(review.value.id))) else this
      else if CanSubmit(ready) then Taken().SubmitEntry(composer.Submission(), follow)
      else this
    }

    // ---- sessions ------------------------------------------------------

    function RequestOpen(): Ledger {
      this.(screen := screen.(opening := true, loading := true))
    }

    /** Showing a session, or none, puts its draft in the composer. */
    function Select(target: Option<Target>, shown: Editor): Ledger {
      this.(screen := screen.(current := target, loading := screen.loading && !screen.opening, opening := false),
            composer := shown)
    }

    /** An open request that is still wanted ends. */
    function Opened(target: Option<Target>, shown: Editor): Ledger {
      var answered := screen.(loading := false, opening := false);
      if target.Some? then this.(screen := answered.(current := target), composer := shown)
      else this.(screen := answered)
    }

    /** A phone asks for a session: one that is not loaded, or a new one for its draft. */
    function PhoneAsked(): Ledger {
      this.(screen := screen.(loading := true, phones := screen.phones + 1))
    }

    /** The answer to a phone: nothing new on screen, or the session `target`, where `typing` says that
        the phone made a draft into a session and no session was on screen. */
    function PhoneAnswered(target: Option<Target>, shown: Editor, typing: bool): Ledger {
      var answered := screen.(loading := false, phones := Monus(screen.phones, 1));
      if target.None? then this.(screen := answered)
      else
        this.(screen := answered.(current := target, opening := false),
              composer := if typing && screen.current.None? then shown.SetText(composer.draft.text) else shown)
    }

    /** A text that was refused goes to the composer, or back to the session's view. */
    function RestoreDraft(text: string, remote: bool): Ledger {
      if screen.current.Some? && remote then this.(returned := returned + [text])
      else if composer.draft.text == "" then this.(composer := composer.RestoreText(text))
      else this.(composer := composer.Insert(text))
    }

    /** The create request fails: the message it was made for is not reserved any more. */
    function CreateFailed(remote: bool): Ledger {
      var screen' := screen.(loading := false, creating := Monus(screen.creating, 1));
      if held.firstMessage.None? then this.(screen := screen')
      else this.(held := held.Unreserved(), screen := screen').RestoreDraft(held.firstMessage.value, remote)
    }

    /** The created session on screen; a draft typed meanwhile stays in the composer. */
    function Installed(target: Target, shown: Editor): Ledger {
      this.(held := if held.firstMessage.Some? then held.Unreserved() else held,
            screen := screen.(current := Some(target), loading := false, opening := false,
                              creating := Monus(screen.creating, 1)),
            composer := if held.firstMessage.Some? then shown.SetText(composer.draft.text) else shown)
    }

    /** The message a create request was made for, with its undo history if it was reserved. */
    function FirstEntry(): Entry
      requires held.firstMessage.Some?
    {
      FirstOf(held.firstSubmission, held.firstMessage.value)
    }

    /** The create request succeeds: the message waiting for it is pushed. */
    function Created(target: Target, shown: Editor): Ledger {
      if held.firstMessage.None? then Installed(target, shown)
      else Installed(target, shown).Push(target, FirstEntry(), Steer, None)
    }

    // ---- answers -------------------------------------------------------

    /** A refused input goes back to an untouched composer that still shows its session. */
    predicate Restorable(input: LocalInput, remote: bool) {
      && input.retryOf.None? && composer.draft.text == "" && composer.version == input.draftVersion
      && !remote && screen.current == Some(input.target)
    }

    function Replied(id: nat, answer: Answer, remote: bool): Ledger {
      var i := Position(held.inputs, id);
      if i == |held.inputs| || held.inputs[i].status != Sending then this
      else
        var input := held.inputs[i];
        if answer == Receipt(true) then this.(held := held.Without(i), composer := composer.Remember(input.entry))
        else if answer == Refused then
          if Restorable(input, remote) then
            this.(held := held.Without(i), composer := composer.RestoreSubmission(input.entry))
          else this.(held := held.Marked(i, Rejected, input.entry))
        else this.(held := held.Marked(i, Unconfirmed, Discarded(input.entry)))
    }

    // ---- review --------------------------------------------------------

    function OpenReview(): Ledger {
      this.(review := Some(List), editor := Empty)
    }

    function CloseReview(): Ledger {
      this.(review := None)
    }

    /** Editing, resending or forgetting is offered only for an operation that is not being sent. */
    function Ask(mode: ReviewMode): Ledger {
      if review != Some(List) || mode.List? || mode.ResendEdited? then this
      else
        var i := Position(held.inputs, mode.id);
        if i == |held.inputs| || held.inputs[i].status == Sending then this
        else if mode.Edit? then
          if |held.inputs[i].entry.text| > EDIT_BYTES then this
          else this.(review := Some(mode), editor := editor.SetText(held.inputs[i].entry.text))
        else this.(review := Some(mode))
    }

    function EditReview(edited: Editor): Ledger {
      if review.Some? && review.value.Edit? then this.(editor := edited) else this
    }

    function ConfirmEdit(): Ledger {
      if review.Some? && review.value.Edit? then this.(review := Some(ResendEdited(review.value.id))) else this
    }

    function Back(): Ledger {
      match review
      case None => this
      case Some(List) => CloseReview()
      case Some(Edit(_)) => this.(editor := Empty, review := Some(List))
      case Some(ResendEdited(id)) => this.(review := Some(Edit(id)))
      case Some(_) => this.(review := Some(List))
    }

    /** Sends the entry again; an edited one that cannot be sent goes back to the edit buffer. */
    function SendAgain(input: LocalInput, entry: Entry, edited: bool): Ledger {
      if IsBlankText(entry.text) then
        if edited then this.(editor := editor.RestoreSubmission(entry), review := Some(Edit(input.id))) else this
      else if !held.Room(RetainedBytes(entry)) then
        if edited then this.(editor := editor.RestoreSubmission(entry)) else this
      else Push(input.target, entry, input.mode, Some(input.id)).(review := Some(List), editor := Empty)
    }

    /** Sends an operation again, the original staying until it is resolved; `live` says its session is still loaded. */
    function Resent(id: nat, edited: bool, remote: bool, live: bool): Ledger {
      var i := Position(held.inputs, id);
      if remote || i == |held.inputs| || !live then this
      else
        var input := held.inputs[i];
        if edited then this.(editor := editor.TakeSubmission()).SendAgain(input, editor.Submission(), true)
        else if !held.Room(RetainedBytes(input.entry)) then this
        else SendAgain(input, input.entry, false)
    }

    function ConfirmResend(remote: bool, live: bool): Ledger {
      match review
      case Some(Resend(id)) => Resent(id, false, remote, live)
      case Some(ResendEdited(id)) => Resent(id, true, remote, live)
      case _ => this
    }

    function ConfirmForget(): Ledger {
      match review
      case Some(Forget(id)) =>
        var i := Position(held.inputs, id);
        this.(held := if i < |held.inputs| then held.Without(i) else held, editor := Empty, review := Some(List))
      case _ => this
    }
  }

  datatype Step =
    | Compose(draft: Editor)
    | Submitting(follow: bool, ready: bool)
    | OpenRequest
    | OpenEnd(target: Option<Target>, shown: Editor)
    | Selecting(target: Option<Target>, shown: Editor)     // also when the session on screen is deleted
    | PhoneAsk
    | PhoneAnswer(target: Option<Target>, shown: Editor, typing: bool)
    | CreateFail(remote: bool)
    | Create(session: Target, shown: Editor)
    | Reply(id: nat, answer: Answer, remote: bool)
    | Reviewing
    | Asking(mode: ReviewMode)
    | EditingReview(edited: Editor)
    | ConfirmingEdit
    | GoingBack
    | Resending(remote: bool, live: bool)
    | Forgetting

  predicate Enabled(l: Ledger, step: Step) {
    match step
    case OpenEnd(_, _) => l.screen.opening
    case PhoneAsk => !l.screen.loading
    case PhoneAnswer(_, _, _) => l.screen.phones > 0
    case CreateFail(_) => l.screen.creating > 0
    case Create(_, _) => l.screen.creating > 0
    case _ => true
  }

  function Next(l: Ledger, step: Step): Ledger {
    match step
    case Compose(draft) => l.(composer := draft)
    case Submitting(follow, ready) => l.Submit(follow, ready)
    case OpenRequest => l.RequestOpen()
    case OpenEnd(target, shown) => l.Opened(target, shown)
    case Selecting(target, shown) => l.Select(target, shown)
    case PhoneAsk => l.PhoneAsked()
    case PhoneAnswer(target, shown, typing) => l.PhoneAnswered(target, shown, typing)
    case CreateFail(remote) => l.CreateFailed(remote)
    case Create(target, shown) => l.Created(target, shown)
    case Reply(id, answer, remote) => l.Replied(id, answer, remote)
    case Reviewing => l.OpenReview()
    case Asking(mode) => l.Ask(mode)
    case EditingReview(edited) => l.EditReview(edited)
    case ConfirmingEdit => l.ConfirmEdit()
    case GoingBack => l.Back()
    case Resending(remote, live) => l.ConfirmResend(remote, live)
    case Forgetting => l.ConfirmForget()
  }

  const Start: Ledger :=
    Ledger(Retained([], None, None), 1, Empty, Screen(None, false, false, 0, 0), None, Empty, [])

  predicate Allowed(l: Ledger, steps: seq<Step>)
    decreases |steps|
  {
    steps != [] ==> Enabled(l, steps[0]) && Allowed(Next(l, steps[0]), steps[1..])
  }

  function After(l: Ledger, steps: seq<Step>): Ledger
    decreases |steps|
  {
    if steps == [] then l else After(Next(l, steps[0]), steps[1..])
  }
}

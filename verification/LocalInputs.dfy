/** The ledger changed in place, as the application does it. */
module LocalInputs {
  import opened Wrappers
  import opened Drafts
  import opened Editors
  import opened Ledgers
  import opened LedgerLaws

  class App {
    var localInputs: seq<LocalInput>
    var firstSubmission: Option<Entry>
    var firstMessage: Option<string>
    var opSeq: nat
    var composer: Editor
    var screen: Screen
    var review: Option<ReviewMode>
    var unconfirmedEditor: Editor
    var returned: seq<string>

    ghost function Held(): Retained
      reads this`localInputs, this`firstSubmission, this`firstMessage
    {
      Retained(localInputs, firstSubmission, firstMessage)
    }

    ghost function View(): Ledger
      reads this
    {
      Ledger(Held(), opSeq + 1, composer, screen, review, unconfirmedEditor, returned)
    }

    constructor ()
      ensures View() == Start
    {
      localInputs, firstSubmission, firstMessage, opSeq := [], None, None, 0;
      composer, screen := Empty, Screen(None, false, false, 0, 0);
      review, unconfirmedEditor, returned := None, Empty, [];
    }

    method LocalInputBytes() returns (bytes: nat)
      ensures bytes == Held().Used()
    {
      bytes := 0;
      assert localInputs[..0] == [];
      for i := 0 to |localInputs|
        invariant bytes == InputBytes(localInputs[..i])
      {
        BytesPush(localInputs[..i], localInputs[i]);
        assert localInputs[..i] + [localInputs[i]] == localInputs[..i + 1];
        bytes := bytes + RetainedBytes(localInputs[i].entry);
      }
      assert localInputs[..|localInputs|] == localInputs;
      if firstSubmission.Some? {
        bytes := bytes + RetainedBytes(firstSubmission.value);
        if firstMessage.Some? {
          bytes := bytes + |firstMessage.value|;
        }
      }
    }

    /** Whether an operation of so many bytes may be retained; the room left cannot be negative. */
    method LocalInputRoom(bytes: nat) returns (room: bool)
      requires Fine(Held())
      ensures room == Held().Room(bytes)
    {
      var reserved := if firstSubmission.Some? then 1 else 0;
      room := false;
      if |localInputs| + reserved < MAX_OPERATIONS {
        var used := LocalInputBytes();
        var left: nat := MAX_BYTES - used;
        room := bytes <= left;
      }
    }

    method PushLocalInput(target: Target, entry: Entry, mode: InputMode, retryOf: Option<nat>)
      requires Fine(Held())
      modifies this
      ensures View() == old(View()).Push(target, entry, mode, retryOf)
      ensures Fine(Held())
    {
      PushFine(View(), target, entry, mode, retryOf);
      var kept := entry;
      var room := LocalInputRoom(RetainedBytes(entry));
      if !room {
        kept := Discarded(entry);
        room := LocalInputRoom(RetainedBytes(kept));
      }
      if !room {
        if composer.draft.text == "" {
          composer := composer.RestoreSubmission(kept);
        }
        return;
      }
      opSeq := opSeq + 1;
      localInputs := localInputs + [LocalInput(opSeq, target, mode, Sending, retryOf, kept, composer.version)];
    }

    method CreateSession()
      modifies this`screen
      ensures screen == old(screen).(loading := true, opening := false, creating := old(screen).creating + 1)
    {
      screen := screen.(opening := false, loading := true, creating := screen.creating + 1);
    }

    method SubmitEntry(entry: Entry, follow: bool)
      requires Fine(Held())
      modifies this
      ensures View() == old(View()).SubmitEntry(entry, follow)
      ensures Fine(Held())
    {
      hide RetainedBytes;
      hide InputBytes;
      hide StepBytes;
      SubmitEntryFine(View(), entry, follow);
      if screen.current.Some? {
        PushLocalInput(screen.current.value, entry, if follow then FollowUp else Steer, None);
        return;
      }
      var kept := entry;
      var room := LocalInputRoom(RetainedBytes(entry) + |entry.text|);
      if !room {
        kept := Discarded(entry);
        room := LocalInputRoom(RetainedBytes(kept) + |kept.text|);
      }
      if !room {
        composer := composer.RestoreSubmission(kept);
        return;
      }
      firstMessage := Some(kept.text);
      firstSubmission := Some(kept);
      CreateSession();
    }

    /** Submits the draft; without one, steering resumes a paused queue. */
    method SubmitComposer(follow: bool, ready: bool, paused: bool) returns (resumes: bool)
      requires Fine(Held())
      modifies this
      ensures View() == old(View()).Submit(follow, ready)
      ensures Fine(Held())
      ensures resumes <==>
                old(review.None? && screen.current.Some? && IsBlankText(composer.draft.text)) && !follow && paused
    {
      resumes := false;
      if review.Some? {
        if review.value.Edit? {
          review := Some(ResendEdited(review.value.id));
        }
        return;
      }
      if screen.current.None? && (!ready || screen.loading) {
        return;
      }
      if !IsBlankText(composer.draft.text) {
        var room := LocalInputRoom(|composer.draft.text| + |composer.draft.pastes| * PASTE_BYTES);
        if room {
          var entry := composer.Submission();
          composer := composer.TakeSubmission();
          SubmitEntry(entry, follow);
        }
      } else if !follow && screen.current.Some? {
        resumes := paused;
      }
    }

    /** A created session is installed and its first message pushed. */
    method Adopt(target: Target, shown: Editor)
      requires Fine(Held())
      modifies this
      ensures View() == old(View()).Created(target, shown)
      ensures Fine(Held())
    {
      hide RetainedBytes;
      hide InputBytes;
      hide Fine;
      CreatedFine(View(), target, shown);
      var first := firstMessage;
      firstMessage := None;
      var typed := composer.draft.text;
      screen := screen.(current := Some(target), loading := false, opening := false,
                        creating := Monus(screen.creating, 1));
      composer := shown;
      if first.Some? {
        composer := composer.SetText(typed);
        var entry := FirstOf(firstSubmission, first.value);
        firstSubmission := None;
        PushLocalInput(target, entry, Steer, None);
      }
    }

    /** A phone's own session request ends; `keeps` says the phone still has the foreground. */
    method PhoneCreated(result: Option<Target>, keeps: bool, shown: Editor, draftInput: bool)
      modifies this`screen, this`composer
      ensures View() == old(View()).PhoneAnswered(if keeps then result else None, shown, draftInput)
    {
      screen := screen.(loading := false, phones := Monus(screen.phones, 1));
      if result.None? || !keeps {
        return;
      }
      var typed := if screen.current.None? && draftInput then Some(composer.draft.text) else None;
      screen := screen.(current := result, opening := false);
      composer := shown;
      if typed.Some? {
        composer := composer.SetText(typed.value);
      }
    }

    /** A text goes back to the composer, behind a draft typed meanwhile, or to the session's view. */
    method RestoreDraft(text: string, remote: bool)
      modifies this`composer, this`returned
      ensures View() == old(View()).RestoreDraft(text, remote)
    {
      if screen.current.Some? && remote {
        returned := returned + [text];
      } else if composer.draft.text == "" {
        composer := composer.RestoreText(text);
      } else {
        composer := composer.Insert(text);
      }
    }

    /** The session could not be created: the message that waited for it is given back. */
    method AdoptFailed(remote: bool)
      requires Fine(Held())
      modifies this
      ensures View() == old(View()).CreateFailed(remote)
      ensures Fine(Held())
    {
      var first := firstMessage;
      firstMessage := None;
      screen := screen.(loading := false, creating := Monus(screen.creating, 1));
      if first.Some? {
        firstSubmission := None;
        RestoreDraft(first.value, remote);
      }
    }

    method OnLocalPushed(id: nat, answer: Answer, remote: bool)
      requires Fine(Held())
      modifies this
      ensures View() == old(View()).Replied(id, answer, remote)
      ensures Fine(Held())
    {
      RepliedFine(View(), id, answer, remote);
      var index := Position(localInputs, id);
      if index == |localInputs| || localInputs[index].status != Sending {
        return;
      }
      var input := localInputs[index];
      match answer {
        case Receipt(true) =>
          localInputs := localInputs[..index] + localInputs[index + 1..];
          composer := composer.Remember(input.entry);
        case Refused =>
          var restore :=
            && input.retryOf.None? && composer.draft.text == "" && composer.version == input.draftVersion
            && !remote && screen.current == Some(input.target);
          if restore {
            localInputs := localInputs[..index] + localInputs[index + 1..];
            composer := composer.RestoreSubmission(input.entry);
          } else {
            localInputs := localInputs[index := input.(status := Rejected)];
          }
        case _ =>
          localInputs := localInputs[index := input.(status := Unconfirmed, entry := Discarded(input.entry))];
      }
    }

    method SendAgain(input: LocalInput, entry: Entry, edited: bool)
      requires Fine(Held())
      modifies this
      ensures View() == old(View()).SendAgain(input, entry, edited)
      ensures Fine(Held())
    {
      if IsBlankText(entry.text) {
        if edited {
          unconfirmedEditor := unconfirmedEditor.RestoreSubmission(entry);
          review := Some(Edit(input.id));
        }
        return;
      }
      var room := LocalInputRoom(RetainedBytes(entry));
      if !room {
        if edited {
          unconfirmedEditor := unconfirmedEditor.RestoreSubmission(entry);
        }
        return;
      }
      PushLocalInput(input.target, entry, input.mode, Some(input.id));
      review := Some(List);
      unconfirmedEditor := Empty;
    }

    method ResendLocalInput(id: nat, edited: bool, remote: bool, live: bool)
      requires Fine(Held())
      modifies this
      ensures View() == old(View()).Resent(id, edited, remote, live)
      ensures Fine(Held())
    {
      var index := Position(localInputs, id);
      if remote || index == |localInputs| || !live {
        return;
      }
      var input := localInputs[index];
      var entry := input.entry;
      if edited {
        entry := unconfirmedEditor.Submission();
        unconfirmedEditor := unconfirmedEditor.TakeSubmission();
      } else {
        var room := LocalInputRoom(RetainedBytes(input.entry));
        if !room {
          return;
        }
      }
      SendAgain(input, entry, edited);
    }

    method ForgetLocalInput()
      requires Fine(Held())
      modifies this
      ensures View() == old(View()).ConfirmForget()
      ensures Fine(Held())
    {
      ForgetFine(View());
      if review.Some? && review.value.Forget? {
        var index := Position(localInputs, review.value.id);
        if index < |localInputs| {
          localInputs := localInputs[..index] + localInputs[index + 1..];
        }
        unconfirmedEditor := Empty;
        review := Some(List);
      }
    }
  }
}

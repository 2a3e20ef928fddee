/**
 One state of the editor's buffer: the text, the caret, the fixed end of a selection, and the
 ranges of the pastes shown as chips. Edits splice the text and move the ranges with it.
 */
module Drafts {
  import opened Wrappers
  import opened Projections

  datatype Draft = Draft(text: string, cursor: nat, anchor: Option<nat>, pastes: seq<Paste>)
  {
    predicate IsSelecting() {
      anchor.Some? && anchor.value != cursor
    }

    function SelectionStart(): nat
      requires IsSelecting()
    {
      Min(anchor.value, cursor)
    }

    function SelectionEnd(): nat
      requires IsSelecting()
    {
      Max(anchor.value, cursor)
    }

    // ---- erasing ------------------------------------------------------

    /** Removes a range, closed over every payload it touches. */
    function Erase(start: nat, end: nat): Draft {
      var (lo, hi) := Closure(pastes, 0, start, end);
      if lo <= hi <= |text| then
        Draft(text[..lo] + text[hi..], Min(cursor, lo), None, Removed(pastes, lo, hi))
      else this
    }

    function EraseSelection(): Draft {
      if IsSelecting() then Erase(SelectionStart(), SelectionEnd()) else this.(anchor := None)
    }

    // ---- inserting ----------------------------------------------------

    /** Splices `added` at the caret and moves the ranges behind it. */
    function Insert(added: string): Draft {
      if cursor <= |text| then
        Draft(text[..cursor] + added + text[cursor..], cursor + |added|, anchor, Shifted(pastes, cursor, |added|))
      else this
    }

    /** Typed or pasted text replaces the selection. */
    function Type(added: string): Draft {
      EraseSelection().Insert(added)
    }

    /** Pasted text becomes a chip when it is large. */
    function InsertPasted(added: string): Draft {
      var typed := Insert(added);
      if cursor + |added| <= |typed.text| && IsLarge(PasteOf(typed.text, cursor, cursor + |added|)) then
        typed.(pastes := InsertByStart(typed.pastes, PasteOf(typed.text, cursor, cursor + |added|)))
      else typed
    }

    function TypePasted(added: string): Draft {
      EraseSelection().InsertPasted(added)
    }

    // ---- chips at the caret -------------------------------------------

    function EndingAt(at: nat): Option<Paste> {
      FindEnd(pastes, at)
    }

    function StartingAt(at: nat): Option<Paste> {
      FindStart(pastes, at)
    }

    /** One step left: a whole chip or one character. */
    function StepLeft(): nat {
      match EndingAt(cursor)
      case Some(paste) => paste.start
      case None => Monus(cursor, 1)
    }

    /** One step right: a whole chip or one character. */
    function StepRight(): nat {
      match StartingAt(cursor)
      case Some(paste) => paste.end
      case None => Min(cursor + 1, |text|)
    }
  }

  function FindEnd(pastes: seq<Paste>, at: nat): (found: Option<Paste>)
    ensures found.Some? ==> found.value in pastes && found.value.end == at
    ensures found.None? ==> forall i | 0 <= i < |pastes| :: pastes[i].end != at
  {
    if pastes == [] then None
    else if pastes[0].end == at then Some(pastes[0])
    else FindEnd(pastes[1..], at)
  }

  function FindStart(pastes: seq<Paste>, at: nat): (found: Option<Paste>)
    ensures found.Some? ==> found.value in pastes && found.value.start == at
    ensures found.None? ==> forall i | 0 <= i < |pastes| :: pastes[i].start != at
  {
    if pastes == [] then None
    else if pastes[0].start == at then Some(pastes[0])
    else FindStart(pastes[1..], at)
  }

  predicate IsLarge(paste: Paste) {
    paste.lines > TOKEN_LINES || paste.chars > TOKEN_CHARS
  }

  function ShiftedOne(paste: Paste, at: nat, length: nat): Paste {
    if at <= paste.start then paste.(start := paste.start + length, end := paste.end + length)
    else if at < paste.end then paste.(end := paste.end + length)
    else paste
  }

  /** The ranges after `length` characters were spliced in at `at`. */
  function Shifted(pastes: seq<Paste>, at: nat, length: nat): seq<Paste> {
    seq(|pastes|, i requires 0 <= i < |pastes| => ShiftedOne(pastes[i], at, length))
  }

  /** A stable sort by start of an ordered list with one range pushed at its end. */
  function InsertByStart(pastes: seq<Paste>, paste: Paste): seq<Paste> {
    if pastes == [] || pastes[|pastes| - 1].start <= paste.start then pastes + [paste]
    else InsertByStart(pastes[..|pastes| - 1], paste) + [pastes[|pastes| - 1]]
  }

  /** The range grown, paste by paste, over every payload it touches. */
  function Closure(pastes: seq<Paste>, i: nat, start: nat, end: nat): (nat, nat)
    requires i <= |pastes|
    decreases |pastes| - i
  {
    if i == |pastes| then (start, end)
    else if pastes[i].start < end && pastes[i].end > start then
      Closure(pastes, i + 1, Min(start, pastes[i].start), Max(end, pastes[i].end))
    else Closure(pastes, i + 1, start, end)
  }

  /** The ranges left after `[lo..hi)` was removed. */
  function Removed(pastes: seq<Paste>, lo: nat, hi: nat): seq<Paste>
    requires lo <= hi
  {
    if pastes == [] then []
    else
      var rest := Removed(pastes[1..], lo, hi);
      var paste := pastes[0];
      if paste.end <= lo then [paste] + rest
      else if paste.start >= hi then
        [paste.(start := paste.start - (hi - lo), end := Monus(paste.end, hi - lo))] + rest
      else rest
  }

  // ---- validity -------------------------------------------------------

  /** The ranges are ordered payloads of the text, each labelled with its own size. */
  ghost predicate ValidText(text: string, pastes: seq<Paste>) {
    && Fit(pastes, |text|)
    && forall i | 0 <= i < |pastes| :: pastes[i] == PasteOf(text, pastes[i].start, pastes[i].end)
  }

  /** The caret and the anchor are stops of a valid text. */
  ghost predicate Valid(d: Draft) {
    && ValidText(d.text, d.pastes)
    && d.cursor <= |d.text| && Stop(d.pastes, d.cursor)
    && (d.anchor.Some? ==> d.anchor.value <= |d.text| && Stop(d.pastes, d.anchor.value))
  }
}

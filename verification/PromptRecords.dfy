/** Prompts kept across sessions: a record holds the text and the chip ranges, and may have been
    edited by hand. */
module PromptRecords {
  import opened Wrappers
  import opened Projections
  import opened Drafts
  import opened Editors
  import opened EditorLaws

  /** The byte order mark, which old prompts may still carry. */
  const BOM: char := '\U{FEFF}'

  datatype Range = Range(start: nat, end: nat)

  datatype Record = Record(text: string, pastes: seq<Range>)

  function Marks(text: string): nat {
    if text == [] then 0 else Marks(text[..|text| - 1]) + (if text[|text| - 1] == BOM then 1 else 0)
  }

  function Stripped(text: string): string {
    if text == [] then []
    else Stripped(text[..|text| - 1]) + (if text[|text| - 1] == BOM then [] else [text[|text| - 1]])
  }

  /** Where an offset goes when the marks before it are dropped. */
  function Kept(text: string, at: nat): (r: nat)
    requires at <= |text|
    ensures r == |Stripped(text[..at])|
  {
    MarksAreDropped(text[..at]);
    at - Marks(text[..at])
  }

  lemma {:induction false} MarksAreDropped(text: string)
    ensures Marks(text) + |Stripped(text)| == |text|
  {
    if text != [] {
      MarksAreDropped(text[..|text| - 1]);
    }
  }

  /** Ranges in order, non-empty and inside the text. */
  predicate RangesFit(ranges: seq<Range>, length: nat) {
    forall i | 0 <= i < |ranges| ::
      && (if i == 0 then 0 else ranges[i - 1].end) <= ranges[i].start < ranges[i].end <= length
  }

  /** The chips of a record: moved by the dropped marks, those that became empty left out. */
  function Chips(text: string, ranges: seq<Range>): seq<Paste>
    requires forall i | 0 <= i < |ranges| :: ranges[i].start < ranges[i].end <= |text|
  {
    if ranges == [] then []
    else
      var rest := Chips(text, ranges[..|ranges| - 1]);
      var last := ranges[|ranges| - 1];
      StrippedSplits(text, last.start, last.end);
      StrippedSplits(text, last.end, |text|);
      assert text[..|text|] == text;
      var start, end := Kept(text, last.start), Kept(text, last.end);
      if start == end then rest else rest + [PasteOf(Stripped(text), start, end)]
  }

  function FromRecord(record: Record): Entry {
    Entry(Stripped(record.text),
          if RangesFit(record.pastes, |record.text|) then Chips(record.text, record.pastes) else [],
          None)
  }

  function RangesOf(pastes: seq<Paste>): seq<Range> {
    seq(|pastes|, i requires 0 <= i < |pastes| => Range(pastes[i].start, pastes[i].end))
  }

  function ToRecord(entry: Entry): Record {
    Record(entry.text, RangesOf(entry.pastes))
  }

  // ---- laws -----------------------------------------------------------

  lemma {:induction false} StrippedSplits(text: string, a: nat, b: nat)
    requires a <= b <= |text|
    ensures Stripped(text[..a]) <= Stripped(text[..b])
    ensures |Stripped(text[..a])| <= |Stripped(text[..b])|
  {
    if a != b {
      StrippedSplits(text, a, b - 1);
      assert text[..b][..b - 1] == text[..b - 1];
    }
  }

  lemma {:induction false} ChipsFit(text: string, ranges: seq<Range>)
    requires RangesFit(ranges, |text|)
    ensures ValidText(Stripped(text), Chips(text, ranges))
    ensures forall i | 0 <= i < |Chips(text, ranges)| ::
              ranges != [] && Chips(text, ranges)[i].end <= Kept(text, ranges[|ranges| - 1].end)
  {
    if ranges != [] {
      var rest := ranges[..|ranges| - 1];
      var last := ranges[|ranges| - 1];
      ChipsFit(text, rest);
      StrippedSplits(text, last.start, last.end);
      StrippedSplits(text, last.end, |text|);
      assert text[..|text|] == text;
      if rest != [] {
        assert rest[|rest| - 1] == ranges[|ranges| - 2];
        StrippedSplits(text, rest[|rest| - 1].end, last.start);
      }
    }
  }

  /** Whatever a record holds, it loads as a valid entry. */
  lemma AnyRecordIsValid(record: Record)
    ensures ValidEntry(FromRecord(record))
  {
    if RangesFit(record.pastes, |record.text|) {
      ChipsFit(record.text, record.pastes);
    }
  }

  lemma {:induction false} NothingToStrip(text: string)
    requires BOM !in text
    ensures Stripped(text) == text
  {
    if text != [] {
      NothingToStrip(text[..|text| - 1]);
    }
  }

  lemma KeptPlaces(text: string, at: nat)
    requires BOM !in text && at <= |text|
    ensures Kept(text, at) == at
  {
    NothingToStrip(text[..at]);
  }

  /** Without marks, the last range keeps its place and makes one chip. */
  lemma LastChip(text: string, ranges: seq<Range>)
    requires BOM !in text && ranges != []
    requires forall i | 0 <= i < |ranges| :: ranges[i].start < ranges[i].end <= |text|
    ensures var last := ranges[|ranges| - 1];
            Chips(text, ranges) == Chips(text, ranges[..|ranges| - 1]) + [PasteOf(text, last.start, last.end)]
  {
    hide Stripped;
    hide Marks;
    hide PasteOf;
    hide RangesFit;
    var last := ranges[|ranges| - 1];
    NothingToStrip(text);
    KeptPlaces(text, last.start);
    KeptPlaces(text, last.end);
  }

  lemma {:induction false} ChipsOfRecord(text: string, pastes: seq<Paste>)
    requires ValidText(text, pastes) && BOM !in text
    ensures forall i | 0 <= i < |pastes| :: RangesOf(pastes)[i].start < RangesOf(pastes)[i].end <= |text|
    ensures Chips(text, RangesOf(pastes)) == pastes
  {
    if pastes != [] {
      var rest := pastes[..|pastes| - 1];
      ChipsOfRecord(text, rest);
      assert RangesOf(pastes)[..|pastes| - 1] == RangesOf(rest);
      LastChip(text, RangesOf(pastes));
    }
  }

  /** A prompt saved without marks comes back with its text and its chips. */
  lemma RecordsRoundTrip(entry: Entry)
    requires ValidEntry(entry) && BOM !in entry.text
    ensures FromRecord(ToRecord(entry)) == entry.(rollback := None)
  {
    NothingToStrip(entry.text);
    ChipsOfRecord(entry.text, entry.pastes);
  }
}

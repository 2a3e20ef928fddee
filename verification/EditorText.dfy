/** What each edit does to the text and the chips, said without the edit itself: which characters go,
    which come, and where every chip is afterwards. */
module EditorText {
  import opened Wrappers
  import opened Projections
  import opened ProjectionLaws
  import opened Drafts
  import opened DraftLaws
  import opened Motions
  import opened Editors
  import opened EditorLaws

  // ---- splices ----------------------------------------------------------

  /** `r` is the chip `p`, where `p` ends up when `[lo..hi)` is replaced by `length` characters. */
  predicate Keeps(p: Paste, r: Paste, lo: nat, hi: nat, length: nat) {
    || (p.end <= lo && r == p)
    || (hi <= p.start && r.start == p.start - hi + lo + length && r.end == p.end - hi + lo + length
        && r.lines == p.lines && r.chars == p.chars)
  }

  /** `r` is one of the chips outside `[lo..hi)`. */
  predicate IsKept(pastes: seq<Paste>, r: Paste, lo: nat, hi: nat, length: nat) {
    exists p :: p in pastes && Keeps(p, r, lo, hi, length)
  }

  /** `added` stands for `[lo..hi)` of `before`, the caret is behind it, and the chips are those outside
      the range, moved with the text, and one over `added` if it was pasted and is large. */
  ghost predicate Spliced(before: Draft, after: Draft, lo: nat, hi: nat, added: string, pasted: bool) {
    && lo <= hi <= |before.text|
    && after.text == before.text[..lo] + added + before.text[hi..]
    && after.cursor == lo + |added| && after.anchor.None? && Drafts.Valid(after)
    && (forall r :: r in after.pastes <==>
          || IsKept(before.pastes, r, lo, hi, |added|)
          || (pasted && IsLarge(r) && r == PasteOf(after.text, lo, lo + |added|)))
  }

  /** Nothing came for what went. */
  ghost predicate Cut(before: Draft, after: Draft, lo: nat, hi: nat) {
    Spliced(before, after, lo, hi, "", false)
  }

  lemma EraseCuts(d: Draft, lo: nat, hi: nat)
    requires Drafts.Valid(d) && lo < hi <= |d.text| && Stop(d.pastes, lo) && Stop(d.pastes, hi) && lo <= d.cursor
    ensures Cut(d, d.Erase(lo, hi), lo, hi)
  {
    var after := d.Erase(lo, hi);
    EraseValid(d, lo, hi);
    ClosureAtStops(d.pastes, lo, hi);
    assert after.text == d.text[..lo] + "" + d.text[hi..];
    assert after.pastes == Removed(d.pastes, lo, hi);
    ErasedChips(d, lo, hi);
  }

  lemma ErasedChips(d: Draft, lo: nat, hi: nat)
    requires Drafts.Valid(d) && lo < hi
    ensures forall r :: r in Removed(d.pastes, lo, hi) <==> IsKept(d.pastes, r, lo, hi, 0)
  {
    forall r
      ensures r in Removed(d.pastes, lo, hi) <==> IsKept(d.pastes, r, lo, hi, 0)
    {
      if r in Removed(d.pastes, lo, hi) {
        var p := SurvivorOf(d.pastes, lo, hi, r);
        assert Keeps(p, r, lo, hi, 0);
      }
      if IsKept(d.pastes, r, lo, hi, 0) {
        var p :| p in d.pastes && Keeps(p, r, lo, hi, 0);
        assert Survives(p, r, lo, hi);
        SurvivorIsKept(d.pastes, lo, hi, p, r);
      }
    }
  }

  lemma InsertSplices(d: Draft, added: string)
    requires Drafts.Valid(d) && d.anchor.None?
    ensures Spliced(d, d.Insert(added), d.cursor, d.cursor, added, false)
  {
    InsertValid(d, added);
    InsertedChips(d, |added|);
    hide Shifted;
  }

  lemma InsertedChips(d: Draft, length: nat)
    requires Drafts.Valid(d)
    ensures forall r :: r in Shifted(d.pastes, d.cursor, length) <==> IsKept(d.pastes, r, d.cursor, d.cursor, length)
  {
    var after := Shifted(d.pastes, d.cursor, length);
    forall i | 0 <= i < |d.pastes|
      ensures Keeps(d.pastes[i], after[i], d.cursor, d.cursor, length)
    {
      assert !d.pastes[i].Inside(d.cursor) && d.pastes[i].start < d.pastes[i].end;
    }
    forall r
      ensures r in after <==> IsKept(d.pastes, r, d.cursor, d.cursor, length)
    {
      if r in after {
        var i :| 0 <= i < |after| && after[i] == r;
        assert Keeps(d.pastes[i], r, d.cursor, d.cursor, length);
      }
      if IsKept(d.pastes, r, d.cursor, d.cursor, length) {
        var p :| p in d.pastes && Keeps(p, r, d.cursor, d.cursor, length);
        var i :| 0 <= i < |d.pastes| && d.pastes[i] == p;
        OneKept(p, r, after[i], d.cursor, d.cursor, length);
      }
    }
  }

  lemma OneKept(p: Paste, a: Paste, b: Paste, lo: nat, hi: nat, length: nat)
    requires lo <= hi && p.start < p.end && Keeps(p, a, lo, hi, length) && Keeps(p, b, lo, hi, length)
    ensures a == b
  {
  }

  lemma PasteSplices(d: Draft, added: string)
    requires Drafts.Valid(d) && d.anchor.None? && added != ""
    ensures Spliced(d, d.InsertPasted(added), d.cursor, d.cursor, added, true)
  {
    var typed, after := d.Insert(added), d.InsertPasted(added);
    InsertSplices(d, added);
    InsertPastedValid(d, added);
    PastedIsTyped(d, added);
    InsertByStartMembers(typed.pastes, PasteOf(typed.text, d.cursor, typed.cursor));
    hide Draft.Insert;
    hide Draft.InsertPasted;
  }

  /** Cutting and then splicing in is one splice. */
  lemma SplicesCompose(a: Draft, b: Draft, c: Draft, lo: nat, hi: nat, added: string, pasted: bool)
    requires Cut(a, b, lo, hi) && Spliced(b, c, lo, lo, added, pasted)
    requires forall p | p in a.pastes :: p.start < p.end
    ensures Spliced(a, c, lo, hi, added, pasted)
  {
    assert a.text[..lo] + "" + a.text[hi..] == a.text[..lo] + a.text[hi..];
    assert b.text[..lo] == a.text[..lo] && b.text[lo..] == a.text[hi..];
    forall r
      ensures IsKept(a.pastes, r, lo, hi, |added|) <==> IsKept(b.pastes, r, lo, lo, |added|)
    {
      if IsKept(a.pastes, r, lo, hi, |added|) {
        var p :| p in a.pastes && Keeps(p, r, lo, hi, |added|);
        var q := if p.end <= lo then p else p.(start := p.start - hi + lo, end := p.end - hi + lo);
        assert Keeps(p, q, lo, hi, 0) && q in b.pastes && Keeps(q, r, lo, lo, |added|);
      }
      if IsKept(b.pastes, r, lo, lo, |added|) {
        var q :| q in b.pastes && Keeps(q, r, lo, lo, |added|);
        var p :| p in a.pastes && Keeps(p, q, lo, hi, 0);
        assert Keeps(p, r, lo, hi, |added|);
      }
    }
  }

  lemma ChipsAreNotEmpty(d: Draft)
    requires Drafts.Valid(d)
    ensures forall p | p in d.pastes :: p.start < p.end <= |d.text|
  {
  }

  // ---- typing and pasting -----------------------------------------------

  /** Where the edit takes place: the selection, or the caret. */
  function From(d: Draft): nat {
    match d.anchor case None => d.cursor case Some(at) => if at < d.cursor then at else d.cursor
  }

  function To(d: Draft): nat {
    match d.anchor case None => d.cursor case Some(at) => if at < d.cursor then d.cursor else at
  }

  lemma SelectionCuts(d: Draft)
    requires Drafts.Valid(d) && From(d) < To(d)
    ensures d.IsSelecting() && d.SelectionStart() == From(d) && d.SelectionEnd() == To(d)
    ensures Cut(d, d.Erase(From(d), To(d)), From(d), To(d))
  {
    EraseCuts(d, From(d), To(d));
  }

  /** Typed text takes the place of the selection. */
  lemma TypeReplaces(d: Draft, added: string)
    requires Drafts.Valid(d)
    ensures Spliced(d, d.Type(added), From(d), To(d), added, false)
  {
    ChipsAreNotEmpty(d);
    if From(d) < To(d) {
      SelectionCuts(d);
      InsertSplices(d.EraseSelection(), added);
      SplicesCompose(d, d.EraseSelection(), d.Type(added), From(d), To(d), added, false);
    } else {
      InsertSplices(d.(anchor := None), added);
    }
  }

  /** Pasted text does too, and becomes a chip if it is large. */
  lemma PasteReplaces(d: Draft, added: string)
    requires Drafts.Valid(d) && added != ""
    ensures Spliced(d, d.TypePasted(added), From(d), To(d), added, true)
  {
    ChipsAreNotEmpty(d);
    if From(d) < To(d) {
      SelectionCuts(d);
      PasteSplices(d.EraseSelection(), added);
      SplicesCompose(d, d.EraseSelection(), d.TypePasted(added), From(d), To(d), added, true);
    } else {
      PasteSplices(d.(anchor := None), added);
    }
  }

  /** What typing, pasting and a line end leave in the editor. */
  lemma TypingSplices(e: Editor, text: string, c: char)
    requires ValidEditor(e)
    ensures text != "" ==> Spliced(e.draft, e.Insert(text).draft, From(e.draft), To(e.draft), text, true)
    ensures Spliced(e.draft, e.Newline().draft, From(e.draft), To(e.draft), "\n", false)
    ensures c != '\n' && c != '\r' ==> Spliced(e.draft, e.TypeChar(c).draft, From(e.draft), To(e.draft), [c], false)
    ensures c == '\n' || c == '\r' ==> Spliced(e.draft, e.TypeChar(c).draft, From(e.draft), To(e.draft), "\n", false)
  {
    if text != "" {
      PasteReplaces(e.draft, text);
    }
    TypeReplaces(e.draft, "\n");
    TypeReplaces(e.draft, [c]);
    hide Spliced;
    hide Draft.Type;
    hide Draft.TypePasted;
  }

  // ---- deleting ---------------------------------------------------------

  lemma DeleteRangeCuts(e: Editor, lo: nat, hi: nat, snapshot: bool)
    requires ValidEditor(e) && lo < hi <= |e.draft.text| && Stop(e.draft.pastes, lo) && Stop(e.draft.pastes, hi)
    requires lo <= e.draft.cursor
    ensures Cut(e.draft, e.DeleteRange(lo, hi, snapshot).draft, lo, hi)
  {
    EraseCuts(e.draft, lo, hi);
    hide Draft.Erase;
    hide Trim;
  }

  /** Any deletion takes the selection if there is one. */
  lemma SelectionIsDeleted(e: Editor)
    requires ValidEditor(e) && From(e.draft) < To(e.draft)
    ensures forall after | after in {e.DeleteSelection(), e.Backspace(), e.Delete(), e.DeleteWordLeft(),
                                     e.DeleteWordRight(), e.DeleteToLineStart(), e.DeleteToLineEnd()} ::
              Cut(e.draft, after.draft, From(e.draft), To(e.draft))
  {
    SelectionCuts(e.draft);
    CloseGestureKeeps(e);
    DeleteRangeCuts(e.Commit(), From(e.draft), To(e.draft), true);
  }

  /** A backspace takes the chip that ends at the caret, or else the one character before it. */
  lemma BackspaceCuts(e: Editor)
    requires ValidEditor(e) && From(e.draft) == To(e.draft) && 0 < e.draft.cursor
    ensures forall p | p in e.draft.pastes && p.end == e.draft.cursor ::
              Cut(e.draft, e.Backspace().draft, p.start, p.end)
    ensures (forall p | p in e.draft.pastes :: p.end != e.draft.cursor) ==>
              Cut(e.draft, e.Backspace().draft, e.draft.cursor - 1, e.draft.cursor)
  {
    BackspaceIsOneStep(e);
    OneEndsAt(e.draft);
    hide Editor.Backspace;
    hide Cut;
  }

  lemma BackspaceIsOneStep(e: Editor)
    requires ValidEditor(e) && From(e.draft) == To(e.draft) && 0 < e.draft.cursor
    ensures Cut(e.draft, e.Backspace().draft, e.draft.StepLeft(), e.draft.cursor)
  {
    hide Draft.StepLeft;
    hide Editor.DeleteRange;
    var d := e.draft;
    StepsAreStops(d);
    DeleteRangeCuts(e.TakeSnapshot(), d.StepLeft(), d.cursor, false);
  }

  /** A step left is to the start of the chip that ends at the caret, or one character. */
  lemma OneEndsAt(d: Draft)
    requires Drafts.Valid(d)
    ensures forall p | p in d.pastes && p.end == d.cursor :: d.StepLeft() == p.start
    ensures (forall p | p in d.pastes :: p.end != d.cursor) ==>
              d.StepLeft() == if d.cursor == 0 then 0 else d.cursor - 1
    ensures forall p | p in d.pastes && p.start == d.cursor :: d.StepRight() == p.end
    ensures (forall p | p in d.pastes :: p.start != d.cursor) ==>
              d.StepRight() == if d.cursor == |d.text| then |d.text| else d.cursor + 1
  {
    forall p, q | p in d.pastes && q in d.pastes && (p.end == q.end || p.start == q.start)
      ensures p == q
    {
      var i :| 0 <= i < |d.pastes| && d.pastes[i] == p;
      var j :| 0 <= j < |d.pastes| && d.pastes[j] == q;
    }
  }

  /** A forward deletion takes the chip that starts at the caret, or else the one character behind it. */
  lemma DeleteCuts(e: Editor)
    requires ValidEditor(e) && From(e.draft) == To(e.draft) && e.draft.cursor < |e.draft.text|
    ensures forall p | p in e.draft.pastes && p.start == e.draft.cursor ::
              Cut(e.draft, e.Delete().draft, p.start, p.end)
    ensures (forall p | p in e.draft.pastes :: p.start != e.draft.cursor) ==>
              Cut(e.draft, e.Delete().draft, e.draft.cursor, e.draft.cursor + 1)
  {
    var d := e.draft;
    DeleteIsOneStep(e);
    OneEndsAt(d);
    hide Editor.Delete;
    hide Cut;
  }

  lemma DeleteIsOneStep(e: Editor)
    requires ValidEditor(e) && From(e.draft) == To(e.draft) && e.draft.cursor < |e.draft.text|
    ensures Cut(e.draft, e.Delete().draft, e.draft.cursor, e.draft.StepRight())
  {
    hide Draft.StepRight;
    hide Editor.DeleteRange;
    hide Trim;
    var d := e.draft;
    StepsAreStops(d);
    CloseGestureKeeps(e);
    DeleteRangeCuts(e.Commit(), d.cursor, d.StepRight(), false);
  }

  // ---- words ------------------------------------------------------------

  ghost predicate Blanks(text: string, lo: nat, hi: nat) {
    lo <= hi <= |text| && forall j | lo <= j < hi :: IsBlank(text[j])
  }

  ghost predicate NoBlanks(text: string, lo: nat, hi: nat) {
    lo <= hi <= |text| && forall j | lo <= j < hi :: !IsBlank(text[j])
  }

  ghost predicate Starts(pastes: seq<Paste>, at: nat) {
    exists p :: p in pastes && p.start == at
  }

  ghost predicate Ends(pastes: seq<Paste>, at: nat) {
    exists p :: p in pastes && p.end == at
  }

  /** `r` is where the word or chip ends that comes after the blanks at the caret. */
  ghost predicate EndsNextWord(d: Draft, at: nat, r: nat) {
    && Blanks(d.text, d.cursor, at) && (at < |d.text| ==> !IsBlank(d.text[at]))
    && (Starts(d.pastes, at) ==> exists p :: p in d.pastes && p.start == at && p.end == r)
    && (!Starts(d.pastes, at) ==>
          && NoBlanks(d.text, at, r) && (forall j | at <= j < r :: !Starts(d.pastes, j))
          && (r == |d.text| || IsBlank(d.text[r]) || Starts(d.pastes, r)))
  }

  lemma FindStartIs(pastes: seq<Paste>, at: nat)
    ensures FindStart(pastes, at).Some? <==> Starts(pastes, at)
  {
    if Starts(pastes, at) {
      var p :| p in pastes && p.start == at;
      var i :| 0 <= i < |pastes| && pastes[i] == p;
    }
  }

  lemma FindEndIs(pastes: seq<Paste>, at: nat)
    ensures FindEnd(pastes, at).Some? <==> Ends(pastes, at)
  {
    if Ends(pastes, at) {
      var p :| p in pastes && p.end == at;
      var i :| 0 <= i < |pastes| && pastes[i] == p;
    }
  }

  lemma {:induction false} WordEndFromIs(text: string, pastes: seq<Paste>, at: nat)
    requires at <= |text|
    ensures var r := WordEndFrom(text, pastes, at);
            && NoBlanks(text, at, r) && (forall j | at <= j < r :: !Starts(pastes, j))
            && (r == |text| || IsBlank(text[r]) || Starts(pastes, r))
    decreases |text| - at
  {
    FindStartIs(pastes, at);
    if !(at == |text| || FindStart(pastes, at).Some? || IsBlank(text[at])) {
      WordEndFromIs(text, pastes, at + 1);
    }
  }

  lemma WordEndIs(d: Draft)
    requires d.cursor <= |d.text|
    ensures EndsNextWord(d, BlanksRight(d.text, d.cursor), WordEnd(d))
  {
    var at := BlanksRight(d.text, d.cursor);
    FindStartIs(d.pastes, at);
    WordEndFromIs(d.text, d.pastes, at);
  }

  /** `r` is where the word or chip starts that comes before the blanks at the caret: the chip that ends
      there, or else what lies behind the nearest blank, or the chip that ends nearer. */
  ghost predicate StartsLastWord(d: Draft, at: nat, m: nat, r: nat) {
    && m <= at <= d.cursor <= |d.text|
    && (Ends(d.pastes, d.cursor) ==> at == m == d.cursor)
    && (!Ends(d.pastes, d.cursor) ==> Blanks(d.text, at, d.cursor) && (0 < at ==> !IsBlank(d.text[at - 1])))
    && NoBlanks(d.text, m, at) && (forall j | m < j <= at :: !Ends(d.pastes, j))
    && (if Ends(d.pastes, m) then exists p :: p in d.pastes && p.end == m && p.start == r
        else r == m && (m == 0 || IsBlank(d.text[m - 1])))
  }

  lemma {:induction false} WordLeftFromIs(text: string, pastes: seq<Paste>, at: nat) returns (m: nat)
    requires at <= |text| && !Ends(pastes, 0)
    ensures m <= at && NoBlanks(text, m, at) && (forall j | m < j <= at :: !Ends(pastes, j))
    ensures var r := WordLeftFrom(text, pastes, at);
            if Ends(pastes, m) then exists p :: p in pastes && p.end == m && p.start == r
            else r == m && (m == 0 || IsBlank(text[m - 1]))
  {
    FindEndIs(pastes, at);
    if at == 0 || FindEnd(pastes, at).Some? || IsBlank(text[at - 1]) {
      m := at;
    } else {
      m := WordLeftFromIs(text, pastes, at - 1);
    }
  }

  lemma WordLeftIs(d: Draft) returns (at: nat, m: nat)
    requires Drafts.Valid(d)
    ensures StartsLastWord(d, at, m, Motions.WordLeft(d))
  {
    FindEndIs(d.pastes, d.cursor);
    ChipsAreNotEmpty(d);
    if Ends(d.pastes, d.cursor) {
      at, m := d.cursor, d.cursor;
    } else {
      at := BlanksLeft(d.text, d.cursor);
      m := WordLeftFromIs(d.text, d.pastes, at);
    }
  }

  /** `r` is past the word or chip at the caret, which ends at `m` or one short of the next chip, and past
      the blanks behind it. */
  ghost predicate PassesWord(d: Draft, m: nat, r: nat) {
    && d.cursor <= m <= |d.text|
    && (Starts(d.pastes, d.cursor) ==> exists p :: p in d.pastes && p.start == d.cursor && p.end == m)
    && (!Starts(d.pastes, d.cursor) ==>
          && NoBlanks(d.text, d.cursor, m) && (forall j | d.cursor < j <= m :: !Starts(d.pastes, j))
          && (m == |d.text| || IsBlank(d.text[m]) || Starts(d.pastes, m + 1)))
    && Blanks(d.text, m, r) && (r < |d.text| ==> !IsBlank(d.text[r]))
  }

  lemma {:induction false} WordRightFromIs(text: string, pastes: seq<Paste>, at: nat)
    requires at <= |text|
    ensures var m := WordRightFrom(text, pastes, at);
            && NoBlanks(text, at, m) && (forall j | at < j <= m :: !Starts(pastes, j))
            && (m == |text| || IsBlank(text[m]) || Starts(pastes, m + 1))
    decreases |text| - at
  {
    FindStartIs(pastes, at + 1);
    if !(at == |text| || FindStart(pastes, at + 1).Some? || IsBlank(text[at])) {
      WordRightFromIs(text, pastes, at + 1);
    }
  }

  lemma WordRightIs(d: Draft)
    requires Drafts.Valid(d)
    ensures PastWord(d) <= |d.text| && PassesWord(d, PastWord(d), Motions.WordRight(d))
  {
    PastWordIsStop(d);
    FindStartIs(d.pastes, d.cursor);
    WordRightFromIs(d.text, d.pastes, d.cursor);
  }

  /** What a deletion between two positions cuts, where they need not be stops. */
  ghost predicate CutsAround(d: Draft, after: Draft, start: nat, end: nat) {
    if end <= start then after.text == d.text && after.pastes == d.pastes && after.cursor == d.cursor
    else exists lo: nat, hi: nat ::
           && Cut(d, after, lo, hi) && lo <= start && end <= hi && Stop(d.pastes, lo) && Stop(d.pastes, hi)
           && (forall a: nat | a <= start && Stop(d.pastes, a) :: a <= lo)
           && (forall b: nat | end <= b && Stop(d.pastes, b) :: hi <= b)
  }

  lemma DeleteRangeCutsAround(e: Editor, start: nat, end: nat)
    requires ValidEditor(e) && end <= |e.draft.text| && start <= e.draft.cursor
    ensures CutsAround(e.draft, e.DeleteRange(start, end, true).draft, start, end)
  {
    var d := e.draft;
    if start < end {
      var (lo, hi) := Closure(d.pastes, 0, start, end);
      forall a: nat, b: nat
        ensures Stop(d.pastes, a) && a <= start ==> a <= lo
        ensures Stop(d.pastes, b) && end <= b ==> hi <= b
      {
        ClosureIsSmallest(d.pastes, start, end, a, b);
      }
      EraseValid(d, start, end);
      EraseCuts(d, lo, hi);
      ClosureAtStops(d.pastes, lo, hi);
      assert d.Erase(start, end) == d.Erase(lo, hi);
      hide Trim;
      hide Closure;
      hide Cut;
      assert Cut(d, e.DeleteRange(start, end, true).draft, lo, hi);
    }
  }

  /** Deleting a word takes exactly the blanks and the word or chip beside them, and any chip it enters. */
  lemma WordDeletesCut(e: Editor)
    requires ValidEditor(e) && From(e.draft) == To(e.draft)
    ensures CutsAround(e.draft, e.DeleteWordRight().draft, e.draft.cursor, WordEnd(e.draft))
    ensures CutsAround(e.draft, e.DeleteWordLeft().draft, Motions.WordLeft(e.draft), e.draft.cursor)
  {
    CloseGestureKeeps(e);
    WordEndInBounds(e.draft);
    WordLeftIsStopIff(e.draft);
    hide Editor.DeleteRange;
    hide WordEnd;
    hide Motions.WordLeft;
    hide Trim;
    DeleteRangeCutsAround(e.Commit(), e.draft.cursor, WordEnd(e.draft));
    RestingCuts(e.Commit(), Motions.WordLeft(e.draft));
  }

  lemma RestingCuts(e: Editor, start: nat)
    requires ValidEditor(e) && start <= e.draft.cursor
    ensures CutsAround(e.draft, e.Resting().DeleteRange(start, e.draft.cursor, true).draft, start, e.draft.cursor)
  {
    hide Editor.DeleteRange;
    hide CutsAround;
    DeleteRangeCutsAround(e.Resting(), start, e.draft.cursor);
    SameCuts(e.Resting().draft, e.draft, e.Resting().DeleteRange(start, e.draft.cursor, true).draft, start,
             e.draft.cursor);
  }

  /** What is cut does not depend on the selection. */
  lemma SameCuts(a: Draft, b: Draft, after: Draft, start: nat, end: nat)
    requires CutsAround(a, after, start, end)
    requires a.text == b.text && a.pastes == b.pastes && a.cursor == b.cursor
    ensures CutsAround(b, after, start, end)
  {
    hide IsKept;
    hide Drafts.Valid;
    hide Stop;
    if start < end {
      var lo: nat, hi: nat :|
        && Cut(a, after, lo, hi) && lo <= start && end <= hi && Stop(a.pastes, lo) && Stop(a.pastes, hi)
        && (forall c: nat | c <= start && Stop(a.pastes, c) :: c <= lo)
        && (forall c: nat | end <= c && Stop(a.pastes, c) :: hi <= c);
      assert Cut(b, after, lo, hi);
    }
  }
}

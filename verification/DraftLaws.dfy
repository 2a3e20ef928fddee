/** Edits keep the chips intact: every splice leaves a valid text and a caret outside payloads,
    and an erased range is exactly the given one closed over the payloads it touches. */
module DraftLaws {
  import opened Wrappers
  import opened Projections
  import opened ProjectionLaws
  import opened Drafts

  // ---- erasing --------------------------------------------------------

  /** The closure ends at stops, and only grew where the range cut into a payload. */
  lemma {:induction false} ClosureFrom(pastes: seq<Paste>, i: nat, start: nat, end: nat)
    requires i <= |pastes| && Ordered(pastes, i, 0) && start < end
    ensures var (lo, hi) := Closure(pastes, i, start, end);
            && lo <= start && end <= hi
            && StopFrom(pastes, i, lo) && StopFrom(pastes, i, hi)
            && (lo == start || exists j :: i <= j < |pastes| && pastes[j].Inside(start) && lo == pastes[j].start)
            && (hi == end || exists j :: i <= j < |pastes| && pastes[j].Inside(end) && hi == pastes[j].end)
    decreases |pastes| - i
  {
    if i < |pastes| {
      var touched := pastes[i].start < end && pastes[i].end > start;
      var s := if touched then Min(start, pastes[i].start) else start;
      var e := if touched then Max(end, pastes[i].end) else end;
      ClosureFrom(pastes, i + 1, s, e);
    }
  }

  /** The closure is the smallest range between stops that holds the given one. */
  lemma ClosureIsSmallest(pastes: seq<Paste>, start: nat, end: nat, a: nat, b: nat)
    requires Ordered(pastes, 0, 0) && start < end
    ensures var (lo, hi) := Closure(pastes, 0, start, end);
            && lo <= start < end <= hi && Stop(pastes, lo) && Stop(pastes, hi)
            && (Stop(pastes, a) && a <= start ==> a <= lo)
            && (Stop(pastes, b) && end <= b ==> hi <= b)
  {
    ClosureFrom(pastes, 0, start, end);
  }

  lemma ClosureInBounds(pastes: seq<Paste>, start: nat, end: nat, length: nat)
    requires Fit(pastes, length) && start < end <= length
    ensures Closure(pastes, 0, start, end).1 <= length
  {
    ClosureFrom(pastes, 0, start, end);
  }

  /** Where a position goes when `[lo..hi)` is removed. */
  function Moved(at: nat, lo: nat, hi: nat): nat
    requires lo <= hi
  {
    if at <= lo then at else if at >= hi then at - (hi - lo) else lo
  }

  /** A payload outside the removed range, moved with the text. */
  ghost predicate Survives(p: Paste, r: Paste, lo: nat, hi: nat)
    requires lo <= hi
  {
    (p.end <= lo || p.start >= hi) && r == p.(start := Moved(p.start, lo, hi), end := Moved(p.end, lo, hi))
  }

  lemma OrderedTail(pastes: seq<Paste>, at: nat)
    requires Ordered(pastes, 0, at) && pastes != []
    ensures Ordered(pastes[1..], 0, pastes[0].end) && at <= pastes[0].start < pastes[0].end
  {
    assert forall j | 0 <= j < |pastes[1..]| :: pastes[1..][j] == pastes[j + 1];
  }

  lemma OrderedCons(p: Paste, rest: seq<Paste>, at: nat)
    requires Ordered(rest, 0, p.end) && at <= p.start < p.end
    ensures Ordered([p] + rest, 0, at)
  {
    assert forall j | 0 < j < |[p] + rest| :: ([p] + rest)[j] == rest[j - 1];
  }

  lemma OrderedLower(pastes: seq<Paste>, a: nat, b: nat)
    requires Ordered(pastes, 0, a) && b <= a
    ensures Ordered(pastes, 0, b)
  {
  }

  lemma StopTail(pastes: seq<Paste>, at: nat)
    requires Stop(pastes, at) && pastes != []
    ensures Stop(pastes[1..], at) && !pastes[0].Inside(at)
  {
    assert forall j | 0 <= j < |pastes[1..]| :: pastes[1..][j] == pastes[j + 1];
  }

  /** What the first range adds to the ones left of the others. */
  lemma RemovedFirst(pastes: seq<Paste>, lo: nat, hi: nat)
    requires lo <= hi && pastes != [] && !pastes[0].Inside(lo) && !pastes[0].Inside(hi)
    requires pastes[0].start < pastes[0].end
    ensures var p, rest := pastes[0], Removed(pastes[1..], lo, hi);
            Removed(pastes, lo, hi) ==
            if p.end <= lo || p.start >= hi
            then [p.(start := Moved(p.start, lo, hi), end := Moved(p.end, lo, hi))] + rest
            else rest
  {
    var p := pastes[0];
    assert p.end <= lo ==> p.(start := Moved(p.start, lo, hi), end := Moved(p.end, lo, hi)) == p;
    assert p.start >= hi ==> Moved(p.start, lo, hi) == p.start - (hi - lo) && Moved(p.end, lo, hi) == p.end - (hi - lo);
    hide Moved;
  }

  /** What survives is in order. */
  lemma {:induction false} RemovedOrdered(pastes: seq<Paste>, lo: nat, hi: nat, at: nat)
    requires Ordered(pastes, 0, at) && lo <= hi && Stop(pastes, lo) && Stop(pastes, hi)
    ensures Ordered(Removed(pastes, lo, hi), 0, Moved(at, lo, hi))
  {
    if pastes != [] {
      OrderedTail(pastes, at);
      StopTail(pastes, lo);
      StopTail(pastes, hi);
      RemovedFirst(pastes, lo, hi);
      hide Ordered;
      hide Stop;
      hide Removed;
      var p, rest := pastes[0], Removed(pastes[1..], lo, hi);
      RemovedOrdered(pastes[1..], lo, hi, p.end);
      if p.end <= lo || p.start >= hi {
        OrderedCons(p.(start := Moved(p.start, lo, hi), end := Moved(p.end, lo, hi)), rest, Moved(at, lo, hi));
      } else {
        OrderedLower(rest, Moved(p.end, lo, hi), Moved(at, lo, hi));
      }
    }
  }

  /** Nothing but moved payloads from outside the range is left. */
  lemma {:induction false} SurvivorOf(pastes: seq<Paste>, lo: nat, hi: nat, r: Paste) returns (p: Paste)
    requires lo <= hi && r in Removed(pastes, lo, hi)
    requires forall i | 0 <= i < |pastes| :: pastes[i].start <= pastes[i].end
    ensures p in pastes && Survives(p, r, lo, hi)
  {
    p := pastes[0];
    if r in Removed(pastes[1..], lo, hi) {
      p := SurvivorOf(pastes[1..], lo, hi, r);
    }
  }

  /** Every payload outside the range is left. */
  lemma {:induction false} SurvivorIsKept(pastes: seq<Paste>, lo: nat, hi: nat, p: Paste, r: Paste)
    requires lo <= hi && p in pastes && Survives(p, r, lo, hi) && p.start < p.end
    ensures r in Removed(pastes, lo, hi)
  {
    if p != pastes[0] {
      SurvivorIsKept(pastes[1..], lo, hi, p, r);
    }
  }

  /** A survivor keeps its payload, so its label stays right. */
  lemma SurvivorKeepsPayload(text: string, p: Paste, r: Paste, lo: nat, hi: nat)
    requires lo <= hi <= |text| && p.start < p.end <= |text| && Survives(p, r, lo, hi)
    ensures var left := text[..lo] + text[hi..];
            r.end <= |left| && left[r.start..r.end] == text[p.start..p.end]
    ensures p == PasteOf(text, p.start, p.end) ==> r == PasteOf(text[..lo] + text[hi..], r.start, r.end)
  {
    var left := text[..lo] + text[hi..];
    assert left[r.start..r.end] == text[p.start..p.end];
  }

  lemma RemovedValid(text: string, pastes: seq<Paste>, lo: nat, hi: nat)
    requires ValidText(text, pastes) && lo <= hi <= |text| && Stop(pastes, lo) && Stop(pastes, hi)
    ensures ValidText(text[..lo] + text[hi..], Removed(pastes, lo, hi))
    ensures Stop(Removed(pastes, lo, hi), lo)
  {
    RemovedOrdered(pastes, lo, hi, 0);
    var left := Removed(pastes, lo, hi);
    forall i | 0 <= i < |left|
      ensures left[i].end <= |text[..lo] + text[hi..]|
      ensures left[i] == PasteOf(text[..lo] + text[hi..], left[i].start, left[i].end)
      ensures !left[i].Inside(lo)
    {
      assert left[i] in left;
      var p := SurvivorOf(pastes, lo, hi, left[i]);
      var j :| 0 <= j < |pastes| && pastes[j] == p;
      SurvivorKeepsPayload(text, p, left[i], lo, hi);
    }
  }

  /** A stop stays a stop where the removed range leaves it. */
  lemma MovedStop(pastes: seq<Paste>, lo: nat, hi: nat, at: nat)
    requires Ordered(pastes, 0, 0) && lo <= hi && Stop(pastes, lo) && Stop(pastes, hi) && Stop(pastes, at) && at <= lo
    ensures Stop(Removed(pastes, lo, hi), at)
  {
    var left := Removed(pastes, lo, hi);
    forall i | 0 <= i < |left|
      ensures !left[i].Inside(at)
    {
      assert left[i] in left;
      var p := SurvivorOf(pastes, lo, hi, left[i]);
      var j :| 0 <= j < |pastes| && pastes[j] == p;
      assert !pastes[j].Inside(at);
    }
  }

  /** Erasing removes exactly the range closed over the payloads it touches, and leaves a valid draft. */
  lemma EraseValid(d: Draft, start: nat, end: nat)
    requires Valid(d) && start < end <= |d.text|
    ensures var (lo, hi) := Closure(d.pastes, 0, start, end); var after := d.Erase(start, end);
            && lo <= start < end <= hi <= |d.text| && Stop(d.pastes, lo) && Stop(d.pastes, hi)
            && after.text == d.text[..lo] + d.text[hi..]
            && after.cursor == Min(d.cursor, lo) && after.anchor == None
            && Valid(after)
  {
    ClosureFrom(d.pastes, 0, start, end);
    ClosureInBounds(d.pastes, start, end, |d.text|);
    var (lo, hi) := Closure(d.pastes, 0, start, end);
    RemovedValid(d.text, d.pastes, lo, hi);
    MovedStop(d.pastes, lo, hi, Min(d.cursor, lo));
  }

  lemma EraseSelectionValid(d: Draft)
    requires Valid(d)
    ensures Valid(d.EraseSelection()) && d.EraseSelection().anchor == None
  {
    if d.IsSelecting() {
      EraseValid(d, d.SelectionStart(), d.SelectionEnd());
    }
  }

  // ---- inserting ------------------------------------------------------

  lemma ShiftedKeepsPayload(text: string, p: Paste, at: nat, added: string)
    requires at <= |text| && p.start < p.end <= |text| && !p.Inside(at)
    ensures var r := ShiftedOne(p, at, |added|); var longer := text[..at] + added + text[at..];
            && r.end <= |longer| && longer[r.start..r.end] == text[p.start..p.end]
            && (at <= p.start ==> r.start == p.start + |added|) && (p.end <= at ==> r == p)
            && (p == PasteOf(text, p.start, p.end) ==> r == PasteOf(longer, r.start, r.end))
  {
    var r := ShiftedOne(p, at, |added|);
    var longer := text[..at] + added + text[at..];
    assert longer[r.start..r.end] == text[p.start..p.end];
  }

  /** Inserting at a stop moves every payload as a whole. */
  lemma InsertValid(d: Draft, added: string)
    requires Valid(d) && d.anchor.None?
    ensures var after := d.Insert(added);
            && Valid(after) && after.cursor == d.cursor + |added| && after.anchor.None?
            && after.text == d.text[..d.cursor] + added + d.text[d.cursor..]
            && Stop(after.pastes, d.cursor)
            && (forall i | 0 <= i < |after.pastes| ::
                  after.pastes[i].end <= d.cursor || d.cursor + |added| <= after.pastes[i].start)
  {
    var after := d.Insert(added);
    forall i | 0 <= i < |d.pastes|
      ensures after.pastes[i].end <= |after.text|
      ensures after.pastes[i] == PasteOf(after.text, after.pastes[i].start, after.pastes[i].end)
      ensures after.pastes[i].end <= d.cursor || d.cursor + |added| <= after.pastes[i].start
    {
      assert !d.pastes[i].Inside(d.cursor);
      ShiftedKeepsPayload(d.text, d.pastes[i], d.cursor, added);
    }
    ShiftedOrdered(d.pastes, d.cursor, |added|);
  }

  lemma ShiftedOrdered(pastes: seq<Paste>, at: nat, length: nat)
    requires Ordered(pastes, 0, 0) && Stop(pastes, at)
    ensures Ordered(Shifted(pastes, at, length), 0, 0)
  {
    forall j, k | 0 <= j < k < |pastes|
      ensures ShiftedOne(pastes[j], at, length).end <= ShiftedOne(pastes[k], at, length).start
    {
      assert !pastes[j].Inside(at) && !pastes[k].Inside(at);
    }
  }

  lemma {:induction false} InsertByStartMembers(pastes: seq<Paste>, paste: Paste)
    ensures forall r :: r in InsertByStart(pastes, paste) <==> r == paste || r in pastes
  {
    if !(pastes == [] || pastes[|pastes| - 1].start <= paste.start) {
      InsertByStartMembers(pastes[..|pastes| - 1], paste);
      assert pastes == pastes[..|pastes| - 1] + [pastes[|pastes| - 1]];
    }
  }

  lemma OrderedSnoc(pastes: seq<Paste>, last: Paste, at: nat)
    requires Ordered(pastes, 0, at) && at <= last.start < last.end
    requires forall i | 0 <= i < |pastes| :: pastes[i].end <= last.start
    ensures Ordered(pastes + [last], 0, at)
  {
  }

  lemma OrderedInit(pastes: seq<Paste>, at: nat)
    requires Ordered(pastes, 0, at) && pastes != []
    ensures Ordered(pastes[..|pastes| - 1], 0, at)
    ensures forall i | 0 <= i < |pastes| - 1 :: pastes[i].end <= pastes[|pastes| - 1].start
    ensures at <= pastes[|pastes| - 1].start < pastes[|pastes| - 1].end
  {
  }

  lemma {:induction false} InsertByStartOrders(pastes: seq<Paste>, paste: Paste)
    requires Ordered(pastes, 0, 0) && paste.start < paste.end
    requires forall i | 0 <= i < |pastes| :: pastes[i].end <= paste.start || paste.end <= pastes[i].start
    ensures Ordered(InsertByStart(pastes, paste), 0, 0)
  {
    if pastes != [] {
      OrderedInit(pastes, 0);
    }
    if pastes != [] && pastes[|pastes| - 1].start > paste.start {
      hide Ordered;
      var last := pastes[|pastes| - 1];
      var rest := pastes[..|pastes| - 1];
      InsertByStartOrders(rest, paste);
      InsertByStartMembers(rest, paste);
      var sorted := InsertByStart(rest, paste);
      forall i | 0 <= i < |sorted|
        ensures sorted[i].end <= last.start
      {
        assert sorted[i] in sorted;
      }
      OrderedSnoc(sorted, last, 0);
    } else {
      OrderedSnoc(pastes, paste, 0);
    }
  }

  lemma TypeValid(d: Draft, added: string)
    requires Valid(d)
    ensures Valid(d.Type(added)) && d.Type(added).anchor.None?
    ensures d.Type(added).cursor == d.EraseSelection().cursor + |added|
  {
    EraseSelectionValid(d);
    InsertValid(d.EraseSelection(), added);
  }

  /** Adding a chip over pasted text that no other payload overlaps. */
  lemma ChipValid(d: Draft, start: nat)
    requires Valid(d) && d.anchor.None? && start < d.cursor
    requires forall i | 0 <= i < |d.pastes| :: d.pastes[i].end <= start || d.cursor <= d.pastes[i].start
    ensures Valid(d.(pastes := InsertByStart(d.pastes, PasteOf(d.text, start, d.cursor))))
  {
    var paste := PasteOf(d.text, start, d.cursor);
    InsertByStartOrders(d.pastes, paste);
    InsertByStartMembers(d.pastes, paste);
    var pastes := InsertByStart(d.pastes, paste);
    forall i | 0 <= i < |pastes|
      ensures pastes[i].end <= |d.text| && pastes[i] == PasteOf(d.text, pastes[i].start, pastes[i].end)
      ensures !pastes[i].Inside(d.cursor)
    {
      assert pastes[i] in pastes;
    }
  }

  lemma LargeIsNotEmpty(text: string, start: nat, end: nat)
    requires start <= end <= |text|
    ensures IsLarge(PasteOf(text, start, end)) ==> start < end
  {
    if start == end {
      assert text[start..end] == [];
    }
  }

  /** A draft with a chip over the freshly pasted text is valid. */
  lemma ChipOverPaste(d: Draft, added: string)
    requires Valid(d) && d.anchor.None? && added != ""
    ensures d.cursor + |added| <= |d.Insert(added).text|
    ensures var typed := d.Insert(added);
            Valid(typed.(pastes := InsertByStart(typed.pastes, PasteOf(typed.text, d.cursor, d.cursor + |added|))))
  {
    hide InsertByStart;
    hide PasteOf;
    InsertValid(d, added);
    ChipValid(d.Insert(added), d.cursor);
  }

  lemma InsertedText(d: Draft, added: string)
    requires d.cursor <= |d.text|
    ensures var typed := d.Insert(added);
            && typed.cursor == d.cursor + |added| <= |typed.text| && typed.text[d.cursor..typed.cursor] == added
  {
  }

  /** The chips once the text typed at `at` was pasted. */
  function PastedChips(typed: Draft, at: nat): seq<Paste>
    requires at <= typed.cursor <= |typed.text|
  {
    var paste := PasteOf(typed.text, at, typed.cursor);
    if IsLarge(paste) then InsertByStart(typed.pastes, paste) else typed.pastes
  }

  lemma PastedIsTyped(d: Draft, added: string)
    requires d.cursor <= |d.text|
    ensures d.cursor <= d.Insert(added).cursor <= |d.Insert(added).text|
    ensures d.InsertPasted(added) == d.Insert(added).(pastes := PastedChips(d.Insert(added), d.cursor))
  {
    InsertedText(d, added);
    hide Draft.Insert;
    hide InsertByStart;
    hide PasteOf;
    hide IsLarge;
  }

  lemma PastedChipsAdd(typed: Draft, at: nat)
    requires at <= typed.cursor <= |typed.text|
    ensures var paste := PasteOf(typed.text, at, typed.cursor);
            multiset(PastedChips(typed, at)) ==
            multiset(typed.pastes) + (if IsLarge(paste) then multiset{paste} else multiset{})
  {
    hide InsertByStart;
    hide PasteOf;
    hide IsLarge;
    InsertByStartAdds(typed.pastes, PasteOf(typed.text, at, typed.cursor));
  }

  lemma InsertPastedValid(d: Draft, added: string)
    requires Valid(d) && d.anchor.None?
    ensures Valid(d.InsertPasted(added))
  {
    var typed := d.Insert(added);
    PastedIsTyped(d, added);
    InsertValid(d, added);
    InsertedText(d, added);
    LargeIsNotEmpty(typed.text, d.cursor, typed.cursor);
    if added != "" {
      ChipOverPaste(d, added);
    }
    assert typed.(pastes := typed.pastes) == typed;
    assert Valid(typed.(pastes := PastedChips(typed, d.cursor)));
  }

  /** Pasting is inserting, with one more chip over exactly the pasted text when it is large. */
  lemma PastingInserts(d: Draft, added: string)
    requires d.cursor <= |d.text|
    ensures var after := d.InsertPasted(added); var typed := d.Insert(added);
            && after == typed.(pastes := after.pastes)
            && after.cursor == d.cursor + |added| <= |after.text|
            && after.text[d.cursor..after.cursor] == added
            && var paste := PasteOf(after.text, d.cursor, after.cursor);
               multiset(after.pastes)
               == multiset(typed.pastes) + (if IsLarge(paste) then multiset{paste} else multiset{})
  {
    InsertedText(d, added);
    PastedIsTyped(d, added);
    PastedChipsAdd(d.Insert(added), d.cursor);
    hide Draft.Insert;
    hide Draft.InsertPasted;
    hide PastedChips;
    hide PasteOf;
    hide IsLarge;
  }

  lemma TypePastedValid(d: Draft, added: string)
    requires Valid(d)
    ensures Valid(d.TypePasted(added)) && d.TypePasted(added).anchor.None?
  {
    EraseSelectionValid(d);
    InsertPastedValid(d.EraseSelection(), added);
  }

  lemma {:induction false} InsertByStartAdds(pastes: seq<Paste>, paste: Paste)
    ensures multiset(InsertByStart(pastes, paste)) == multiset(pastes) + multiset{paste}
  {
    if !(pastes == [] || pastes[|pastes| - 1].start <= paste.start) {
      InsertByStartAdds(pastes[..|pastes| - 1], paste);
      assert pastes == pastes[..|pastes| - 1] + [pastes[|pastes| - 1]];
    }
  }

  // ---- steps ----------------------------------------------------------

  /** One step from a stop leads to a stop: over a whole chip or over one character outside chips. */
  lemma StepsAreStops(d: Draft)
    requires Valid(d)
    ensures d.StepLeft() <= d.cursor <= d.StepRight() <= |d.text|
    ensures Stop(d.pastes, d.StepLeft()) && Stop(d.pastes, d.StepRight())
    ensures 0 < d.cursor ==> d.StepLeft() < d.cursor
    ensures d.cursor < |d.text| ==> d.cursor < d.StepRight()
  {
    LeftIsStop(d.pastes, d.cursor);
    RightIsStop(d.pastes, d.cursor);
  }

  lemma ChipEndsAreStops(pastes: seq<Paste>, p: Paste)
    requires Ordered(pastes, 0, 0) && p in pastes
    ensures Stop(pastes, p.start) && Stop(pastes, p.end) && p.start < p.end
  {
    var i :| 0 <= i < |pastes| && pastes[i] == p;
    forall j | 0 <= j < |pastes|
      ensures !pastes[j].Inside(p.start) && !pastes[j].Inside(p.end)
    {
      if j < i {
        assert pastes[j].end <= pastes[i].start;
      } else if i < j {
        assert pastes[i].end <= pastes[j].start;
      }
    }
  }

  lemma LeftIsStop(pastes: seq<Paste>, at: nat)
    requires Ordered(pastes, 0, 0) && Stop(pastes, at)
    ensures match FindEnd(pastes, at) {
              case Some(p) => Stop(pastes, p.start) && p.start < at
              case None => Stop(pastes, Monus(at, 1))
            }
  {
    match FindEnd(pastes, at)
    case Some(p) => ChipEndsAreStops(pastes, p);
    case None =>
      forall i | 0 <= i < |pastes|
        ensures !pastes[i].Inside(Monus(at, 1))
      {
        assert !pastes[i].Inside(at);
      }
  }

  lemma RightIsStop(pastes: seq<Paste>, at: nat)
    requires Ordered(pastes, 0, 0) && Stop(pastes, at)
    ensures match FindStart(pastes, at) {
              case Some(p) => Stop(pastes, p.end) && at < p.end
              case None => Stop(pastes, at + 1)
            }
  {
    match FindStart(pastes, at)
    case Some(p) => ChipEndsAreStops(pastes, p);
    case None =>
      forall i | 0 <= i < |pastes|
        ensures !pastes[i].Inside(at + 1)
      {
        assert !pastes[i].Inside(at);
      }
  }
}

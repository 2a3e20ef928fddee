/**
 Paste chips: the buffer keeps each large paste in full, the user sees it as one atomic token.
 The projection maps offsets both ways by walking the pastes once.
 */
module Projections {
  import opened Wrappers

  const TOKEN_LINES: nat := 10
  const TOKEN_CHARS: nat := 1000

  /** A paste displayed as one token: the payload's range in the buffer and its size. */
  datatype Paste = Paste(start: nat, end: nat, lines: nat, chars: nat)
  {
    /** The chip text; `number` counts the pastes from 1. */
    function Label(number: nat): (chip: string)
      ensures 0 < |chip|
    {
      if lines > TOKEN_LINES then "[paste #" + Decimal(number) + " +" + Decimal(lines) + " lines]"
      else "[paste #" + Decimal(number) + " " + Decimal(chars) + " chars]"
    }

    predicate Inside(at: nat) {
      start < at < end
    }
  }

  function Decimal(n: nat): string {
    if n < 10 then ["0123456789"[n]] else Decimal(n / 10) + ["0123456789"[n % 10]]
  }

  function Newlines(text: string): nat {
    if text == [] then 0 else Newlines(text[..|text| - 1]) + (if text[|text| - 1] == '\n' then 1 else 0)
  }

  /** The lines of a payload, at least one; a final line end does not open another line. */
  function LineCount(text: string): nat {
    if text == [] then 1 else Newlines(text) + (if text[|text| - 1] == '\n' then 0 else 1)
  }

  function PasteOf(text: string, start: nat, end: nat): Paste
    requires start <= end <= |text|
  {
    Paste(start, end, LineCount(text[start..end]), end - start)
  }

  // ---- the walk -------------------------------------------------------

  /** The pastes from the `i`-th on are non-empty, disjoint, in order, and start at or after `at`. */
  ghost predicate Ordered(pastes: seq<Paste>, i: nat, at: nat)
    requires i <= |pastes|
  {
    && (forall j | i <= j < |pastes| :: at <= pastes[j].start < pastes[j].end)
    && (forall j, k | i <= j < k < |pastes| :: pastes[j].end <= pastes[k].start)
  }

  /** The paste ranges of a text of `length` characters. */
  ghost predicate Fit(pastes: seq<Paste>, length: nat) {
    Ordered(pastes, 0, 0) && forall j | 0 <= j < |pastes| :: pastes[j].end <= length
  }

  /** An editing stop: outside every payload's interior. */
  ghost predicate Stop(pastes: seq<Paste>, at: nat) {
    forall i | 0 <= i < |pastes| :: !pastes[i].Inside(at)
  }

  /** The displayed text from the `i`-th paste on, where the buffer offset is `at`. */
  function TextFrom(text: string, pastes: seq<Paste>, i: nat, at: nat): string
    requires i <= |pastes| && at <= |text| && Fit(pastes, |text|) && Ordered(pastes, i, at)
    decreases |pastes| - i
  {
    if i == |pastes| then text[at..]
    else text[at..pastes[i].start] + pastes[i].Label(i + 1) + TextFrom(text, pastes, i + 1, pastes[i].end)
  }

  /** The display offset of `raw` from the `i`-th paste on, where `at` is shown at `shown`; below
      zero the client's unsigned subtraction underflows. */
  function DisplayFrom(pastes: seq<Paste>, i: nat, at: nat, shown: int, raw: nat): int
    requires i <= |pastes|
    decreases |pastes| - i
  {
    if i == |pastes| then shown + Monus(raw, at)
    else if raw <= pastes[i].start then shown + raw - at
    else DisplayFrom(pastes, i + 1, pastes[i].end, shown + (pastes[i].start - at) + |pastes[i].Label(i + 1)|, raw)
  }

  /** The buffer offset of `display`, where `at` is shown at `shown`. */
  function RawFrom(pastes: seq<Paste>, i: nat, at: nat, shown: nat, display: nat): nat
    requires i <= |pastes| && Ordered(pastes, i, at)
    decreases |pastes| - i
  {
    if i == |pastes| then at + Monus(display, shown)
    else
      var head := pastes[i].start - at;
      var token := |pastes[i].Label(i + 1)|;
      if display <= shown + head then at + Monus(display, shown)
      else if display < shown + head + token then pastes[i].start
      else RawFrom(pastes, i + 1, pastes[i].end, shown + head + token, display)
  }

  /** `display` is strictly inside a token from the `i`-th on. */
  predicate InToken(pastes: seq<Paste>, i: nat, at: nat, shown: nat, display: nat)
    requires i <= |pastes| && Ordered(pastes, i, at)
    decreases |pastes| - i
  {
    i < |pastes| &&
    var start := shown + (pastes[i].start - at);
    var end := start + |pastes[i].Label(i + 1)|;
    start < display < end || InToken(pastes, i + 1, pastes[i].end, end, display)
  }

  /** The draft as displayed. */
  function Shown(text: string, pastes: seq<Paste>): string
    requires Fit(pastes, |text|)
  {
    TextFrom(text, pastes, 0, 0)
  }

  function Display(pastes: seq<Paste>, raw: nat): int {
    DisplayFrom(pastes, 0, 0, 0, raw)
  }

  function Raw(pastes: seq<Paste>, display: nat): nat
    requires Ordered(pastes, 0, 0)
  {
    RawFrom(pastes, 0, 0, 0, display)
  }

  // ---- the loops ------------------------------------------------------

  method DisplayedText(text: string, pastes: seq<Paste>) returns (out: string)
    requires Fit(pastes, |text|)
    ensures out == Shown(text, pastes)
  {
    out := [];
    var at: nat := 0;
    for i := 0 to |pastes|
      invariant at <= |text| && Ordered(pastes, i, at)
      invariant out + TextFrom(text, pastes, i, at) == Shown(text, pastes)
    {
      TextStep(out, text, pastes, i, at);
      out := out + text[at..pastes[i].start] + pastes[i].Label(i + 1);
      at := pastes[i].end;
    }
    out := out + text[at..];
  }

  lemma TextStep(out: string, text: string, pastes: seq<Paste>, i: nat, at: nat)
    requires i < |pastes| && at <= |text| && Fit(pastes, |text|) && Ordered(pastes, i, at)
    ensures out + TextFrom(text, pastes, i, at)
         == (out + text[at..pastes[i].start] + pastes[i].Label(i + 1)) + TextFrom(text, pastes, i + 1, pastes[i].end)
  {
  }

  method DisplayOffset(pastes: seq<Paste>, raw: nat) returns (offset: int)
    ensures offset == Display(pastes, raw)
  {
    var shown: int := 0;
    var at: nat := 0;
    for i := 0 to |pastes|
      invariant DisplayFrom(pastes, i, at, shown, raw) == Display(pastes, raw)
    {
      if raw <= pastes[i].start {
        return shown + raw - at;
      }
      shown := shown + (pastes[i].start - at) + |pastes[i].Label(i + 1)|;
      at := pastes[i].end;
    }
    return shown + Monus(raw, at);
  }

  method RawOffset(pastes: seq<Paste>, display: nat) returns (offset: nat)
    requires Ordered(pastes, 0, 0)
    ensures offset == Raw(pastes, display)
  {
    hide Paste.Label;
    hide Monus;
    var shown: nat := 0;
    var at: nat := 0;
    for i := 0 to |pastes|
      invariant Ordered(pastes, i, at)
      invariant RawFrom(pastes, i, at, shown, display) == Raw(pastes, display)
    {
      var head := pastes[i].start - at;
      if display <= shown + head {
        return at + Monus(display, shown);
      }
      shown := shown + head;
      var token := |pastes[i].Label(i + 1)|;
      if display < shown + token {
        return pastes[i].start;
      }
      shown := shown + token;
      at := pastes[i].end;
    }
    return at + Monus(display, shown);
  }
}

/** The projection is a monotone bijection between the stops of the buffer and of the display. */
module ProjectionLaws {
  import opened Wrappers
  import opened Projections

  ghost predicate StopFrom(pastes: seq<Paste>, i: nat, at: nat) {
    forall j | i <= j < |pastes| :: !pastes[j].Inside(at)
  }

  lemma {:induction false} RawOfDisplayFrom(pastes: seq<Paste>, i: nat, at: nat, shown: nat, raw: nat)
    requires i <= |pastes| && Ordered(pastes, i, at) && at <= raw && StopFrom(pastes, i, raw)
    ensures shown <= DisplayFrom(pastes, i, at, shown, raw)
    ensures RawFrom(pastes, i, at, shown, DisplayFrom(pastes, i, at, shown, raw)) == raw
    ensures !InToken(pastes, i, at, shown, DisplayFrom(pastes, i, at, shown, raw))
    decreases |pastes| - i
  {
    hide Paste.Label;
    if i < |pastes| {
      var next := shown + (pastes[i].start - at) + |pastes[i].Label(i + 1)|;
      if pastes[i].start < raw {
        assert !pastes[i].Inside(raw);
        RawOfDisplayFrom(pastes, i + 1, pastes[i].end, next, raw);
      } else {
        NotInLaterToken(pastes, i + 1, pastes[i].end, next, DisplayFrom(pastes, i, at, shown, raw));
      }
    }
  }

  lemma {:induction false} NotInLaterToken(pastes: seq<Paste>, i: nat, at: nat, shown: nat, display: nat)
    requires i <= |pastes| && Ordered(pastes, i, at) && display <= shown
    ensures !InToken(pastes, i, at, shown, display)
    decreases |pastes| - i
  {
    hide Paste.Label;
    if i < |pastes| {
      NotInLaterToken(pastes, i + 1, pastes[i].end, shown + (pastes[i].start - at) + |pastes[i].Label(i + 1)|, display);
    }
  }

  lemma {:induction false} DisplayOfRawFrom(pastes: seq<Paste>, i: nat, at: nat, shown: nat, display: nat)
    requires i <= |pastes| && Ordered(pastes, i, at) && shown <= display
    ensures at <= RawFrom(pastes, i, at, shown, display)
    ensures StopFrom(pastes, i, RawFrom(pastes, i, at, shown, display))
    ensures !InToken(pastes, i, at, shown, display) ==>
              DisplayFrom(pastes, i, at, shown, RawFrom(pastes, i, at, shown, display)) == display
    decreases |pastes| - i
  {
    hide Paste.Label;
    if i < |pastes| {
      var next := shown + (pastes[i].start - at) + |pastes[i].Label(i + 1)|;
      if next <= display {
        DisplayOfRawFrom(pastes, i + 1, pastes[i].end, next, display);
      }
    }
  }

  lemma {:induction false} DisplayAscendsFrom(pastes: seq<Paste>, i: nat, at: nat, shown: nat, a: nat, b: nat)
    requires i <= |pastes| && Ordered(pastes, i, at) && at <= a < b && StopFrom(pastes, i, a) && StopFrom(pastes, i, b)
    ensures DisplayFrom(pastes, i, at, shown, a) < DisplayFrom(pastes, i, at, shown, b)
    decreases |pastes| - i
  {
    hide Paste.Label;
    if i < |pastes| && pastes[i].start < b {
      var next := shown + (pastes[i].start - at) + |pastes[i].Label(i + 1)|;
      assert !pastes[i].Inside(a) && !pastes[i].Inside(b);
      RawOfDisplayFrom(pastes, i + 1, pastes[i].end, next, b);
      if pastes[i].start < a {
        DisplayAscendsFrom(pastes, i + 1, pastes[i].end, next, a, b);
      }
    }
  }

  /** From a buffer stop to the display and back. */
  lemma RawUndoesDisplay(pastes: seq<Paste>, raw: nat)
    requires Ordered(pastes, 0, 0) && Stop(pastes, raw)
    ensures 0 <= Display(pastes, raw) && !InToken(pastes, 0, 0, 0, Display(pastes, raw))
    ensures Raw(pastes, Display(pastes, raw)) == raw
  {
    RawOfDisplayFrom(pastes, 0, 0, 0, raw);
  }

  /** From a display offset outside token interiors to the buffer and back; every display offset
      leads to a buffer stop. */
  lemma DisplayUndoesRaw(pastes: seq<Paste>, display: nat)
    requires Ordered(pastes, 0, 0)
    ensures Stop(pastes, Raw(pastes, display))
    ensures Display(pastes, Raw(pastes, display)) == display <==> !InToken(pastes, 0, 0, 0, display)
  {
    DisplayOfRawFrom(pastes, 0, 0, 0, display);
    RawOfDisplayFrom(pastes, 0, 0, 0, Raw(pastes, display));
  }

  lemma DisplayAscends(pastes: seq<Paste>, a: nat, b: nat)
    requires Ordered(pastes, 0, 0) && Stop(pastes, a) && Stop(pastes, b)
    ensures a < b <==> Display(pastes, a) < Display(pastes, b)
  {
    if a < b {
      DisplayAscendsFrom(pastes, 0, 0, 0, a, b);
    } else if b < a {
      DisplayAscendsFrom(pastes, 0, 0, 0, b, a);
    }
  }

  // ---- the displayed text ---------------------------------------------

  lemma {:induction false} LengthFrom(text: string, pastes: seq<Paste>, i: nat, at: nat, shown: nat)
    requires i <= |pastes| && at <= |text| && Fit(pastes, |text|) && Ordered(pastes, i, at)
    ensures shown + |TextFrom(text, pastes, i, at)| == DisplayFrom(pastes, i, at, shown, |text|)
    decreases |pastes| - i
  {
    hide Paste.Label;
    if i < |pastes| {
      LengthFrom(text, pastes, i + 1, pastes[i].end, shown + (pastes[i].start - at) + |pastes[i].Label(i + 1)|);
    }
  }

  /** The displayed text continues with the text before a paste, its token, and the rest. */
  lemma TextAt(text: string, pastes: seq<Paste>, i: nat, at: nat, d: nat)
    requires i < |pastes| && at <= |text| && Fit(pastes, |text|) && Ordered(pastes, i, at)
    ensures var head := pastes[i].start - at; var token := |pastes[i].Label(i + 1)|;
            var rest := TextFrom(text, pastes, i + 1, pastes[i].end);
            && |TextFrom(text, pastes, i, at)| == head + token + |rest|
            && (d < head ==> TextFrom(text, pastes, i, at)[d] == text[at + d])
            && (d < |rest| ==> TextFrom(text, pastes, i, at)[head + token + d] == rest[d])
  {
    hide Paste.Label;
    var before, chip := text[at..pastes[i].start], pastes[i].Label(i + 1);
    var rest := TextFrom(text, pastes, i + 1, pastes[i].end);
    assert TextFrom(text, pastes, i, at) == before + chip + rest;
    if d < |rest| {
      assert (before + chip + rest)[|before| + |chip| + d] == rest[d];
    }
  }

  /** The displayed character at `raw`, from the `i`-th paste on. */
  ghost predicate ShowsAt(text: string, pastes: seq<Paste>, i: nat, at: nat, shown: nat, raw: nat)
    requires i <= |pastes| && at <= |text| && Fit(pastes, |text|) && Ordered(pastes, i, at) && raw < |text|
  {
    var d := DisplayFrom(pastes, i, at, shown, raw) - shown;
    0 <= d < |TextFrom(text, pastes, i, at)| && TextFrom(text, pastes, i, at)[d] == text[raw]
  }

  lemma ShownBefore(text: string, pastes: seq<Paste>, i: nat, at: nat, shown: nat, raw: nat)
    requires i < |pastes| && Fit(pastes, |text|) && Ordered(pastes, i, at) && at <= raw < pastes[i].start
    ensures ShowsAt(text, pastes, i, at, shown, raw)
  {
    hide Paste.Label;
    TextAt(text, pastes, i, at, raw - at);
  }

  lemma ShownAfter(text: string, pastes: seq<Paste>, i: nat, at: nat, shown: nat, raw: nat)
    requires i < |pastes| && at <= |text| && Fit(pastes, |text|) && Ordered(pastes, i, at)
    requires pastes[i].start < raw < |text|
    requires ShowsAt(text, pastes, i + 1, pastes[i].end, shown + (pastes[i].start - at) + |pastes[i].Label(i + 1)|, raw)
    ensures ShowsAt(text, pastes, i, at, shown, raw)
  {
    hide Paste.Label;
    hide TextFrom;
    var next := shown + (pastes[i].start - at) + |pastes[i].Label(i + 1)|;
    TextAt(text, pastes, i, at, DisplayFrom(pastes, i + 1, pastes[i].end, next, raw) - next);
  }

  lemma {:induction false} ShownFrom(text: string, pastes: seq<Paste>, i: nat, at: nat, shown: nat, raw: nat)
    requires i <= |pastes| && Fit(pastes, |text|) && Ordered(pastes, i, at) && at <= raw < |text|
    requires StopFrom(pastes, i, raw)
    requires forall j | i <= j < |pastes| :: raw != pastes[j].start
    ensures ShowsAt(text, pastes, i, at, shown, raw)
    decreases |pastes| - i
  {
    hide Paste.Label;
    if i < |pastes| {
      assert !pastes[i].Inside(raw) && pastes[i].start != raw;
      if pastes[i].start < raw {
        var next := shown + (pastes[i].start - at) + |pastes[i].Label(i + 1)|;
        assert pastes[i].end <= raw && StopFrom(pastes, i + 1, raw);
        ShownFrom(text, pastes, i + 1, pastes[i].end, next, raw);
        ShownAfter(text, pastes, i, at, shown, raw);
      } else {
        ShownBefore(text, pastes, i, at, shown, raw);
      }
    } else {
      ShownLast(text, pastes, at, shown, raw);
    }
  }

  lemma ShownLast(text: string, pastes: seq<Paste>, at: nat, shown: nat, raw: nat)
    requires Fit(pastes, |text|) && Ordered(pastes, |pastes|, at) && at <= raw < |text|
    ensures ShowsAt(text, pastes, |pastes|, at, shown, raw)
  {
  }

  /** Outside payloads the display shows the buffer's own character; the ends correspond. */
  lemma DisplayShowsText(text: string, pastes: seq<Paste>, raw: nat)
    requires Fit(pastes, |text|) && raw <= |text| && Stop(pastes, raw)
    ensures 0 <= Display(pastes, raw) <= |Shown(text, pastes)|
    ensures Display(pastes, raw) == |Shown(text, pastes)| <==> raw == |text|
    ensures raw < |text| && (forall j | 0 <= j < |pastes| :: raw != pastes[j].start) ==>
              Shown(text, pastes)[Display(pastes, raw)] == text[raw]
  {
    LengthFrom(text, pastes, 0, 0, 0);
    DisplayAscends(pastes, raw, |text|);
    RawUndoesDisplay(pastes, raw);
    if raw < |text| && forall j | 0 <= j < |pastes| :: raw != pastes[j].start {
      ShownFrom(text, pastes, 0, 0, 0, raw);
    }
  }

  /** A display offset inside the displayed text leads into the buffer. */
  lemma RawIsInBounds(text: string, pastes: seq<Paste>, display: nat)
    requires Fit(pastes, |text|) && display <= |Shown(text, pastes)|
    ensures Raw(pastes, display) <= |text|
  {
    var raw := Raw(pastes, display);
    if |text| < raw {
      RawBeyond(pastes, 0, 0, 0, display, |text|);
      DisplayShowsText(text, pastes, |text|);
    }
  }

  lemma {:induction false} RawBeyond(pastes: seq<Paste>, i: nat, at: nat, shown: nat, display: nat, length: nat)
    requires i <= |pastes| && Ordered(pastes, i, at) && at <= length
    requires forall j | i <= j < |pastes| :: pastes[j].end <= length
    requires shown <= display && length < RawFrom(pastes, i, at, shown, display)
    ensures DisplayFrom(pastes, i, at, shown, length) < display
    decreases |pastes| - i
  {
    hide Paste.Label;
    if i < |pastes| {
      RawBeyond(pastes, i + 1, pastes[i].end, shown + (pastes[i].start - at) + |pastes[i].Label(i + 1)|, display,
                length);
    }
  }

  // ---- offsets inside a payload ---------------------------------------

  lemma {:induction false} InteriorFrom(pastes: seq<Paste>, i: nat, at: nat, shown: int, k: nat, raw: nat)
    requires i <= k < |pastes| && Ordered(pastes, i, at) && pastes[k].Inside(raw)
    ensures DisplayFrom(pastes, i, at, shown, raw)
         == DisplayFrom(pastes, i, at, shown, pastes[k].end) + (if k + 1 == |pastes| then 0 else raw - pastes[k].end)
    decreases |pastes| - i
  {
    hide Paste.Label;
    var next := shown + (pastes[i].start - at) + |pastes[i].Label(i + 1)|;
    if i < k {
      InteriorFrom(pastes, i + 1, pastes[i].end, next, k, raw);
    }
  }

  /** An offset strictly inside a payload is shown at the end of its token when the paste is the last
      one, and before that end by its distance to the payload's end otherwise. */
  lemma InteriorDisplay(pastes: seq<Paste>, k: nat, raw: nat)
    requires Ordered(pastes, 0, 0) && k < |pastes| && pastes[k].Inside(raw)
    ensures Display(pastes, raw)
            == Display(pastes, pastes[k].end) + (if k + 1 == |pastes| then 0 else raw - pastes[k].end)
  {
    InteriorFrom(pastes, 0, 0, 0, k, raw);
  }

  /** A token is as wide in the display as its label. */
  lemma {:induction false} TokenFrom(pastes: seq<Paste>, i: nat, at: nat, shown: int, k: nat)
    requires i <= k < |pastes| && Ordered(pastes, i, at)
    ensures DisplayFrom(pastes, i, at, shown, pastes[k].end)
         == DisplayFrom(pastes, i, at, shown, pastes[k].start) + |pastes[k].Label(k + 1)|
    decreases |pastes| - i
  {
    hide Paste.Label;
    if i < k {
      TokenFrom(pastes, i + 1, pastes[i].end, shown + (pastes[i].start - at) + |pastes[i].Label(i + 1)|, k);
    }
  }

  /** So an offset inside a payload snaps to the start of its token exactly when another paste follows
      and as much of the payload is left as its label is long. */
  lemma InteriorSnapsIff(pastes: seq<Paste>, k: nat, raw: nat)
    requires Ordered(pastes, 0, 0) && k < |pastes| && pastes[k].Inside(raw)
    ensures Display(pastes, raw) == Display(pastes, pastes[k].start) <==>
              k + 1 < |pastes| && pastes[k].end - raw == |pastes[k].Label(k + 1)|
  {
    InteriorDisplay(pastes, k, raw);
    TokenFrom(pastes, 0, 0, 0, k);
  }

  /** And the unsigned subtraction stays in range exactly when no paste follows, or no more of the
      payload is left than is displayed up to the end of its token. */
  lemma InteriorInRangeIff(pastes: seq<Paste>, k: nat, raw: nat)
    requires Ordered(pastes, 0, 0) && k < |pastes| && pastes[k].Inside(raw)
    ensures Display(pastes, raw) >= 0 <==>
              k + 1 == |pastes|
              || pastes[k].end - raw <= Display(pastes, pastes[k].start) + |pastes[k].Label(k + 1)|
  {
    InteriorDisplay(pastes, k, raw);
    TokenFrom(pastes, 0, 0, 0, k);
    ChipEndIsStop(pastes, k);
    RawUndoesDisplay(pastes, pastes[k].end);
  }

  lemma ChipEndIsStop(pastes: seq<Paste>, k: nat)
    requires Ordered(pastes, 0, 0) && k < |pastes|
    ensures Stop(pastes, pastes[k].end)
  {
  }

  /** For instance, in a payload that is the last paste no offset snaps, and before another paste one
      can underflow. */
  lemma InteriorDoesNotSnap()
    ensures var one := Paste(0, 2000, 1, 2000); var two := [one, Paste(2000, 4000, 1, 2000)];
            && one.Inside(5) && Ordered([one], 0, 0) && Ordered(two, 0, 0)
            && Display([one], 5) != Display([one], one.start)
            && Display(two, 5) < 0
  {
    var one := Paste(0, 2000, 1, 2000);
    var two := [one, Paste(2000, 4000, 1, 2000)];
    var token := |one.Label(1)|;
    assert |Decimal(2000)| == 1 + |Decimal(200)| == 2 + |Decimal(20)| == 4;
    assert token < 100;
    assert two[0] == one;
    assert Display([one], 5) == DisplayFrom([one], 1, 2000, token, 5) == token;
    assert Display(two, 5) == DisplayFrom(two, 1, 2000, token, 5) == token + 5 - 2000;
  }
}

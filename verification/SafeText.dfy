/** Text made safe to draw, and cut to a width. */
module SafeText {
  import opened Wrappers
  import opened Wraps

  const ESCAPE: char := '\U{1b}'
  const BELL: char := '\U{7}'
  const CSI: char := '\U{9b}'
  const BOM: char := '\U{feff}'

  predicate IsControl(c: char) {
    c as int < 0x20 || 0x7f <= c as int <= 0x9f
  }

  /** Characters that may not reach the terminal as they are. */
  predicate NeedsEscaping(c: char) {
    && c != '\n'
    && (|| IsControl(c) || c == BOM
        || c as int == 0x200e || c as int == 0x200f
        || 0x202a <= c as int <= 0x202e || 0x2066 <= c as int <= 0x2069)
  }

  predicate Safe(text: string) {
    forall c | c in text :: !NeedsEscaping(c)
  }

  // ---- what is left after a skipped sequence --------------------------

  function SkipCsi(text: string): (rest: string)
    ensures |rest| <= |text| && rest == text[|text| - |rest|..]
  {
    if text == [] then [] else if 0x40 <= text[0] as int <= 0x7e then text[1..] else SkipCsi(text[1..])
  }

  /** Past a control string, which a bell, an escape or an escape and a backslash ends. */
  function SkipString(text: string): (rest: string)
    ensures |rest| <= |text| && rest == text[|text| - |rest|..]
  {
    if text == [] then []
    else if text[0] == BELL then text[1..]
    else if text[0] == ESCAPE then if |text| > 1 && text[1] == '\\' then text[2..] else text[1..]
    else SkipString(text[1..])
  }

  predicate OpensString(c: char) {
    c == ']' || c == 'P' || c == 'X' || c == '^' || c == '_'
  }

  function SkipEscape(text: string): (rest: string)
    ensures |rest| <= |text| && rest == text[|text| - |rest|..]
  {
    if text == [] then []
    else if text[0] == '[' then SkipCsi(text[1..])
    else if OpensString(text[0]) then SkipString(text[1..])
    else text[1..]
  }

  // ---- pictures --------------------------------------------------------

  function HexDigit(n: nat): char
    requires n < 16
  {
    "0123456789abcdef"[n]
  }

  function Hex(n: nat): string {
    if n < 16 then [HexDigit(n)] else Hex(n / 16) + [HexDigit(n % 16)]
  }

  /** A visible stand-in for a character that needs escaping. */
  function Picture(c: char): string {
    if c as int < 0x20 then [(0x2400 + c as int) as char]
    else if c as int == 0x7f then ['\U{2421}']
    else "\\u{" + Hex(c as int) + "}"
  }

  // ---- sanitizing ------------------------------------------------------

  /** What the first character of a text is drawn as. */
  function Drawn(c: char, rest: string): string {
    if c == '\n' then "\n"
    else if c == '\t' then "    "
    else if c == '\r' then if rest != [] && rest[0] == '\n' then "" else Picture(c)
    else if c == ESCAPE || c == BOM || c == CSI then ""
    else if NeedsEscaping(c) then Picture(c)
    else [c]
  }

  /** Where drawing goes on after it. */
  function Left(c: char, rest: string): (left: string)
    ensures |left| <= |rest|
  {
    if c == ESCAPE then SkipEscape(rest) else if c == CSI then SkipCsi(rest) else rest
  }

  function Escaped(text: string): string
    decreases |text|
  {
    if text == [] then [] else Drawn(text[0], text[1..]) + Escaped(Left(text[0], text[1..]))
  }

  lemma EscapedNext(out: string, text: string)
    requires text != []
    ensures out + Escaped(text) == (out + Drawn(text[0], text[1..])) + Escaped(Left(text[0], text[1..]))
  {
    hide Drawn;
    hide Left;
  }

  /** One character, or one sequence that starts with it. */
  method Draw(c: char, rest: string) returns (drawn: string, left: string)
    ensures drawn == Drawn(c, rest) && left == Left(c, rest)
  {
    drawn, left := "", rest;
    if c == '\n' {
      drawn := "\n";
    } else if c == '\t' {
      drawn := "    ";
    } else if c == '\r' {
      if rest == [] || rest[0] != '\n' {
        drawn := Picture(c);
      }
    } else if c == ESCAPE {
      left := SkipEscape(rest);
    } else if c == BOM {
    } else if c == CSI {
      left := SkipCsi(rest);
    } else if NeedsEscaping(c) {
      drawn := Picture(c);
    } else {
      drawn := [c];
    }
  }

  method Sanitize(text: string) returns (out: string)
    ensures out == Escaped(text)
    ensures Safe(out) && (Safe(text) ==> out == text)
  {
    OutputIsSafe(text);
    if forall i | 0 <= i < |text| :: !NeedsEscaping(text[i]) {
      SafeStays(text);
      return text;
    }
    hide Drawn;
    hide Left;
    out := "";
    var rest := text;
    while rest != []
      invariant out + Escaped(rest) == Escaped(text)
      decreases |rest|
    {
      EscapedNext(out, rest);
      var drawn, left := Draw(rest[0], rest[1..]);
      out := out + drawn;
      rest := left;
    }
    assert out + [] == out;
  }

  lemma {:induction false} HexIsSafe(n: nat)
    ensures Safe(Hex(n))
  {
    if n >= 16 {
      HexIsSafe(n / 16);
    }
  }

  lemma PictureIsSafe(c: char)
    requires NeedsEscaping(c)
    ensures Safe(Picture(c))
  {
    HexIsSafe(c as int);
  }

  lemma SafeConcat(a: string, b: string)
    requires Safe(a) && Safe(b)
    ensures Safe(a + b)
  {
  }

  lemma DrawnIsSafe(c: char, rest: string)
    ensures Safe(Drawn(c, rest))
  {
    if NeedsEscaping(c) {
      PictureIsSafe(c);
    }
  }

  /** Whatever goes in, nothing that could move the cursor or reorder text comes out. */
  lemma {:induction false} OutputIsSafe(text: string)
    ensures Safe(Escaped(text))
    decreases |text|
  {
    if text != [] {
      hide Drawn;
      hide Left;
      hide Safe;
      DrawnIsSafe(text[0], text[1..]);
      OutputIsSafe(Left(text[0], text[1..]));
      SafeConcat(Drawn(text[0], text[1..]), Escaped(Left(text[0], text[1..])));
    }
  }

  /** Safe text is left as it is. */
  lemma {:induction false} SafeStays(text: string)
    requires Safe(text)
    ensures Escaped(text) == text
  {
    if text != [] {
      assert text[0] in text;
      assert forall c | c in text[1..] :: c in text;
      SafeStays(text[1..]);
      assert text == [text[0]] + text[1..];
    }
  }

  /** Sanitizing twice is sanitizing once. */
  lemma SanitizingIsIdempotent(text: string)
    ensures Escaped(Escaped(text)) == Escaped(text)
  {
    OutputIsSafe(text);
    SafeStays(Escaped(text));
  }

  // ---- cutting to a width ----------------------------------------------

  const ELLIPSIS: Grapheme := Grapheme("\U{2026}", 1, false)
  const SPACE: Grapheme := Grapheme(" ", 1, true)

  /** `out` is the longest start of `line` that fits beside an ellipsis, and the ellipsis. */
  ghost predicate Cut(line: Line, width: nat, out: Line) {
    exists k: nat :: k < |line| && out == line[..k] + [ELLIPSIS] && Cells(line[..k]) < width <= Cells(line[..k + 1])
  }

  /** `out` is all of `line` if that fits, and else the longest start that fits beside an ellipsis. */
  ghost predicate Truncated(line: Line, width: nat, out: Line) {
    if width == 0 then out == [] else if Cells(line) <= width then out == line else Cut(line, width, out)
  }

  /** Truncates to at most `width` cells, with an ellipsis when cut. */
  method Truncate(line: Line, width: nat) returns (out: Line)
    ensures Cells(out) <= width
    ensures Truncated(line, width, out)
  {
    if width == 0 {
      return [];
    }
    if Cells(line) <= width {
      return line;
    }
    var used := 0;
    var k := 0;
    while k < |line|
      invariant 0 <= k <= |line| && used == Cells(line[..k]) < width
    {
      assert line[..k + 1][..k] == line[..k];
      if used + line[k].cells > width - 1 {
        break;
      }
      used := used + line[k].cells;
      k := k + 1;
    }
    assert line[..|line|] == line;
    out := line[..k] + [ELLIPSIS];
    assert out[..|out| - 1] == line[..k];
  }

  function Spaces(n: nat): (line: Line)
    ensures Cells(line) == n && |line| == n
  {
    if n == 0 then [] else Spaces(n - 1) + [SPACE]
  }

  /** Clips to `width` cells: a suffix that leaves room for more than two cells goes to the right end
      with at least one cell between, and the text is truncated to the rest; else there is no suffix. */
  method Clip(line: Line, suffix: Line, width: nat) returns (out: Line)
    ensures Cells(out) <= width
    ensures if suffix == [] || Cells(suffix) + 2 >= width then Truncated(line, width, out)
            else Cells(out) == width
                 && exists head, padding ::
                      && out == head + Spaces(padding) + suffix && padding > 0
                      && Truncated(line, width - Cells(suffix) - 1, head)
  {
    var suffixWidth := Cells(suffix);
    if suffix == [] || suffixWidth + 2 >= width {
      out := Truncate(line, width);
      return;
    }
    var head := Truncate(line, width - suffixWidth - 1);
    var padding := width - Cells(head) - suffixWidth;
    CellsConcat(head, Spaces(padding));
    CellsConcat(head + Spaces(padding), suffix);
    out := head + Spaces(padding) + suffix;
  }
}

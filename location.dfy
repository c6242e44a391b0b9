/** Text locations (src/components/text/Location.cpp): a character offset
    together with the 1-based line and column derived from the text. */
module Locations {
  import Decimal

  datatype Location = Location(positionIndex: int, line: int, column: int)

  /** The default constructor: every field is -1. */
  const Unknown := Location(-1, -1, -1)

  /** The characters the source scans: `text[0..positionIndex]` inclusive.
      When `positionIndex == |text|` the scan in the source reads the string's
      terminating NUL, which is not a newline; the model stops at the end. */
  function Scanned(text: string, positionIndex: nat): (s: string)
    requires positionIndex <= |text|
    ensures |s| == if positionIndex < |text| then positionIndex + 1 else |text|
  {
    if positionIndex < |text| then text[..positionIndex + 1] else text
  }

  function CountNewlines(s: string): (n: nat)
    ensures n <= |s|
  {
    if s == [] then 0 else CountNewlines(s[..|s| - 1]) + (if s[|s| - 1] == '\n' then 1 else 0)
  }

  /** One step of the column `accumulate`: the pair is
      (index of the last newline seen, index of the current character). */
  function ColumnStep(acc: (int, int), c: char): (int, int)
  {
    if c == '\n' then (acc.1, acc.1 + 1) else (acc.0, acc.1 + 1)
  }

  /** `std::accumulate` is a left fold: the last character is folded last. */
  function ColumnScan(acc: (int, int), s: string): (int, int)
  {
    if s == [] then acc else ColumnStep(ColumnScan(acc, s[..|s| - 1]), s[|s| - 1])
  }

  /** Index of the last newline of `s`, if any (an independent reference). */
  function LastNewline(s: string): Option
  {
    if s == [] then NoNewline
    else if s[|s| - 1] == '\n' then NewlineAt(|s| - 1)
    else LastNewline(s[..|s| - 1])
  }

  datatype Option = NoNewline | NewlineAt(index: nat)

  /** The third constructor: line and column of `positionIndex` in `text`. */
  function FromText(positionIndex: nat, text: string): (loc: Location)
    requires positionIndex <= |text|
  {
    var scanned := Scanned(text, positionIndex);
    var lastNewLineIndex := ColumnScan((0, 0), scanned).0;
    Location(positionIndex, 1 + CountNewlines(scanned), positionIndex - lastNewLineIndex + 1)
  }

  /** `toString`. */
  function ToString(loc: Location): string
  {
    "line " + Decimal.IntToString(loc.line) + ", column " + Decimal.IntToString(loc.column)
  }

  lemma {:induction false} ColumnScanFindsLastNewline(s: string, first: int, start: int)
    ensures ColumnScan((first, start), s) ==
      (match LastNewline(s) case NoNewline => first case NewlineAt(k) => start + k, start + |s|)
    decreases |s|
  {
    if s != [] {
      ColumnScanFindsLastNewline(s[..|s| - 1], first, start);
    }
  }

  lemma {:induction false} LastNewlineIsLast(s: string)
    ensures LastNewline(s).NewlineAt? ==>
      LastNewline(s).index < |s| && s[LastNewline(s).index] == '\n' &&
      forall j :: LastNewline(s).index < j < |s| ==> s[j] != '\n'
    ensures LastNewline(s).NoNewline? <==> CountNewlines(s) == 0
    decreases |s|
  {
    if s != [] {
      var t := s[..|s| - 1];
      LastNewlineIsLast(t);
      assert forall j :: 0 <= j < |t| ==> t[j] == s[j];
    }
  }

  /** Line is one more than the number of newlines up to and including the
      character at `positionIndex`; column is measured from the last of those
      newlines, or from offset 0 when there is none. */
  lemma FromTextMeaning(positionIndex: nat, text: string)
    requires positionIndex <= |text|
    ensures var loc := FromText(positionIndex, text);
      var scanned := Scanned(text, positionIndex);
      loc.positionIndex == positionIndex &&
      loc.line == 1 + CountNewlines(scanned) &&
      loc.column == positionIndex + 1 - (match LastNewline(scanned) case NoNewline => 0 case NewlineAt(k) => k)
  {
    ColumnScanFindsLastNewline(Scanned(text, positionIndex), 0, 0);
  }

  /** Without a newline in the scanned prefix, the location is on line 1 at
      column `positionIndex + 1`. */
  lemma FromTextFirstLine(positionIndex: nat, text: string)
    requires positionIndex < |text|
    requires forall j :: 0 <= j <= positionIndex ==> text[j] != '\n'
    ensures FromText(positionIndex, text) == Location(positionIndex, 1, positionIndex + 1)
  {
    var scanned := Scanned(text, positionIndex);
    LastNewlineIsLast(scanned);
    FromTextMeaning(positionIndex, text);
  }

  lemma NumeralHasNoComma(i: int, k: int)
    requires 0 <= k < |Decimal.IntToString(i)|
    ensures Decimal.IntToString(i)[k] != ','
  {
    Decimal.NatToStringShape(if i < 0 then -i else i);
    if i < 0 && k > 0 {
      assert Decimal.IntToString(i)[k] == Decimal.NatToString(-i)[k - 1];
    }
  }

  /** The separator's first character follows the part. */
  lemma SeparatorAfterPart(x: string, sep: string, u: string)
    requires |sep| > 0
    ensures (x + sep + u)[|x|] == sep[0]
  {
  }

  /** Two texts, each a part free of the separator's first character, then
      the separator, then a rest, are equal only part for part. */
  lemma SplitAtSeparator(x: string, u: string, y: string, v: string, sep: string)
    requires |sep| > 0 && x + sep + u == y + sep + v
    requires forall k :: 0 <= k < |x| ==> x[k] != sep[0]
    requires forall k :: 0 <= k < |y| ==> y[k] != sep[0]
    ensures x == y && u == v
  {
    var r := x + sep + u;
    if |x| < |y| {
      SeparatorAfterPart(x, sep, u);
      assert false;
    } else if |y| < |x| {
      SeparatorAfterPart(y, sep, v);
      assert false;
    }
    assert x == r[..|x|];
    assert y == (y + sep + v)[..|y|];
    assert u == r[|x| + |sep|..];
    assert v == (y + sep + v)[|y| + |sep|..];
  }

  /** `toString` loses no information about line and column. */
  lemma ToStringInjective(a: Location, b: Location)
    requires ToString(a) == ToString(b)
    ensures a.line == b.line && a.column == b.column
  {
    var la, lb := Decimal.IntToString(a.line), Decimal.IntToString(b.line);
    var ca, cb := Decimal.IntToString(a.column), Decimal.IntToString(b.column);
    var sep := ", column ";
    assert ToString(a) == "line " + (la + sep + ca);
    assert ToString(b) == "line " + (lb + sep + cb);
    assert la + sep + ca == ToString(a)[5..] == lb + sep + cb;
    forall k | 0 <= k < |la|
      ensures la[k] != sep[0]
    {
      NumeralHasNoComma(a.line, k);
    }
    forall k | 0 <= k < |lb|
      ensures lb[k] != sep[0]
    {
      NumeralHasNoComma(b.line, k);
    }
    SplitAtSeparator(la, ca, lb, cb, sep);
    Decimal.IntToStringInjective(a.line, b.line);
    Decimal.IntToStringInjective(a.column, b.column);
  }

  // The column rule as written counts the character at `positionIndex` and
  // measures from the newline itself, so the first character of every line
  // after the first gets column 2, while the first character of line 1 gets
  // column 1.

  /** As written: in "a\nb" the 'b' that starts line 2 is reported at column 2. */
  lemma FromTextSecondLineStartsAtColumnTwo()
    ensures FromText(2, "a\nb") == Location(2, 2, 2)
    ensures FromText(0, "a\nb") == Location(0, 1, 1)
  {
    FromTextMeaning(2, "a\nb");
    FromTextMeaning(0, "a\nb");
    assert Scanned("a\nb", 2) == "a\nb";
    assert "a\nb"[..2] == "a\n";
    assert "a\nb"[..1] == "a";
    assert Scanned("a\nb", 0) == "a";
  }

  /** The evidently intended rule: line and column of `positionIndex` are
      determined by the characters BEFORE it, and a line's first character
      has column 1. */
  function FromTextIntended(positionIndex: nat, text: string): (loc: Location)
    requires positionIndex <= |text|
  {
    var before := text[..positionIndex];
    Location(positionIndex, 1 + CountNewlines(before),
      positionIndex + 1 - (match LastNewline(before) case NoNewline => 0 case NewlineAt(k) => k + 1))
  }

  /** The intended rule starts at line 1, column 1 and moves one column to the
      right per character, except that a newline moves to column 1 of the next
      line. */
  lemma FromTextIntendedSteps(positionIndex: nat, text: string)
    requires positionIndex < |text|
    ensures FromTextIntended(0, text) == Location(0, 1, 1)
    ensures var here, next := FromTextIntended(positionIndex, text), FromTextIntended(positionIndex + 1, text);
      if text[positionIndex] == '\n' then next.line == here.line + 1 && next.column == 1
      else next.line == here.line && next.column == here.column + 1
  {
    assert text[..0] == [];
    var before, after := text[..positionIndex], text[..positionIndex + 1];
    assert after[..|after| - 1] == before;
    assert after[|after| - 1] == text[positionIndex];
  }

  /** On "a\nb" the intended rule puts 'b' at line 2, column 1. */
  lemma FromTextIntendedExample()
    ensures FromTextIntended(2, "a\nb") == Location(2, 2, 1)
  {
    FromTextIntendedSteps(0, "a\nb");
    FromTextIntendedSteps(1, "a\nb");
  }
}

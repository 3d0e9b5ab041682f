/**
 * The few Python string operations the program relies on, written out on
 * `seq<char>`: `str.isspace`, `strip`/`rstrip`, `lower`, `split(sep)`,
 * `"sep".join`, `splitlines`, `str(int)` and `int(text, 10)`.
 */
module Text {
  import opened Wrappers

  /** The characters for which Python's `str.isspace()` holds (also the `\s` class of `re` on `str`). */
  predicate IsSpace(c: char) {
    c == ' ' || ('\t' <= c <= '\r') || ('\U{1C}' <= c <= '\U{1F}')
    || c == '\U{85}' || c == '\U{A0}' || c == '\U{1680}'
    || ('\U{2000}' <= c <= '\U{200A}') || c == '\U{2028}' || c == '\U{2029}'
    || c == '\U{202F}' || c == '\U{205F}' || c == '\U{3000}'
  }

  /** The line boundaries `str.splitlines()` splits at (`\r\n` counts as one). */
  predicate IsLineBreak(c: char) {
    ('\n' <= c <= '\r') || ('\U{1C}' <= c <= '\U{1E}')
    || c == '\U{85}' || c == '\U{2028}' || c == '\U{2029}'
  }

  predicate IsDigit(c: char) {
    '0' <= c <= '9'
  }

  predicate AllDigits(s: string) {
    forall i :: 0 <= i < |s| ==> IsDigit(s[i])
  }

  /** Python's `s.rstrip()`. */
  function RStrip(s: string): (r: string)
    ensures |r| <= |s| && r == s[..|r|]
    ensures r == [] || !IsSpace(r[|r| - 1])
    ensures forall i :: |r| <= i < |s| ==> IsSpace(s[i])
  {
    if |s| > 0 && IsSpace(s[|s| - 1]) then RStrip(s[..|s| - 1]) else s
  }

  /** Python's `s.lstrip()`. */
  function LStrip(s: string): (r: string)
    ensures |r| <= |s| && r == s[|s| - |r|..]
    ensures r == [] || !IsSpace(r[0])
    ensures forall i :: 0 <= i < |s| - |r| ==> IsSpace(s[i])
  {
    if |s| > 0 && IsSpace(s[0]) then LStrip(s[1..]) else s
  }

  /** Python's `s.strip()`. */
  function Strip(s: string): (r: string)
    ensures r == [] || (!IsSpace(r[0]) && !IsSpace(r[|r| - 1]))
    ensures r == [] <==> forall i :: 0 <= i < |s| ==> IsSpace(s[i])
  {
    StripEnds(s);
    LStrip(RStrip(s))
  }

  /** Stripping the right end and then the left leaves a non-space at both ends, or nothing when `s` is all spaces. */
  lemma StripEnds(s: string)
    ensures var r := LStrip(RStrip(s));
            r == [] || (!IsSpace(r[0]) && !IsSpace(r[|r| - 1]))
    ensures LStrip(RStrip(s)) == [] <==> forall i :: 0 <= i < |s| ==> IsSpace(s[i])
  {
    var t := RStrip(s);
    var r := LStrip(t);
    if r != [] {
      assert r[|r| - 1] == t[|t| - 1];
    }
  }

  /**
   * `strip` cuts only spaces: what it leaves is the slice of `s` that starts after the leading
   * spaces, and everything after that slice is space.
   */
  lemma StripSlice(s: string)
    ensures var r := Strip(s);
            var a := LeadingSpaces(s);
            && a + |r| <= |s| && r == s[a..a + |r|]
            && forall i :: a + |r| <= i < |s| ==> IsSpace(s[i])
  {
    var t := RStrip(s);
    var r := LStrip(t);
    if r != [] {
      StripSliceFound(s, t, r);
    } else {
      LeadingSpacesUnique(s, |s|);
    }
  }

  /** When something is left, it starts at the first non-space and ends where `rstrip` cut. */
  lemma StripSliceFound(s: string, t: string, r: string)
    requires t == RStrip(s) && r == LStrip(t) && r != []
    ensures LeadingSpaces(s) == |t| - |r|
    ensures r == s[|t| - |r|..|t|]
  {
    var k := |t| - |r|;
    assert t == s[..|t|];
    assert r == t[k..];
    forall i | 0 <= i < k ensures IsSpace(s[i]) {
      assert s[i] == t[i];
    }
    assert s[k] == r[0];
    LeadingSpacesUnique(s, k);
  }

  /** The number of spaces `s` starts with. */
  function LeadingSpaces(s: string): (n: nat)
    ensures n <= |s|
    ensures forall i :: 0 <= i < n ==> IsSpace(s[i])
    ensures n < |s| ==> !IsSpace(s[n])
  {
    if |s| > 0 && IsSpace(s[0]) then 1 + LeadingSpaces(s[1..]) else 0
  }

  /** The leading spaces end at the first non-space, and nowhere else. */
  lemma LeadingSpacesUnique(s: string, k: nat)
    requires k <= |s|
    requires forall i :: 0 <= i < k ==> IsSpace(s[i])
    requires k < |s| ==> !IsSpace(s[k])
    ensures LeadingSpaces(s) == k
  {
  }

  function LowerChar(c: char): char {
    if 'A' <= c <= 'Z' then (c as int + 32) as char else c
  }

  /** Python's `s.lower()` on ASCII letters. */
  function Lower(s: string): (r: string)
    ensures |r| == |s|
    ensures forall i :: 0 <= i < |s| ==> r[i] == LowerChar(s[i])
  {
    seq(|s|, i requires 0 <= i < |s| => LowerChar(s[i]))
  }

  /** Lowercasing twice is lowercasing once. */
  lemma LowerIdempotent(s: string)
    ensures Lower(Lower(s)) == Lower(s)
  {
  }

  /** Python's `sep.join(parts)`. */
  function Join(parts: seq<string>, sep: string): string
  {
    if |parts| == 0 then ""
    else if |parts| == 1 then parts[0]
    else parts[0] + sep + Join(parts[1..], sep)
  }

  /** Python's `s.split(sep)` for a one-character separator: joining the pieces back gives `s`. */
  function SplitOn(s: string, sep: char): (parts: seq<string>)
    ensures |parts| >= 1
    ensures forall k :: 0 <= k < |parts| ==> sep !in parts[k]
    ensures Join(parts, [sep]) == s
  {
    if s == [] then [""]
    else
      var rest := SplitOn(s[1..], sep);
      if s[0] == sep then
        assert s == [sep] + s[1..];
        [""] + rest
      else
        var parts := [[s[0]] + rest[0]] + rest[1..];
        assert parts[1..] == rest[1..];
        assert s == [s[0]] + s[1..];
        parts
  }

  /** The index of the first line boundary at or after `i`, or `|s|`. */
  function LineEnd(s: string, i: nat): (j: nat)
    requires i <= |s|
    ensures i <= j <= |s|
    ensures j < |s| ==> IsLineBreak(s[j])
    ensures forall k :: i <= k < j ==> !IsLineBreak(s[k])
    decreases |s| - i
  {
    if i == |s| || IsLineBreak(s[i]) then i else LineEnd(s, i + 1)
  }

  /** Python's `s.splitlines()`: no line holds a boundary, and a final boundary opens no empty line. */
  function SplitLines(s: string): (lines: seq<string>)
    ensures forall k, i :: 0 <= k < |lines| && 0 <= i < |lines[k]| ==> !IsLineBreak(lines[k][i])
    ensures s == [] <==> lines == []
    decreases |s|
  {
    if s == [] then []
    else
      var i := LineEnd(s, 0);
      if i == |s| then [s]
      else
        var next := if s[i] == '\r' && i + 1 < |s| && s[i + 1] == '\n' then i + 2 else i + 1;
        [s[..i]] + SplitLines(s[next..])
  }

  /** Every line boundary in `s` is a `\n`. */
  predicate NewlineBreaksOnly(s: string) {
    forall i :: 0 <= i < |s| && IsLineBreak(s[i]) ==> s[i] == '\n'
  }

  /** The `\n` that ends `s`, if any. */
  function FinalNewline(s: string): string {
    if s != [] && s[|s| - 1] == '\n' then "\n" else ""
  }

  /**
   * When every boundary in `s` is a `\n`, joining the lines with `\n` gives `s` back, up to the
   * final `\n`, which opens no line of its own.
   */
  lemma {:induction false} SplitLinesJoin(s: string)
    requires NewlineBreaksOnly(s)
    ensures Join(SplitLines(s), "\n") + FinalNewline(s) == s
    decreases |s|
  {
    if s != [] {
      var i := LineEnd(s, 0);
      if i == |s| {
        assert SplitLines(s) == [s];
        assert !IsLineBreak(s[|s| - 1]);
      } else {
        var rest := s[i + 1..];
        var line := s[..i];
        SplitLinesAtNewline(s, i);
        SplitLinesJoin(rest);
        var lines := SplitLines(rest);
        assert SplitLines(s) == [line] + lines;
        SplitAt(s, i);
        assert s == line + "\n" + rest;
        JoinLineInFront(line, rest, lines);
      }
    }
  }

  /** A sequence is what comes before index `i`, the element at `i`, and what comes after. */
  lemma SplitAt(s: string, i: nat)
    requires i < |s|
    ensures s == s[..i] + [s[i]] + s[i + 1..]
  {
  }

  /** Putting a line and a `\n` in front of a text puts that line in front of its lines. */
  lemma JoinLineInFront(line: string, rest: string, lines: seq<string>)
    requires Join(lines, "\n") + FinalNewline(rest) == rest
    requires rest == [] <==> lines == []
    ensures Join([line] + lines, "\n") + FinalNewline(line + "\n" + rest) == line + "\n" + rest
  {
    var s := line + "\n" + rest;
    if rest == [] {
      assert [line] + lines == [line];
      assert s == line + "\n";
    } else {
      JoinCons(line, lines, "\n");
      assert s[|s| - 1] == rest[|rest| - 1];
    }
  }

  /** The first line ends at a `\n`, and the rest splits on its own, with only `\n` breaks as well. */
  lemma SplitLinesAtNewline(s: string, i: nat)
    requires NewlineBreaksOnly(s) && s != [] && i == LineEnd(s, 0) && i < |s|
    ensures s[i] == '\n'
    ensures SplitLines(s) == [s[..i]] + SplitLines(s[i + 1..])
    ensures NewlineBreaksOnly(s[i + 1..])
  {
    var rest := s[i + 1..];
    forall k | 0 <= k < |rest| && IsLineBreak(rest[k]) ensures rest[k] == '\n' {
      assert rest[k] == s[i + 1 + k];
    }
  }

  /** Joining a first part in front of at least one more puts the separator between them. */
  lemma JoinCons(first: string, parts: seq<string>, sep: string)
    requires parts != []
    ensures Join([first] + parts, sep) == first + sep + Join(parts, sep)
  {
    assert ([first] + parts)[1..] == parts;
  }

  function DigitChar(d: int): (c: char)
    requires 0 <= d < 10
    ensures IsDigit(c)
  {
    ('0' as int + d) as char
  }

  function DigitValue(c: char): (d: int)
    requires IsDigit(c)
    ensures 0 <= d < 10
  {
    c as int - '0' as int
  }

  /** The value of a string of decimal digits read most significant first. */
  function DigitsValue(s: string): nat
    requires AllDigits(s)
  {
    if s == [] then 0 else DigitsValue(s[..|s| - 1]) * 10 + DigitValue(s[|s| - 1])
  }

  /** Python's `str(n)` for `n >= 0`: a non-empty digit string whose value is `n`. */
  function NatDecimal(n: nat): (s: string)
    ensures |s| > 0 && AllDigits(s)
    ensures DigitsValue(s) == n
  {
    if n < 10 then [DigitChar(n)]
    else
      var s := NatDecimal(n / 10) + [DigitChar(n % 10)];
      assert s[..|s| - 1] == NatDecimal(n / 10);
      s
  }

  /** Python's `str(n)`. */
  function Decimal(n: int): string
  {
    if n < 0 then "-" + NatDecimal(-n) else NatDecimal(n)
  }

  /** Python's `int(s, 10)` on an already stripped string: an optional sign and ASCII digits. */
  function ParseInt(s: string): (r: Option<int>)
    ensures r.Some? ==> s != [] && s != "-" && s != "+"
    ensures r.Some? && r.value < 0 ==> s[0] == '-'
    ensures AllDigits(s) && s != [] ==> r == Some(DigitsValue(s))
  {
    if |s| > 0 && (s[0] == '-' || s[0] == '+') then
      if |s| > 1 && AllDigits(s[1..]) then
        var v: int := DigitsValue(s[1..]);
        Some(if s[0] == '-' then -v else v)
      else None
    else if |s| > 0 && AllDigits(s) then Some(DigitsValue(s))
    else None
  }

  /** `int(str(n)) == n`. */
  lemma {:induction false} ParseDecimal(n: int)
    ensures ParseInt(Decimal(n)) == Some(n)
  {
    if n < 0 {
      var d := NatDecimal(-n);
      assert Decimal(n)[1..] == d;
    } else {
      var d := NatDecimal(n);
      assert d[0] != '-' && d[0] != '+' by { assert IsDigit(d[0]); }
    }
  }

  /** Stripping a string that already starts and ends with a non-space changes nothing. */
  lemma StripClean(s: string)
    requires s == [] || (!IsSpace(s[0]) && !IsSpace(s[|s| - 1]))
    ensures Strip(s) == s
  {
  }

  /** Splitting at `sep` undoes joining with `sep`, when no part holds `sep`. */
  lemma {:induction false} SplitOnJoin(parts: seq<string>, sep: char)
    requires |parts| > 0
    requires forall k :: 0 <= k < |parts| ==> sep !in parts[k]
    ensures SplitOn(Join(parts, [sep]), sep) == parts
  {
    if |parts| == 1 {
      SplitOnFree(parts[0], sep);
    } else {
      SplitOnJoin(parts[1..], sep);
      SplitOnFirst(parts[0], Join(parts[1..], [sep]), sep);
      assert [parts[0]] + parts[1..] == parts;
    }
  }

  /** A string without `sep` splits into itself alone. */
  lemma {:induction false} SplitOnFree(a: string, sep: char)
    requires sep !in a
    ensures SplitOn(a, sep) == [a]
  {
    if a != [] {
      SplitOnFree(a[1..], sep);
      assert a == [a[0]] + a[1..];
    }
  }

  /** Splitting `a + sep + rest`, with no `sep` in `a`, gives `a` and then the pieces of `rest`. */
  lemma {:induction false} SplitOnFirst(a: string, rest: string, sep: char)
    requires sep !in a
    ensures SplitOn(a + [sep] + rest, sep) == [a] + SplitOn(rest, sep)
  {
    if a == [] {
      assert [sep] + rest == a + [sep] + rest;
      assert ([sep] + rest)[1..] == rest;
    } else {
      var s := a + [sep] + rest;
      SplitOnFirst(a[1..], rest, sep);
      assert s[0] == a[0] && s[1..] == a[1..] + [sep] + rest;
      var tail := SplitOn(s[1..], sep);
      assert tail == [a[1..]] + SplitOn(rest, sep);
      assert [a[0]] + tail[0] == a;
      assert tail[1..] == SplitOn(rest, sep);
    }
  }

  /** The index just past the run of `inRun` characters that starts at `i`. */
  function RunEnd(s: string, i: nat, inRun: char -> bool): (j: nat)
    requires i <= |s|
    ensures i <= j <= |s|
    ensures forall k :: i <= k < j ==> inRun(s[k])
    ensures j < |s| ==> !inRun(s[j])
    decreases |s| - i
  {
    if i == |s| || !inRun(s[i]) then i else RunEnd(s, i + 1, inRun)
  }

  /** `re.findall` of a one-or-more character class: the maximal runs of `inRun` characters, left to right. */
  function Runs(s: string, inRun: char -> bool): (rs: seq<string>)
    ensures forall k :: 0 <= k < |rs| ==> rs[k] != [] && forall i :: 0 <= i < |rs[k]| ==> inRun(rs[k][i])
    decreases |s|
  {
    if s == [] then []
    else if !inRun(s[0]) then Runs(s[1..], inRun)
    else
      var j := RunEnd(s, 0, inRun);
      [s[..j]] + Runs(s[j..], inRun)
  }

  /** A string with no `inRun` character has no runs. */
  lemma {:induction false} RunsNone(s: string, inRun: char -> bool)
    requires forall i :: 0 <= i < |s| ==> !inRun(s[i])
    ensures Runs(s, inRun) == []
  {
    if s != [] {
      RunsNone(s[1..], inRun);
    }
  }

  /** A whole run `a` followed by a non-run character (or nothing) is found as one run. */
  lemma RunsFirst(a: string, rest: string, inRun: char -> bool)
    requires a != [] && forall i :: 0 <= i < |a| ==> inRun(a[i])
    requires rest == [] || !inRun(rest[0])
    ensures Runs(a + rest, inRun) == [a] + Runs(rest, inRun)
  {
    var s := a + rest;
    forall k | 0 <= k < |a|
      ensures inRun(s[k])
    {
      assert s[k] == a[k];
    }
    RunEndAt(s, 0, |a|, inRun);
    assert s[0] == a[0];
    assert s[..|a|] == a && s[|a|..] == rest;
  }

  /** The run starting at `i` ends at `n` when everything from `i` to `n` is a run character and `s[n]` is not. */
  lemma {:induction false} RunEndAt(s: string, i: nat, n: nat, inRun: char -> bool)
    requires i <= n <= |s|
    requires forall k :: i <= k < n ==> inRun(s[k])
    requires n == |s| || !inRun(s[n])
    ensures RunEnd(s, i, inRun) == n
    decreases n - i
  {
    if i < n {
      RunEndAt(s, i + 1, n, inRun);
    }
  }

  /** Finding the runs undoes joining non-empty runs with a separator that is not a run character. */
  lemma {:induction false} RunsOfJoin(parts: seq<string>, sep: char, inRun: char -> bool)
    requires |parts| > 0 && !inRun(sep)
    requires forall k :: 0 <= k < |parts| ==> parts[k] != [] && forall i :: 0 <= i < |parts[k]| ==> inRun(parts[k][i])
    ensures Runs(Join(parts, [sep]), inRun) == parts
  {
    if |parts| == 1 {
      RunsFirst(parts[0], [], inRun);
      assert parts[0] + [] == parts[0];
    } else {
      var tail := Join(parts[1..], [sep]);
      RunsOfJoin(parts[1..], sep, inRun);
      assert parts[0] + [sep] + tail == parts[0] + ([sep] + tail);
      RunsFirst(parts[0], [sep] + tail, inRun);
      assert ([sep] + tail)[1..] == tail;
      assert [parts[0]] + parts[1..] == parts;
    }
  }
}
